/** The Pratt expression parser, over token sequences. */
module Pratt {
  import opened Prelude

  /** A token is an atom or an operator symbol; the same symbol may be a prefix and an infix operator. */
  datatype Token = Atom(value: int) | Symbol(name: string)

  datatype Assoc = Left | Right

  datatype PrefixOp = PrefixOp(precedence: nat, symbol: string)
  datatype InfixOp = InfixOp(precedence: nat, assoc: Assoc, symbol: string)
  datatype PostfixOp = PostfixOp(precedence: nat, symbol: string)

  datatype Table = Table(prefixOps: seq<PrefixOp>, infixOps: seq<InfixOp>, postfixOps: seq<PostfixOp>)

  /** What the `apply` functions build. */
  datatype Expr =
    | Leaf(value: int)
    | Prefix(pre: PrefixOp, operand: Expr)
    | Infix(op: InfixOp, left: Expr, right: Expr)
    | Postfix(post: PostfixOp, operand: Expr)

  datatype ParseResult = Ok(expr: Expr, pos: nat) | Err

  // ---------------------------------------------------------------------------------------------
  // The parser

  predicate At(tokens: seq<Token>, pos: nat, symbol: string) {
    pos < |tokens| && tokens[pos] == Symbol(symbol)
  }

  function FindPrefix(ops: seq<PrefixOp>, tokens: seq<Token>, pos: nat): (r: Option<PrefixOp>)
    ensures r.Some? ==> r.value in ops && At(tokens, pos, r.value.symbol)
    ensures r.None? ==> forall o | o in ops :: !At(tokens, pos, o.symbol)
  {
    if ops == [] then None
    else if At(tokens, pos, ops[0].symbol) then Some(ops[0])
    else FindPrefix(ops[1..], tokens, pos)
  }

  function FindInfix(ops: seq<InfixOp>, tokens: seq<Token>, pos: nat, minPrecedence: nat): (r: Option<InfixOp>)
    ensures r.Some? ==> r.value in ops && r.value.precedence >= minPrecedence && At(tokens, pos, r.value.symbol)
    ensures r.None? ==> forall o | o in ops && o.precedence >= minPrecedence :: !At(tokens, pos, o.symbol)
  {
    if ops == [] then None
    else if ops[0].precedence >= minPrecedence && At(tokens, pos, ops[0].symbol) then Some(ops[0])
    else FindInfix(ops[1..], tokens, pos, minPrecedence)
  }

  function FindPostfix(ops: seq<PostfixOp>, tokens: seq<Token>, pos: nat, minPrecedence: nat): (r: Option<PostfixOp>)
    ensures r.Some? ==> r.value in ops && r.value.precedence >= minPrecedence && At(tokens, pos, r.value.symbol)
    ensures r.None? ==> forall o | o in ops && o.precedence >= minPrecedence :: !At(tokens, pos, o.symbol)
  {
    if ops == [] then None
    else if ops[0].precedence >= minPrecedence && At(tokens, pos, ops[0].symbol) then Some(ops[0])
    else FindPostfix(ops[1..], tokens, pos, minPrecedence)
  }

  /** The precedence the right operand of an infix operator is parsed at. */
  function NextMin(op: InfixOp): nat {
    if op.assoc == Left then op.precedence + 1 else op.precedence
  }

  function ParseExpr(table: Table, tokens: seq<Token>, pos: nat, minPrecedence: nat): (r: ParseResult)
    ensures r.Ok? ==> pos < r.pos <= |tokens|
    decreases |tokens| - pos, 2
  {
    match ParsePrefix(table, tokens, pos)
    case Err => Err
    case Ok(left, p) => ParseLoop(table, tokens, left, p, minPrecedence)
  }

  /** The loop of `parse_expr` with `left` parsed so far. */
  function ParseLoop(table: Table, tokens: seq<Token>, left: Expr, pos: nat, minPrecedence: nat): (r: ParseResult)
    requires pos <= |tokens|
    ensures r.Ok? ==> pos <= r.pos <= |tokens|
    decreases |tokens| - pos, 0
  {
    match FindInfix(table.infixOps, tokens, pos, minPrecedence)
    case Some(op) => (
      match ParseExpr(table, tokens, pos + 1, NextMin(op))
      case Err => Err
      case Ok(right, p) => ParseLoop(table, tokens, Infix(op, left, right), p, minPrecedence))
    case None =>
      match FindPostfix(table.postfixOps, tokens, pos, minPrecedence)
      case Some(op) => ParseLoop(table, tokens, Postfix(op, left), pos + 1, minPrecedence)
      case None => Ok(left, pos)
  }

  function ParsePrefix(table: Table, tokens: seq<Token>, pos: nat): (r: ParseResult)
    ensures r.Ok? ==> pos < r.pos <= |tokens|
    decreases |tokens| - pos, 1
  {
    match FindPrefix(table.prefixOps, tokens, pos)
    case Some(op) => (
      match ParseExpr(table, tokens, pos + 1, op.precedence)
      case Err => Err
      case Ok(operand, p) => Ok(Prefix(op, operand), p))
    case None =>
      if pos < |tokens| && tokens[pos].Atom? then Ok(Leaf(tokens[pos].value), pos + 1) else Err
  }

  /** One turn of the loop of `parse_expr`. */
  lemma LoopTurn(table: Table, tokens: seq<Token>, left: Expr, pos: nat, minPrecedence: nat)
    requires pos <= |tokens|
    ensures var infix := FindInfix(table.infixOps, tokens, pos, minPrecedence);
            var post := FindPostfix(table.postfixOps, tokens, pos, minPrecedence);
            ParseLoop(table, tokens, left, pos, minPrecedence) ==
            if infix.Some? then
              var right := ParseExpr(table, tokens, pos + 1, NextMin(infix.value));
              if right.Err? then Err
              else ParseLoop(table, tokens, Infix(infix.value, left, right.expr), right.pos, minPrecedence)
            else if post.Some? then ParseLoop(table, tokens, Postfix(post.value, left), pos + 1, minPrecedence)
            else Ok(left, pos)
  {
    hide ParseExpr, FindInfix, FindPostfix;
  }

  lemma ExprStarts(table: Table, tokens: seq<Token>, pos: nat, minPrecedence: nat)
    ensures var r := ParsePrefix(table, tokens, pos);
            ParseExpr(table, tokens, pos, minPrecedence) ==
            if r.Err? then Err else ParseLoop(table, tokens, r.expr, r.pos, minPrecedence)
  {
    hide ParseLoop, ParsePrefix;
  }

  /** `parse_expr` as written: one loop over `left`, `pos` and `found`, scanning the tables in order. */
  method RunParseExpr(table: Table, tokens: seq<Token>, start: nat, minPrecedence: nat) returns (r: ParseResult)
    ensures r == ParseExpr(table, tokens, start, minPrecedence)
    decreases |tokens| - start, 1
  {
    ExprStarts(table, tokens, start, minPrecedence);
    hide ParseExpr, ParseLoop, ParsePrefix;
    r := RunParsePrefix(table, tokens, start);
    if r.Err? { return; }
    var left, pos := r.expr, r.pos;
    var found := true;
    while found
      invariant start < pos <= |tokens|
      invariant found ==>
                  ParseExpr(table, tokens, start, minPrecedence) == ParseLoop(table, tokens, left, pos, minPrecedence)
      invariant !found ==> ParseExpr(table, tokens, start, minPrecedence) == Ok(left, pos)
      decreases |tokens| - pos, found
    {
      LoopTurn(table, tokens, left, pos, minPrecedence);
      found := false;
      ghost var goal := FindInfix(table.infixOps, tokens, pos, minPrecedence);
      ghost var pos0, left0 := pos, left;
      for i := 0 to |table.infixOps|
        invariant !found && pos == pos0 && left == left0
        invariant goal == FindInfix(table.infixOps[i..], tokens, pos, minPrecedence)
      {
        var op := table.infixOps[i];
        if op.precedence < minPrecedence { continue; }
        if At(tokens, pos, op.symbol) {
          var nextMin := if op.assoc == Left then op.precedence + 1 else op.precedence;
          var right := RunParseExpr(table, tokens, pos + 1, nextMin);
          if right.Err? { return Err; }
          left, pos, found := Infix(op, left, right.expr), right.pos, true;
          break;
        }
      }
      if !found {
        var post := ScanPostfix(table, tokens, pos, minPrecedence);
        if post.Some? { left, pos, found := Postfix(post.value, left), pos + 1, true; }
      }
    }
    return Ok(left, pos);
  }

  /** The scan of the postfix operators. */
  method ScanPostfix(table: Table, tokens: seq<Token>, pos: nat, minPrecedence: nat) returns (r: Option<PostfixOp>)
    ensures r == FindPostfix(table.postfixOps, tokens, pos, minPrecedence)
  {
    for i := 0 to |table.postfixOps|
      invariant FindPostfix(table.postfixOps, tokens, pos, minPrecedence)
             == FindPostfix(table.postfixOps[i..], tokens, pos, minPrecedence)
    {
      var op := table.postfixOps[i];
      if op.precedence < minPrecedence { continue; }
      if At(tokens, pos, op.symbol) { return Some(op); }
    }
    return None;
  }

  method RunParsePrefix(table: Table, tokens: seq<Token>, pos: nat) returns (r: ParseResult)
    ensures r == ParsePrefix(table, tokens, pos)
    decreases |tokens| - pos, 0
  {
    ghost var goal := FindPrefix(table.prefixOps, tokens, pos);
    for i := 0 to |table.prefixOps|
      invariant goal == FindPrefix(table.prefixOps[i..], tokens, pos)
    {
      var op := table.prefixOps[i];
      if At(tokens, pos, op.symbol) {
        r := RunParseExpr(table, tokens, pos + 1, op.precedence);
        if r.Err? { return; }
        return Ok(Prefix(op, r.expr), r.pos);
      }
    }
    if pos < |tokens| && tokens[pos].Atom? {
      return Ok(Leaf(tokens[pos].value), pos + 1);
    }
    return Err;
  }

  // ---------------------------------------------------------------------------------------------
  // Printing, and the trees the parser can return

  function Flatten(e: Expr): (s: seq<Token>)
    ensures |s| > 0
  {
    match e
    case Leaf(v) => [Atom(v)]
    case Prefix(o, x) => [Symbol(o.symbol)] + Flatten(x)
    case Infix(o, l, r) => Flatten(l) + [Symbol(o.symbol)] + Flatten(r)
    case Postfix(o, x) => Flatten(x) + [Symbol(o.symbol)]
  }

  /** Would an operator of precedence `q` written right after `e` be taken by an operand inside `e`? */
  predicate Absorbs(e: Expr, q: nat) {
    match e
    case Leaf(_) => false
    case Prefix(o, x) => q >= o.precedence || Absorbs(x, q)
    case Infix(o, _, r) => q >= NextMin(o) || Absorbs(r, q)
    case Postfix(_, _) => false
  }

  /** Every operator on the left spine of `e` has at least this precedence. */
  predicate SpineAtLeast(e: Expr, q: nat) {
    match e
    case Leaf(_) => true
    case Prefix(_, _) => true
    case Infix(o, l, _) => o.precedence >= q && SpineAtLeast(l, q)
    case Postfix(o, x) => o.precedence >= q && SpineAtLeast(x, q)
  }

  /** Trees over the table's operators in which no operand captures or drops an operator. */
  predicate Correct(table: Table, e: Expr) {
    match e
    case Leaf(_) => true
    case Prefix(o, x) => o in table.prefixOps && Correct(table, x) && SpineAtLeast(x, o.precedence)
    case Infix(o, l, r) =>
      && o in table.infixOps && Correct(table, l) && Correct(table, r)
      && !Absorbs(l, o.precedence) && SpineAtLeast(r, NextMin(o))
    case Postfix(o, x) => o in table.postfixOps && Correct(table, x) && !Absorbs(x, o.precedence)
  }

  ghost predicate CorrectAt(table: Table, e: Expr, minPrecedence: nat) {
    Correct(table, e) && SpineAtLeast(e, minPrecedence)
  }

  /** Symbols are distinct among the prefix operators, and among the infix and postfix operators together. */
  ghost predicate DistinctSymbols(table: Table) {
    && (forall o, o' | o in table.prefixOps && o' in table.prefixOps && o.symbol == o'.symbol :: o == o')
    && (forall o, o' | o in table.infixOps && o' in table.infixOps && o.symbol == o'.symbol :: o == o')
    && (forall o, o' | o in table.postfixOps && o' in table.postfixOps && o.symbol == o'.symbol :: o == o')
    && (forall o, o' | o in table.infixOps && o' in table.postfixOps :: o.symbol != o'.symbol)
  }

  /** The token at `pos` is an infix or postfix operator of precedence `q`. */
  ghost predicate OperatorAt(table: Table, tokens: seq<Token>, pos: nat, q: nat) {
    || (exists o | o in table.infixOps :: o.precedence == q && At(tokens, pos, o.symbol))
    || (exists o | o in table.postfixOps :: o.precedence == q && At(tokens, pos, o.symbol))
  }

  ghost predicate NotAbsorbed(table: Table, tokens: seq<Token>, e: Expr, pos: nat) {
    forall q: nat | OperatorAt(table, tokens, pos, q) :: !Absorbs(e, q)
  }

  /** `e` is a correct tree that is printed from `start` to `end` and absorbs nothing at `end`. */
  ghost predicate Held(table: Table, tokens: seq<Token>, start: nat, e: Expr, end: nat, minPrecedence: nat) {
    && start <= end <= |tokens| && tokens[start..end] == Flatten(e)
    && CorrectAt(table, e, minPrecedence)
    && NotAbsorbed(table, tokens, e, end)
  }

  /** `e` is a correct tree that is printed from `start` to `end` and that nothing at `end` extends. */
  ghost predicate Parses(table: Table, tokens: seq<Token>, start: nat, e: Expr, end: nat, minPrecedence: nat) {
    && Held(table, tokens, start, e, end, minPrecedence)
    && forall q: nat | OperatorAt(table, tokens, end, q) :: q < minPrecedence
  }

  // ---------------------------------------------------------------------------------------------
  // Every success is such a parse

  lemma {:induction false} ExprSound(table: Table, tokens: seq<Token>, start: nat, minPrecedence: nat)
    requires ParseExpr(table, tokens, start, minPrecedence).Ok?
    ensures var r := ParseExpr(table, tokens, start, minPrecedence);
            Parses(table, tokens, start, r.expr, r.pos, minPrecedence)
    decreases |tokens| - start, 2
  {
    PrefixSound(table, tokens, start, minPrecedence);
    var r := ParsePrefix(table, tokens, start);
    LoopSound(table, tokens, start, r.expr, r.pos, minPrecedence);
  }

  lemma {:induction false} PrefixSound(table: Table, tokens: seq<Token>, start: nat, minPrecedence: nat)
    requires ParsePrefix(table, tokens, start).Ok?
    ensures var r := ParsePrefix(table, tokens, start);
            Held(table, tokens, start, r.expr, r.pos, minPrecedence)
    decreases |tokens| - start, 1
  {
    var op := FindPrefix(table.prefixOps, tokens, start);
    if op.Some? {
      ExprSound(table, tokens, start + 1, op.value.precedence);
      var r := ParseExpr(table, tokens, start + 1, op.value.precedence);
      assert tokens[start..r.pos] == [tokens[start]] + tokens[start + 1..r.pos];
    }
  }

  lemma {:induction false} LoopSound(table: Table, tokens: seq<Token>, start: nat, left: Expr, pos: nat,
                                     minPrecedence: nat)
    requires Held(table, tokens, start, left, pos, minPrecedence)
    requires ParseLoop(table, tokens, left, pos, minPrecedence).Ok?
    ensures var r := ParseLoop(table, tokens, left, pos, minPrecedence);
            Parses(table, tokens, start, r.expr, r.pos, minPrecedence)
    decreases |tokens| - pos, 0
  {
    hide Held, NotAbsorbed, CorrectAt;
    var op := FindInfix(table.infixOps, tokens, pos, minPrecedence);
    var post := FindPostfix(table.postfixOps, tokens, pos, minPrecedence);
    if op.Some? {
      ExprSound(table, tokens, pos + 1, NextMin(op.value));
      var r := ParseExpr(table, tokens, pos + 1, NextMin(op.value));
      HoldInfix(table, tokens, start, left, pos, minPrecedence, op.value, r.expr, r.pos);
      LoopSound(table, tokens, start, Infix(op.value, left, r.expr), r.pos, minPrecedence);
    } else if post.Some? {
      HoldPostfix(table, tokens, start, left, pos, minPrecedence, post.value);
      LoopSound(table, tokens, start, Postfix(post.value, left), pos + 1, minPrecedence);
    } else {
      NoneFound(table, tokens, start, left, pos, minPrecedence);
    }
  }

  lemma HoldInfix(table: Table, tokens: seq<Token>, start: nat, left: Expr, pos: nat, minPrecedence: nat,
                  o: InfixOp, right: Expr, end: nat)
    requires Held(table, tokens, start, left, pos, minPrecedence)
    requires o in table.infixOps && o.precedence >= minPrecedence && At(tokens, pos, o.symbol)
    requires Parses(table, tokens, pos + 1, right, end, NextMin(o))
    ensures Held(table, tokens, start, Infix(o, left, right), end, minPrecedence)
  {
    assert OperatorAt(table, tokens, pos, o.precedence);
    hide OperatorAt;
    assert tokens[start..end] == tokens[start..pos] + [tokens[pos]] + tokens[pos + 1..end];
  }

  lemma HoldPostfix(table: Table, tokens: seq<Token>, start: nat, left: Expr, pos: nat, minPrecedence: nat,
                    o: PostfixOp)
    requires Held(table, tokens, start, left, pos, minPrecedence)
    requires o in table.postfixOps && o.precedence >= minPrecedence && At(tokens, pos, o.symbol)
    ensures Held(table, tokens, start, Postfix(o, left), pos + 1, minPrecedence)
  {
    assert OperatorAt(table, tokens, pos, o.precedence);
    hide OperatorAt;
    assert tokens[start..pos + 1] == tokens[start..pos] + [tokens[pos]];
  }

  lemma NoneFound(table: Table, tokens: seq<Token>, start: nat, left: Expr, pos: nat, minPrecedence: nat)
    requires Held(table, tokens, start, left, pos, minPrecedence)
    requires FindInfix(table.infixOps, tokens, pos, minPrecedence).None?
    requires FindPostfix(table.postfixOps, tokens, pos, minPrecedence).None?
    ensures Parses(table, tokens, start, left, pos, minPrecedence)
  {
  }

  // ---------------------------------------------------------------------------------------------
  // Every such parse is found

  /** Parsing a correct tree's text reaches the loop with exactly that tree in hand. */
  lemma {:induction false} Reparse(table: Table, tokens: seq<Token>, start: nat, e: Expr, end: nat, minPrecedence: nat)
    requires DistinctSymbols(table) && Held(table, tokens, start, e, end, minPrecedence)
    ensures ParseExpr(table, tokens, start, minPrecedence) == ParseLoop(table, tokens, e, end, minPrecedence)
    decreases e, 1
  {
    hide *;
    match e
    case Leaf(v) => ReparseLeaf(table, tokens, start, v, end, minPrecedence);
    case Prefix(o, x) => ReparsePrefix(table, tokens, start, o, x, end, minPrecedence);
    case Infix(o, l, r) => ReparseInfix(table, tokens, start, o, l, r, end, minPrecedence);
    case Postfix(o, x) => ReparsePostfix(table, tokens, start, o, x, end, minPrecedence);
  }

  lemma {:induction false} ReparsePrefix(table: Table, tokens: seq<Token>, start: nat, o: PrefixOp, x: Expr, end: nat,
                                         minPrecedence: nat)
    requires DistinctSymbols(table) && Held(table, tokens, start, Prefix(o, x), end, minPrecedence)
    ensures ParseExpr(table, tokens, start, minPrecedence) == ParseLoop(table, tokens, Prefix(o, x), end, minPrecedence)
    decreases Prefix(o, x), 0
  {
    SplitPrefix(table, tokens, start, o, x, end, minPrecedence);
    hide *;
    Reparse(table, tokens, start + 1, x, end, o.precedence);
    LoopStops(table, tokens, x, end, o.precedence);
    PrefixStep(table, tokens, start, o, x, end, minPrecedence);
  }

  lemma {:induction false} ReparseInfix(table: Table, tokens: seq<Token>, start: nat, o: InfixOp, l: Expr, r: Expr,
                                        end: nat,
                                        minPrecedence: nat)
    requires DistinctSymbols(table) && Held(table, tokens, start, Infix(o, l, r), end, minPrecedence)
    ensures ParseExpr(table, tokens, start, minPrecedence)
        == ParseLoop(table, tokens, Infix(o, l, r), end, minPrecedence)
    decreases Infix(o, l, r), 0
  {
    var m := SplitInfix(table, tokens, start, o, l, r, end, minPrecedence);
    hide *;
    Reparse(table, tokens, start, l, m, minPrecedence);
    Reparse(table, tokens, m + 1, r, end, NextMin(o));
    LoopStops(table, tokens, r, end, NextMin(o));
    InfixStep(table, tokens, l, o, m, minPrecedence, r, end);
  }

  lemma {:induction false} ReparsePostfix(table: Table, tokens: seq<Token>, start: nat, o: PostfixOp, x: Expr, end: nat,
                                          minPrecedence: nat)
    requires DistinctSymbols(table) && Held(table, tokens, start, Postfix(o, x), end, minPrecedence)
    ensures ParseExpr(table, tokens, start, minPrecedence)
        == ParseLoop(table, tokens, Postfix(o, x), end, minPrecedence)
    decreases Postfix(o, x), 0
  {
    SplitPostfix(table, tokens, start, o, x, end, minPrecedence);
    hide *;
    Reparse(table, tokens, start, x, end - 1, minPrecedence);
    PostfixStep(table, tokens, x, o, end - 1, minPrecedence);
  }

  lemma ReparseLeaf(table: Table, tokens: seq<Token>, start: nat, v: int, end: nat, minPrecedence: nat)
    requires Held(table, tokens, start, Leaf(v), end, minPrecedence)
    ensures ParseExpr(table, tokens, start, minPrecedence) == ParseLoop(table, tokens, Leaf(v), end, minPrecedence)
  {
    assert tokens[start] == tokens[start..end][0] == Atom(v);
    hide ParseLoop;
  }

  lemma SplitPrefix(table: Table, tokens: seq<Token>, start: nat, o: PrefixOp, x: Expr, end: nat, minPrecedence: nat)
    requires Held(table, tokens, start, Prefix(o, x), end, minPrecedence)
    ensures At(tokens, start, o.symbol) && o in table.prefixOps
    ensures Held(table, tokens, start + 1, x, end, o.precedence)
    ensures forall q: nat | OperatorAt(table, tokens, end, q) :: q < o.precedence
  {
    assert tokens[start] == tokens[start..end][0];
    assert tokens[start + 1..end] == tokens[start..end][1..] == Flatten(x);
  }

  lemma SplitInfix(table: Table, tokens: seq<Token>, start: nat, o: InfixOp, l: Expr, r: Expr, end: nat,
                   minPrecedence: nat)
    returns (m: nat)
    requires DistinctSymbols(table) && Held(table, tokens, start, Infix(o, l, r), end, minPrecedence)
    ensures At(tokens, m, o.symbol) && o in table.infixOps && o.precedence >= minPrecedence
    ensures Held(table, tokens, start, l, m, minPrecedence) && Held(table, tokens, m + 1, r, end, NextMin(o))
    ensures forall q: nat | OperatorAt(table, tokens, end, q) :: q < NextMin(o)
  {
    m := start + |Flatten(l)|;
    SplitText(tokens[start..end], Flatten(l), Symbol(o.symbol), Flatten(r));
    assert tokens[start..m] == tokens[start..end][..m - start];
    assert tokens[m] == tokens[start..end][m - start];
    assert tokens[m + 1..end] == tokens[start..end][m - start + 1..];
    OnlyOperator(table, tokens, m, o.symbol, o.precedence);
    hide OperatorAt, DistinctSymbols;
  }

  lemma SplitText(s: seq<Token>, l: seq<Token>, t: Token, r: seq<Token>)
    requires s == l + [t] + r
    ensures s[..|l|] == l && s[|l|] == t && s[|l| + 1..] == r
  {
  }

  lemma SplitPostfix(table: Table, tokens: seq<Token>, start: nat, o: PostfixOp, x: Expr, end: nat, minPrecedence: nat)
    requires DistinctSymbols(table) && Held(table, tokens, start, Postfix(o, x), end, minPrecedence)
    ensures end > start && At(tokens, end - 1, o.symbol) && o in table.postfixOps && o.precedence >= minPrecedence
    ensures Held(table, tokens, start, x, end - 1, minPrecedence)
  {
    assert tokens[start..end - 1] == tokens[start..end][..end - 1 - start] == Flatten(x);
    assert tokens[end - 1] == tokens[start..end][end - 1 - start];
    OnlyOperator(table, tokens, end - 1, o.symbol, o.precedence);
    hide OperatorAt, DistinctSymbols;
  }

  lemma PrefixStep(table: Table, tokens: seq<Token>, pos: nat, o: PrefixOp, x: Expr, end: nat, minPrecedence: nat)
    requires DistinctSymbols(table) && At(tokens, pos, o.symbol) && o in table.prefixOps
    requires ParseExpr(table, tokens, pos + 1, o.precedence) == Ok(x, end)
    ensures ParseExpr(table, tokens, pos, minPrecedence) == ParseLoop(table, tokens, Prefix(o, x), end, minPrecedence)
  {
    assert ParsePrefix(table, tokens, pos) == Ok(Prefix(o, x), end);
    hide ParseLoop, ParsePrefix;
  }

  lemma InfixStep(table: Table, tokens: seq<Token>, l: Expr, o: InfixOp, pos: nat, minPrecedence: nat, r: Expr,
                  end: nat)
    requires DistinctSymbols(table) && At(tokens, pos, o.symbol) && o in table.infixOps && o.precedence >= minPrecedence
    requires ParseExpr(table, tokens, pos + 1, NextMin(o)) == Ok(r, end)
    ensures ParseLoop(table, tokens, l, pos, minPrecedence)
        == ParseLoop(table, tokens, Infix(o, l, r), end, minPrecedence)
  {
    assert FindInfix(table.infixOps, tokens, pos, minPrecedence) == Some(o);
  }

  lemma PostfixStep(table: Table, tokens: seq<Token>, x: Expr, o: PostfixOp, pos: nat, minPrecedence: nat)
    requires DistinctSymbols(table) && At(tokens, pos, o.symbol) && o in table.postfixOps
             && o.precedence >= minPrecedence
    ensures ParseLoop(table, tokens, x, pos, minPrecedence)
        == ParseLoop(table, tokens, Postfix(o, x), pos + 1, minPrecedence)
  {
    assert FindInfix(table.infixOps, tokens, pos, minPrecedence) == None;
    assert FindPostfix(table.postfixOps, tokens, pos, minPrecedence) == Some(o);
  }

  /** With distinct symbols, a token is an operator of one precedence only. */
  lemma OnlyOperator(table: Table, tokens: seq<Token>, pos: nat, symbol: string, precedence: nat)
    requires DistinctSymbols(table) && At(tokens, pos, symbol)
    requires (exists o | o in table.infixOps :: o.symbol == symbol && o.precedence == precedence)
          || (exists o | o in table.postfixOps :: o.symbol == symbol && o.precedence == precedence)
    ensures forall q: nat | OperatorAt(table, tokens, pos, q) :: q == precedence
  {
  }

  lemma LoopStops(table: Table, tokens: seq<Token>, e: Expr, end: nat, minPrecedence: nat)
    requires end <= |tokens|
    requires forall q: nat | OperatorAt(table, tokens, end, q) :: q < minPrecedence
    ensures ParseLoop(table, tokens, e, end, minPrecedence) == Ok(e, end)
  {
    var op := FindInfix(table.infixOps, tokens, end, minPrecedence);
    if op.Some? { assert OperatorAt(table, tokens, end, op.value.precedence); }
    var post := FindPostfix(table.postfixOps, tokens, end, minPrecedence);
    if post.Some? { assert OperatorAt(table, tokens, end, post.value.precedence); }
  }

  /** `parse_expr` succeeds with a tree exactly when that tree is the correct, maximal parse of the text. */
  lemma ParseExprExact(table: Table, tokens: seq<Token>, start: nat, minPrecedence: nat, e: Expr, end: nat)
    requires DistinctSymbols(table)
    ensures ParseExpr(table, tokens, start, minPrecedence) == Ok(e, end)
       <==> Parses(table, tokens, start, e, end, minPrecedence)
  {
    if ParseExpr(table, tokens, start, minPrecedence) == Ok(e, end) {
      ExprSound(table, tokens, start, minPrecedence);
    }
    if Parses(table, tokens, start, e, end, minPrecedence) {
      Reparse(table, tokens, start, e, end, minPrecedence);
      LoopStops(table, tokens, e, end, minPrecedence);
    }
  }

  lemma WholeText(table: Table, e: Expr)
    requires DistinctSymbols(table) && Correct(table, e)
    ensures ParseExpr(table, Flatten(e), 0, 0) == Ok(e, |Flatten(e)|)
  {
    SpineAtLeastZero(e);
    assert Flatten(e)[0..|Flatten(e)|] == Flatten(e);
    ParseExprExact(table, Flatten(e), 0, 0, e, |Flatten(e)|);
    hide ParseExpr, DistinctSymbols, Correct, SpineAtLeast, Flatten;
  }

  /** Printing is unambiguous: correct trees with the same text are equal. */
  lemma PrintingIsInjective(table: Table, e: Expr, e': Expr)
    requires DistinctSymbols(table) && Correct(table, e) && Correct(table, e') && Flatten(e) == Flatten(e')
    ensures e == e'
  {
    hide *;
    WholeText(table, e);
    WholeText(table, e');
  }

  lemma {:induction false} SpineAtLeastZero(e: Expr)
    ensures SpineAtLeast(e, 0)
  {
    match e
    case Leaf(_) =>
    case Prefix(_, _) =>
    case Infix(_, l, _) => SpineAtLeastZero(l);
    case Postfix(_, x) => SpineAtLeastZero(x);
  }

  // ---------------------------------------------------------------------------------------------
  // The textbook rule

  /** Every prefix operator binds tighter than an operator of precedence `q` written after its operand, or none does. */
  ghost predicate Uniform(table: Table, q: nat) {
    (forall p | p in table.prefixOps :: q < p.precedence) || (forall p | p in table.prefixOps :: p.precedence <= q)
  }

  /** One associativity per level; prefix and postfix operators bind tighter than infix ones, and among themselves all
      of the one kind come before all of the other, in either order. */
  ghost predicate Layered(table: Table) {
    && (forall o, o' | o in table.infixOps && o' in table.infixOps && o.precedence == o'.precedence
          :: o.assoc == o'.assoc)
    && (forall p, o | p in table.prefixOps && o in table.infixOps :: o.precedence < p.precedence)
    && (forall p, o | p in table.postfixOps && o in table.infixOps :: o.precedence < p.precedence)
    && ((forall p, o | p in table.prefixOps && o in table.postfixOps :: o.precedence < p.precedence)
        || (forall p, o | p in table.prefixOps && o in table.postfixOps :: p.precedence <= o.precedence))
  }

  /** May an infix expression over `inner` stand unbracketed as the left (right) operand of `outer`? */
  predicate BindsTighter(inner: InfixOp, outer: InfixOp, side: Assoc) {
    inner.precedence > outer.precedence || (inner.precedence == outer.precedence && outer.assoc == side)
  }

  /** The textbook rule, which compares each operator with its operands' root operators only. */
  predicate Textbook(table: Table, e: Expr) {
    match e
    case Leaf(_) => true
    case Prefix(o, x) =>
      && o in table.prefixOps && Textbook(table, x)
      && !x.Infix? && (x.Postfix? ==> x.post.precedence >= o.precedence)
    case Infix(o, l, r) =>
      && o in table.infixOps && Textbook(table, l) && Textbook(table, r)
      && (l.Infix? ==> BindsTighter(l.op, o, Left)) && (r.Infix? ==> BindsTighter(r.op, o, Right))
    case Postfix(o, x) =>
      && o in table.postfixOps && Textbook(table, x)
      && !x.Infix? && (x.Prefix? ==> x.pre.precedence > o.precedence)
  }

  lemma {:induction false} TextbookAbsorbs(table: Table, e: Expr, q: nat)
    requires Layered(table) && Textbook(table, e) && Uniform(table, q)
    ensures Absorbs(e, q) <==> (e.Infix? && q >= NextMin(e.op)) || (e.Prefix? && q >= e.pre.precedence)
  {
    RootOp(table, e);
    match e
    case Leaf(_) =>
    case Prefix(_, x) =>
      RootOp(table, x);
      TextbookAbsorbs(table, x, q);
    case Infix(o, _, r) =>
      RootOp(table, r);
      TextbookAbsorbs(table, r, q);
    case Postfix(_, _) =>
  }

  lemma {:induction false} TextbookSpine(table: Table, e: Expr, q: nat)
    requires Layered(table) && Textbook(table, e)
    requires (forall p | p in table.postfixOps :: q <= p.precedence)
             || (forall p | p in table.postfixOps :: p.precedence < q)
    requires forall o | o in table.infixOps && q <= o.precedence
                 :: forall p | p in table.postfixOps :: q <= p.precedence
    ensures SpineAtLeast(e, q) <==> (e.Infix? ==> e.op.precedence >= q) && (e.Postfix? ==> e.post.precedence >= q)
  {
    RootOp(table, e);
    match e
    case Leaf(_) =>
    case Prefix(_, _) =>
    case Infix(_, l, _) =>
      RootOp(table, l);
      TextbookSpine(table, l, q);
    case Postfix(_, x) =>
      RootOp(table, x);
      TextbookSpine(table, x, q);
  }

  lemma {:induction false} CorrectIsTextbook(table: Table, e: Expr)
    requires Layered(table)
    ensures Correct(table, e) <==> Textbook(table, e)
  {
    match e
    case Leaf(_) =>
    case Prefix(o, x) =>
      CorrectIsTextbook(table, x);
      if o in table.prefixOps && Textbook(table, x) {
        RootOp(table, x);
        TextbookSpine(table, x, o.precedence);
      }
    case Infix(o, l, r) =>
      CorrectIsTextbook(table, l);
      CorrectIsTextbook(table, r);
      if o in table.infixOps && Textbook(table, l) && Textbook(table, r) {
        TextbookAbsorbs(table, l, o.precedence);
        TextbookSpine(table, r, NextMin(o));
        RootOp(table, l);
        RootOp(table, r);
      }
    case Postfix(o, x) =>
      CorrectIsTextbook(table, x);
      if o in table.postfixOps && Textbook(table, x) {
        RootOp(table, x);
        TextbookAbsorbs(table, x, o.precedence);
      }
  }

  lemma RootOp(table: Table, e: Expr)
    requires Textbook(table, e)
    ensures e.Prefix? ==> e.pre in table.prefixOps
    ensures e.Infix? ==> e.op in table.infixOps
    ensures e.Postfix? ==> e.post in table.postfixOps
  {
  }

  /** The parser built from a layered table returns a tree exactly when the tree obeys the textbook rule, is what
      the consumed tokens print, and is followed by no operator. */
  lemma BuiltParserExact(table: Table, tokens: seq<Token>, start: nat, e: Expr, end: nat)
    requires DistinctSymbols(table) && Layered(table)
    ensures ParseExpr(table, tokens, start, 0) == Ok(e, end)
       <==> && start <= end <= |tokens| && tokens[start..end] == Flatten(e) && Textbook(table, e)
            && forall q: nat :: !OperatorAt(table, tokens, end, q)
  {
    ParseExprExact(table, tokens, start, 0, e, end);
    CorrectIsTextbook(table, e);
    SpineAtLeastZero(e);
  }

  /** The operator table of `arithmetic_expr`. */
  const ADD := InfixOp(10, Left, "+")
  const SUB := InfixOp(10, Left, "-")
  const MUL := InfixOp(20, Left, "*")
  const DIV := InfixOp(20, Left, "/")
  const NEG := PrefixOp(100, "-")
  const ARITHMETIC := Table([NEG], [ADD, SUB, MUL, DIV], [])

  /** The operator table of `logical_expr`. */
  const NOT := PrefixOp(50, "not")
  const BANG := PrefixOp(50, "!")
  const AND := InfixOp(30, Left, "and")
  const AMPERSANDS := InfixOp(30, Left, "&&")
  const OR := InfixOp(20, Left, "or")
  const BARS := InfixOp(20, Left, "||")
  const LOGICAL := Table([NOT, BANG], [AND, AMPERSANDS, OR, BARS], [])

  // ---------------------------------------------------------------------------------------------
  // The grammars of the two shipped tables, by operator symbols alone

  /** A tree without the numbers that tell levels apart. */
  datatype Term =
    | Value(value: int)
    | Before(symbol: string, operand: Term)
    | Between(symbol: string, left: Term, right: Term)
    | After(symbol: string, operand: Term)

  function Shape(e: Expr): Term {
    match e
    case Leaf(v) => Value(v)
    case Prefix(o, x) => Before(o.symbol, Shape(x))
    case Infix(o, l, r) => Between(o.symbol, Shape(l), Shape(r))
    case Postfix(o, x) => After(o.symbol, Shape(x))
  }

  function Text(t: Term): seq<Token> {
    match t
    case Value(v) => [Atom(v)]
    case Before(o, x) => [Symbol(o)] + Text(x)
    case Between(o, l, r) => Text(l) + [Symbol(o)] + Text(r)
    case After(o, x) => Text(x) + [Symbol(o)]
  }

  /** The symbols of a grammar with unary operators over two levels of left-associative binary ones. */
  datatype Symbols = Symbols(unary: set<string>, tight: set<string>, loose: set<string>)

  /** An atom, or a unary operator before a signed one. */
  predicate Signed(g: Symbols, t: Term) {
    t.Value? || (t.Before? && t.symbol in g.unary && Signed(g, t.operand))
  }

  /** A signed one, or a product times a signed one. */
  predicate Product(g: Symbols, t: Term) {
    Signed(g, t) || (t.Between? && t.symbol in g.tight && Product(g, t.left) && Signed(g, t.right))
  }

  /** A product, or a sum plus a product. */
  predicate Sum(g: Symbols, t: Term) {
    Product(g, t) || (t.Between? && t.symbol in g.loose && Sum(g, t.left) && Product(g, t.right))
  }

  /** The table gives exactly these symbols, and one precedence to each level. */
  ghost predicate Implements(table: Table, g: Symbols) {
    && table.postfixOps == [] && g.tight !! g.loose
    && (forall p | p in table.prefixOps :: p.symbol in g.unary)
    && (forall x | x in g.unary :: exists p :: p in table.prefixOps && p.symbol == x)
    && (forall o | o in table.infixOps :: o.assoc == Left && (o.symbol in g.tight || o.symbol in g.loose))
    && (forall x | x in g.tight || x in g.loose :: exists o :: o in table.infixOps && o.symbol == x)
    && (forall o, o' | o in table.infixOps && o' in table.infixOps && o.symbol in g.tight ::
          if o'.symbol in g.tight then o'.precedence == o.precedence else o'.precedence < o.precedence)
    && (forall o, o' | o in table.infixOps && o' in table.infixOps && o.symbol in g.loose && o'.symbol in g.loose ::
          o'.precedence == o.precedence)
  }

  /** Is the root a looser binary operator than the level allows? */
  predicate AtMostTight(g: Symbols, e: Expr) {
    e.Infix? ==> e.op.symbol in g.tight
  }

  lemma {:induction false} ObeysGrammar(table: Table, g: Symbols, e: Expr)
    requires Implements(table, g) && Textbook(table, e)
    ensures Sum(g, Shape(e)) && (AtMostTight(g, e) ==> Product(g, Shape(e))) && (!e.Infix? ==> Signed(g, Shape(e)))
  {
    match e
    case Leaf(_) =>
    case Prefix(_, x) =>
      RootOp(table, x);
      ObeysGrammar(table, g, x);
    case Infix(_, l, r) =>
      RootOp(table, l);
      RootOp(table, r);
      ObeysGrammar(table, g, l);
      ObeysGrammar(table, g, r);
    case Postfix(_, x) =>
  }

  /** Every term of the grammar is the shape of a tree the textbook rule allows. */
  lemma {:induction false} GrammarTree(table: Table, g: Symbols, t: Term) returns (e: Expr)
    requires Implements(table, g) && Layered(table) && Sum(g, t)
    ensures Textbook(table, e) && Shape(e) == t
    ensures (Product(g, t) ==> AtMostTight(g, e)) && (Signed(g, t) ==> !e.Infix?)
  {
    match t
    case Value(v) => e := Leaf(v);
    case Before(x, operand) =>
      var o :| o in table.prefixOps && o.symbol == x;
      var inner := GrammarTree(table, g, operand);
      e := Prefix(o, inner);
      RootOp(table, inner);
    case Between(x, left, right) =>
      var o :| o in table.infixOps && o.symbol == x;
      var l := GrammarTree(table, g, left);
      var r := GrammarTree(table, g, right);
      e := Infix(o, l, r);
      RootOp(table, l);
      RootOp(table, r);
  }

  lemma {:induction false} ShapeText(e: Expr)
    ensures Text(Shape(e)) == Flatten(e)
  {
    match e
    case Leaf(_) =>
    case Prefix(_, x) => ShapeText(x);
    case Infix(_, l, r) => ShapeText(l); ShapeText(r);
    case Postfix(_, x) => ShapeText(x);
  }

  predicate BinaryAt(g: Symbols, tokens: seq<Token>, pos: nat) {
    pos < |tokens| && tokens[pos].Symbol? && (tokens[pos].name in g.tight || tokens[pos].name in g.loose)
  }

  lemma NoOperatorAt(table: Table, g: Symbols, tokens: seq<Token>, pos: nat)
    requires Implements(table, g)
    ensures (forall q: nat :: !OperatorAt(table, tokens, pos, q)) <==> !BinaryAt(g, tokens, pos)
  {
    if BinaryAt(g, tokens, pos) {
      var o :| o in table.infixOps && o.symbol == tokens[pos].name;
      assert OperatorAt(table, tokens, pos, o.precedence);
    }
  }

  /** The tokens from `start` to `end` are the text of this term of the grammar, and no binary operator follows. */
  ghost predicate Reads(g: Symbols, tokens: seq<Token>, start: nat, t: Term, end: nat) {
    start <= end <= |tokens| && tokens[start..end] == Text(t) && Sum(g, t) && !BinaryAt(g, tokens, end)
  }

  ghost predicate Builds(table: Table, tokens: seq<Token>, start: nat, t: Term, end: nat) {
    exists e :: ParseExpr(table, tokens, start, 0) == Ok(e, end) && Shape(e) == t
  }

  lemma GrammarExact(table: Table, g: Symbols, tokens: seq<Token>, start: nat, t: Term, end: nat)
    requires DistinctSymbols(table) && Layered(table) && Implements(table, g)
    ensures Builds(table, tokens, start, t, end) <==> Reads(g, tokens, start, t, end)
  {
    NoOperatorAt(table, g, tokens, end);
    if Builds(table, tokens, start, t, end) {
      var e :| ParseExpr(table, tokens, start, 0) == Ok(e, end) && Shape(e) == t;
      BuiltParserExact(table, tokens, start, e, end);
      ObeysGrammar(table, g, e);
      ShapeText(e);
    }
    if Reads(g, tokens, start, t, end) {
      var e := GrammarTree(table, g, t);
      BuiltParserExact(table, tokens, start, e, end);
      ShapeText(e);
    }
    hide *;
  }

  /** Signs over products over sums. */
  const SUMS := Symbols({"-"}, {"*", "/"}, {"+", "-"})

  /** Negations over conjunctions over disjunctions. */
  const CLAUSES := Symbols({"not", "!"}, {"and", "&&"}, {"or", "||"})

  /** `arithmetic_expr` reads exactly the sums of products of signed atoms, as far as they go. */
  lemma ArithmeticExact(tokens: seq<Token>, start: nat, t: Term, end: nat)
    ensures Builds(ARITHMETIC, tokens, start, t, end) <==> Reads(SUMS, tokens, start, t, end)
  {
    ArithmeticTable();
    ArithmeticSymbols();
    GrammarExact(ARITHMETIC, SUMS, tokens, start, t, end);
  }

  /** `logical_expr` reads exactly the disjunctions of conjunctions of negated atoms, as far as they go. */
  lemma LogicalExact(tokens: seq<Token>, start: nat, t: Term, end: nat)
    ensures Builds(LOGICAL, tokens, start, t, end) <==> Reads(CLAUSES, tokens, start, t, end)
  {
    LogicalTable();
    LogicalSymbols();
    GrammarExact(LOGICAL, CLAUSES, tokens, start, t, end);
  }

  /** Both shipped tables meet the conditions, so `BuiltParserExact` and `GrammarExact` describe them. */
  lemma ArithmeticTable()
    ensures DistinctSymbols(ARITHMETIC) && Layered(ARITHMETIC)
  {
    assert forall o | o in ARITHMETIC.infixOps :: o == ADD || o == SUB || o == MUL || o == DIV;
    assert ADD.symbol[0] == '+' && SUB.symbol[0] == '-' && MUL.symbol[0] == '*' && DIV.symbol[0] == '/';
  }

  lemma ArithmeticSymbols()
    ensures Implements(ARITHMETIC, SUMS)
  {
    var ops := ARITHMETIC.infixOps;
    assert forall o | o in ops :: o == ADD || o == SUB || o == MUL || o == DIV;
    assert ADD in ops && SUB in ops && MUL in ops && DIV in ops && NEG in ARITHMETIC.prefixOps;
    assert ADD.symbol[0] == '+' && SUB.symbol[0] == '-' && MUL.symbol[0] == '*' && DIV.symbol[0] == '/';
  }

  lemma LogicalTable()
    ensures DistinctSymbols(LOGICAL) && Layered(LOGICAL)
  {
    assert forall o | o in LOGICAL.prefixOps :: o == NOT || o == BANG;
    assert forall o | o in LOGICAL.infixOps :: o == AND || o == AMPERSANDS || o == OR || o == BARS;
    assert NOT.symbol[0] == 'n' && BANG.symbol[0] == '!';
    assert AND.symbol[0] == 'a' && AMPERSANDS.symbol[0] == '&' && OR.symbol[0] == 'o' && BARS.symbol[0] == '|';
  }

  lemma LogicalSymbols()
    ensures Implements(LOGICAL, CLAUSES)
  {
    var pre, ops := LOGICAL.prefixOps, LOGICAL.infixOps;
    assert forall o | o in pre :: o == NOT || o == BANG;
    assert forall o | o in ops :: o == AND || o == AMPERSANDS || o == OR || o == BARS;
    assert NOT in pre && BANG in pre && AND in ops && AMPERSANDS in ops && OR in ops && BARS in ops;
    assert AND.symbol[0] == 'a' && AMPERSANDS.symbol[0] == '&' && OR.symbol[0] == 'o' && BARS.symbol[0] == '|';
  }
}
