/** The parser combinators, as terms with an interpreter over character sequences. */
module Combinators {
  import opened Prelude

  datatype Value =
    | Unit
    | Ch(c: char)
    | Str(s: string)
    | Pair(fst: Value, snd: Value)
    | Opt(value: Option<Value>)
    | List(items: seq<Value>)

  /** `AndThen` picks the parser to go on with by the value read, among finitely many. */
  datatype Parser =
    | Char(c: char)
    | Satisfy(test: char -> bool)
    | OneOf(chars: string)
    | NoneOf(chars: string)
    | Literal(text: string)
    | Keyword(text: string)
    | Eof
    | AnyChar
    | Success(value: Value)
    | Fail
    | Map(p: Parser, f: Value -> Value)
    | MapRes(p: Parser, g: Value -> Option<Value>)
    | AndThen(p: Parser, select: Value -> nat, branches: seq<Parser>, otherwise: Parser)
    | Then(p: Parser, q: Parser)
    | ThenIgnore(p: Parser, q: Parser)
    | IgnoreThen(p: Parser, q: Parser)
    | Or(p: Parser, q: Parser)
    | Choice(ps: seq<Parser>)
    | Try(p: Parser)
    | Cut(p: Parser)
    | LookAhead(p: Parser)
    | Optional(p: Parser)
    | Many(p: Parser)
    | Many1(p: Parser)
    | SepBy(p: Parser, sep: Parser, allowTrailing: bool)
    | SepBy1(p: Parser, sep: Parser, allowTrailing: bool)
    | SkipMany(p: Parser)
    | SkipMany1(p: Parser)
    | Complete(p: Parser)

  /** An error is a cut error or an ordinary one; `Diverges` is a call that never returns. */
  datatype Result = Ok(value: Value, pos: nat) | Err(cut: bool) | Diverges

  function ToLower(c: char): char {
    if 'A' <= c <= 'Z' then (c as int + 32) as char else c
  }

  predicate StartsWithIgnoringCase(input: string, pos: nat, text: string) {
    pos + |text| <= |input| && forall i | 0 <= i < |text| :: ToLower(input[pos + i]) == ToLower(text[i])
  }

  function Next(input: string, pos: nat, accept: bool): Result {
    if pos < |input| && accept then Ok(Ch(input[pos]), pos + 1) else Err(false)
  }

  /** Characters between a position and the end of the input. */
  function Left(input: string, pos: nat): nat {
    if pos <= |input| then |input| - pos else 0
  }

  /** `parse`. A success never moves back, and never beyond the input unless it does not move at all. */
  function Run(p: Parser, input: string, pos: nat): (r: Result)
    ensures r.Ok? ==> r.pos == pos || pos < r.pos <= |input|
    decreases p, 3, 0
  {
    match p
    case Char(c) => Next(input, pos, pos < |input| && input[pos] == c)
    case Satisfy(test) => Next(input, pos, pos < |input| && test(input[pos]))
    case OneOf(chars) => Next(input, pos, pos < |input| && input[pos] in chars)
    case NoneOf(chars) => Next(input, pos, pos < |input| && input[pos] !in chars)
    case Literal(text) => if StartsWith(input, pos, text) then Ok(Str(text), pos + |text|) else Err(false)
    case Keyword(text) =>
      if StartsWithIgnoringCase(input, pos, text) then Ok(Str(input[pos..pos + |text|]), pos + |text|) else Err(false)
    case Eof => if pos >= |input| then Ok(Unit, pos) else Err(false)
    case AnyChar => Next(input, pos, true)
    case Success(v) => Ok(v, pos)
    case Fail => Err(false)
    case Map(p, f) =>
      var r := Run(p, input, pos);
      if r.Ok? then Ok(f(r.value), r.pos) else r
    case MapRes(p, g) =>
      var r := Run(p, input, pos);
      if !r.Ok? then r else if g(r.value).Some? then Ok(g(r.value).value, r.pos) else Err(false)
    case AndThen(p, select, branches, otherwise) =>
      var r := Run(p, input, pos);
      if !r.Ok? then r
      else if select(r.value) < |branches| then Run(branches[select(r.value)], input, r.pos)
      else Run(otherwise, input, r.pos)
    case Then(p, q) =>
      var r := Run(p, input, pos);
      if !r.Ok? then r
      else
        var r' := Run(q, input, r.pos);
        if r'.Ok? then Ok(Pair(r.value, r'.value), r'.pos) else r'
    case ThenIgnore(p, q) =>
      var r := Run(p, input, pos);
      if !r.Ok? then r
      else
        var r' := Run(q, input, r.pos);
        if r'.Ok? then Ok(r.value, r'.pos) else r'
    case IgnoreThen(p, q) =>
      var r := Run(p, input, pos);
      if !r.Ok? then r else Run(q, input, r.pos)
    case Or(p, q) =>
      var r := Run(p, input, pos);
      if r == Err(false) then Run(q, input, pos) else r
    case Choice(_) => RunChoice(p, 0, input, pos)
    case Try(p) => Run(p, input, pos)
    case Cut(p) =>
      var r := Run(p, input, pos);
      if r.Err? then Err(true) else r
    case LookAhead(p) =>
      var r := Run(p, input, pos);
      if r.Ok? then Ok(r.value, pos) else r
    case Optional(p) =>
      var r := Run(p, input, pos);
      if r.Ok? then Ok(Opt(Some(r.value)), r.pos) else if r == Err(false) then Ok(Opt(None), pos) else r
    case Many(_) => RunRepeat(p, input, pos)
    case Many1(_) => RunRepeat(p, input, pos)
    case SepBy(_, _, _) => RunRepeat(p, input, pos)
    case SepBy1(_, _, _) => RunRepeat(p, input, pos)
    case SkipMany(_) => RunRepeat(p, input, pos)
    case SkipMany1(_) => RunRepeat(p, input, pos)
    case Complete(p) =>
      var r := Run(p, input, pos);
      if r.Ok? && r.pos < |input| then Err(false) else r
  }

  predicate Repeats(p: Parser) {
    p.Many? || p.Many1? || p.SepBy? || p.SepBy1? || p.SkipMany? || p.SkipMany1?
  }

  /** The repeating parsers: the first element, where one is needed, and the loop. */
  function RunRepeat(p: Parser, input: string, pos: nat): (r: Result)
    requires Repeats(p)
    ensures r.Ok? ==> r.pos == pos || pos < r.pos <= |input|
    decreases p, 2, 0
  {
    match p
    case Many(p) => ManyLoop(p, input, pos, [])
    case Many1(p) =>
      var r := Run(p, input, pos);
      if r.Ok? then ManyLoop(p, input, r.pos, [r.value]) else r
    case SepBy(e, _, _) =>
      var r := Run(e, input, pos);
      if r.Ok? then SepLoop(p, input, r.pos, [r.value]) else if r == Err(false) then Ok(List([]), pos) else r
    case SepBy1(e, _, _) =>
      var r := Run(e, input, pos);
      if r.Ok? then SepLoop(p, input, r.pos, [r.value]) else r
    case SkipMany(p) => SkipLoop(p, input, pos)
    case SkipMany1(p) =>
      var r := Run(p, input, pos);
      if r.Ok? then SkipLoop(p, input, r.pos) else r
  }

  /** The alternatives of a choice from the `i`-th on. */
  function RunChoice(p: Parser, i: nat, input: string, pos: nat): (r: Result)
    requires p.Choice? && i <= |p.ps|
    ensures r.Ok? ==> r.pos == pos || pos < r.pos <= |input|
    decreases p, 1, |p.ps| - i
  {
    if i == |p.ps| then Err(false)
    else
      var r := Run(p.ps[i], input, pos);
      if r == Err(false) then RunChoice(p, i + 1, input, pos) else r
  }

  /** The loop of `Many` and `Many1` with the results so far; an empty match ends it. */
  function ManyLoop(p: Parser, input: string, pos: nat, acc: seq<Value>): (r: Result)
    ensures r.Ok? ==> r.pos == pos || pos < r.pos <= |input|
    decreases p, 4, Left(input, pos)
  {
    var r := Run(p, input, pos);
    if r.Ok? then if r.pos == pos then Ok(List(acc), pos) else ManyLoop(p, input, r.pos, acc + [r.value])
    else if r == Err(false) then Ok(List(acc), pos) else r
  }

  function SkipLoop(p: Parser, input: string, pos: nat): (r: Result)
    ensures r.Ok? ==> r.pos == pos || pos < r.pos <= |input|
    decreases p, 4, Left(input, pos)
  {
    var r := Run(p, input, pos);
    if r.Ok? then if r.pos == pos then Ok(Unit, pos) else SkipLoop(p, input, r.pos)
    else if r == Err(false) then Ok(Unit, pos) else r
  }

  /** The loop of `SepBy` and `SepBy1` after an element. A separator and an element that both match nothing bring the
      loop back to the same position with the same answers ahead, for ever. */
  function SepLoop(p: Parser, input: string, pos: nat, acc: seq<Value>): (r: Result)
    requires p.SepBy? || p.SepBy1?
    ensures r.Ok? ==> r.pos == pos || pos < r.pos <= |input|
    decreases p, 1, Left(input, pos)
  {
    var s := Run(p.sep, input, pos);
    if s == Err(false) then Ok(List(acc), pos)
    else if !s.Ok? then s
    else
      var e := Run(p.p, input, s.pos);
      if e.Ok? then if e.pos == pos then Diverges else SepLoop(p, input, e.pos, acc + [e.value])
      else if e == Err(false) then Ok(List(acc), if p.allowTrailing then pos else s.pos) else e
  }

  // ---------------------------------------------------------------------------------------------
  // The loops as written

  method RunMany(p: Parser, input: string, pos: nat) returns (r: Result)
    requires Run(Many(p), input, pos) != Diverges
    ensures r == Run(Many(p), input, pos)
  {
    ManyUnfolds(p, input, pos);
    hide Run;
    r := RepeatFrom(p, input, pos, []);
  }

  method RunMany1(p: Parser, input: string, pos: nat) returns (r: Result)
    requires Run(Many1(p), input, pos) != Diverges
    ensures r == Run(Many1(p), input, pos)
  {
    Many1Unfolds(p, input, pos);
    hide Run;
    var first := Run(p, input, pos);
    if !first.Ok? { return first; }
    r := RepeatFrom(p, input, first.pos, [first.value]);
  }

  method RepeatFrom(p: Parser, input: string, pos: nat, acc: seq<Value>) returns (r: Result)
    requires ManyLoop(p, input, pos, acc) != Diverges
    ensures r == ManyLoop(p, input, pos, acc)
  {
    var result, currentPos := acc, pos;
    while true
      invariant ManyLoop(p, input, currentPos, result) == ManyLoop(p, input, pos, acc)
      decreases Left(input, currentPos)
    {
      var step := Run(p, input, currentPos);
      if step.Ok? {
        if step.pos == currentPos { break; }
        result, currentPos := result + [step.value], step.pos;
      } else {
        if step.cut { return step; }
        break;
      }
    }
    return Ok(List(result), currentPos);
  }

  method RunSkipMany(p: Parser, input: string, pos: nat) returns (r: Result)
    requires Run(SkipMany(p), input, pos) != Diverges
    ensures r == Run(SkipMany(p), input, pos)
  {
    ManyUnfolds(p, input, pos);
    hide Run;
    r := SkipFrom(p, input, pos);
  }

  method RunSkipMany1(p: Parser, input: string, pos: nat) returns (r: Result)
    requires Run(SkipMany1(p), input, pos) != Diverges
    ensures r == Run(SkipMany1(p), input, pos)
  {
    SkipMany1Unfolds(p, input, pos);
    hide Run;
    var first := Run(p, input, pos);
    if !first.Ok? { return first; }
    r := SkipFrom(p, input, first.pos);
  }

  method SkipFrom(p: Parser, input: string, pos: nat) returns (r: Result)
    requires SkipLoop(p, input, pos) != Diverges
    ensures r == SkipLoop(p, input, pos)
  {
    var currentPos := pos;
    while true
      invariant SkipLoop(p, input, currentPos) == SkipLoop(p, input, pos)
      decreases Left(input, currentPos)
    {
      var step := Run(p, input, currentPos);
      if step.Ok? {
        if step.pos == currentPos { break; }
        currentPos := step.pos;
      } else {
        if step.cut { return step; }
        break;
      }
    }
    return Ok(Unit, currentPos);
  }

  method RunSepBy(p: Parser, input: string, pos: nat) returns (r: Result)
    requires p.SepBy? || p.SepBy1?
    requires Run(p, input, pos) != Diverges
    ensures r == Run(p, input, pos)
  {
    RunIsRepeat(p, input, pos);
    hide Run;
    var first := Run(p.p, input, pos);
    if first.Err? && !first.cut && p.SepBy? { return Ok(List([]), pos); }
    if first.Err? { return first; }
    var result, currentPos := [first.value], first.pos;
    while true
      invariant SepLoop(p, input, currentPos, result) == Run(p, input, pos)
      decreases Left(input, currentPos)
    {
      var sepPos := currentPos;
      var s := Run(p.sep, input, currentPos);
      if s.Err? {
        if s.cut { return s; }
        break;
      }
      currentPos := s.pos;
      var e := Run(p.p, input, currentPos);
      if e.Err? {
        if e.cut { return e; }
        if p.allowTrailing { currentPos := sepPos; }
        return Ok(List(result), currentPos);
      }
      result, currentPos := result + [e.value], e.pos;
    }
    return Ok(List(result), currentPos);
  }

  // ---------------------------------------------------------------------------------------------
  // Termination

  /** Can the parser succeed without consuming anything? An upper bound read off the term. */
  predicate MayBeEmpty(p: Parser) {
    match p
    case Char(_) => false
    case Satisfy(_) => false
    case OneOf(_) => false
    case NoneOf(_) => false
    case Literal(text) => text == ""
    case Keyword(text) => text == ""
    case Eof => true
    case AnyChar => false
    case Success(_) => true
    case Fail => false
    case Map(p, _) => MayBeEmpty(p)
    case MapRes(p, _) => MayBeEmpty(p)
    case AndThen(p, _, branches, otherwise) =>
      MayBeEmpty(p) && (MayBeEmpty(otherwise) || exists i | 0 <= i < |branches| :: MayBeEmpty(branches[i]))
    case Then(p, q) => MayBeEmpty(p) && MayBeEmpty(q)
    case ThenIgnore(p, q) => MayBeEmpty(p) && MayBeEmpty(q)
    case IgnoreThen(p, q) => MayBeEmpty(p) && MayBeEmpty(q)
    case Or(p, q) => MayBeEmpty(p) || MayBeEmpty(q)
    case Choice(ps) => exists i | 0 <= i < |ps| :: MayBeEmpty(ps[i])
    case Try(p) => MayBeEmpty(p)
    case Cut(p) => MayBeEmpty(p)
    case LookAhead(_) => true
    case Optional(_) => true
    case Many(_) => true
    case Many1(p) => MayBeEmpty(p)
    case SepBy(_, _, _) => true
    case SepBy1(p, _, _) => MayBeEmpty(p)
    case SkipMany(_) => true
    case SkipMany1(p) => MayBeEmpty(p)
    case Complete(p) => MayBeEmpty(p)
  }

  lemma {:induction false} EmptyMatchesFlagged(p: Parser, input: string, pos: nat)
    requires Run(p, input, pos).Ok? && Run(p, input, pos).pos == pos
    ensures MayBeEmpty(p)
    decreases p, 2, 0
  {
    match p
    case Map(p, _) => EmptyMatchesFlagged(p, input, pos);
    case MapRes(p, _) => EmptyMatchesFlagged(p, input, pos);
    case AndThen(p, select, branches, otherwise) =>
      EmptyMatchesFlagged(p, input, pos);
      var k := select(Run(p, input, pos).value);
      EmptyMatchesFlagged(if k < |branches| then branches[k] else otherwise, input, pos);
    case Then(p, q) => EmptyMatchesFlagged(p, input, pos); EmptyMatchesFlagged(q, input, pos);
    case ThenIgnore(p, q) => EmptyMatchesFlagged(p, input, pos); EmptyMatchesFlagged(q, input, pos);
    case IgnoreThen(p, q) => EmptyMatchesFlagged(p, input, pos); EmptyMatchesFlagged(q, input, pos);
    case Or(p, q) =>
      if Run(p, input, pos).Ok? { EmptyMatchesFlagged(p, input, pos); } else { EmptyMatchesFlagged(q, input, pos); }
    case Choice(_) => EmptyChoiceFlagged(p, 0, input, pos);
    case Try(p) => EmptyMatchesFlagged(p, input, pos);
    case Cut(p) => EmptyMatchesFlagged(p, input, pos);
    case Many1(p) => EmptyMatchesFlagged(p, input, pos);
    case SepBy1(p, _, _) => EmptyMatchesFlagged(p, input, pos);
    case SkipMany1(p) => EmptyMatchesFlagged(p, input, pos);
    case Complete(p) => EmptyMatchesFlagged(p, input, pos);
    case _ =>
  }

  lemma {:induction false} EmptyChoiceFlagged(p: Parser, i: nat, input: string, pos: nat)
    requires p.Choice? && i <= |p.ps|
    requires RunChoice(p, i, input, pos).Ok? && RunChoice(p, i, input, pos).pos == pos
    ensures MayBeEmpty(p)
    decreases p, 1, |p.ps| - i
  {
    if i < |p.ps| {
      if Run(p.ps[i], input, pos).Ok? {
        EmptyMatchesFlagged(p.ps[i], input, pos);
      } else {
        EmptyChoiceFlagged(p, i + 1, input, pos);
      }
    }
  }

  /** The parsers a term is built from. */
  function Children(p: Parser): (cs: seq<Parser>)
    ensures forall i | 0 <= i < |cs| :: cs[i] < p
  {
    match p
    case Map(p, _) => [p]
    case MapRes(p, _) => [p]
    case AndThen(p, _, branches, otherwise) => [p, otherwise] + branches
    case Then(p, q) => [p, q]
    case ThenIgnore(p, q) => [p, q]
    case IgnoreThen(p, q) => [p, q]
    case Or(p, q) => [p, q]
    case Choice(ps) => ps
    case Try(p) => [p]
    case Cut(p) => [p]
    case LookAhead(p) => [p]
    case Optional(p) => [p]
    case Many(p) => [p]
    case Many1(p) => [p]
    case SepBy(p, sep, _) => [p, sep]
    case SepBy1(p, sep, _) => [p, sep]
    case SkipMany(p) => [p]
    case SkipMany1(p) => [p]
    case Complete(p) => [p]
    case _ => []
  }

  predicate Separates(p: Parser) {
    p.SepBy? || p.SepBy1?
  }

  /** Element and separator both match nothing here. */
  predicate Stuck(e: Parser, sep: Parser, input: string, at: nat) {
    && Run(sep, input, at).Ok? && Run(sep, input, at).pos == at
    && Run(e, input, at).Ok? && Run(e, input, at).pos == at
  }

  ghost predicate Returns(p: Parser, input: string) {
    forall pos: nat :: !Run(p, input, pos).Diverges?
  }

  /** The term and every term inside it return on the input, from every position. */
  ghost predicate AllReturn(p: Parser, input: string) {
    Returns(p, input) && forall i | 0 <= i < |Children(p)| :: AllReturn(Children(p)[i], input)
  }

  /** No separated list inside the term has an element and a separator that both match nothing somewhere. */
  ghost predicate NeverStuck(p: Parser, input: string) {
    && (Separates(p) ==> forall at: nat :: !Stuck(p.p, p.sep, input, at))
    && forall i | 0 <= i < |Children(p)| :: NeverStuck(Children(p)[i], input)
  }

  /** No separated list inside the term has an element and a separator that both may match nothing, as far as the term
      tells. */
  predicate Productive(p: Parser) {
    && (Separates(p) ==> !(MayBeEmpty(p.p) && MayBeEmpty(p.sep)))
    && forall i | 0 <= i < |Children(p)| :: Productive(Children(p)[i])
  }

  lemma ReturnsAt(p: Parser, input: string, pos: nat)
    requires Returns(p, input)
    ensures !Run(p, input, pos).Diverges?
  {
  }

  lemma {:induction false} ManyLoopReturns(p: Parser, input: string, pos: nat, acc: seq<Value>)
    requires Returns(p, input)
    ensures !ManyLoop(p, input, pos, acc).Diverges?
    decreases Left(input, pos)
  {
    hide Run, Returns;
    ReturnsAt(p, input, pos);
    var r := Run(p, input, pos);
    if r.Ok? && r.pos != pos { ManyLoopReturns(p, input, r.pos, acc + [r.value]); }
  }

  lemma SkipLoopReturns(p: Parser, input: string, pos: nat)
    requires Returns(p, input)
    ensures !SkipLoop(p, input, pos).Diverges?
  {
    ManyLoopReturns(p, input, pos, []);
    SkipForgets(p, input, pos, []);
  }

  lemma {:induction false} ChoiceReturns(p: Parser, i: nat, input: string, pos: nat)
    requires p.Choice? && i <= |p.ps| && forall k | 0 <= k < |p.ps| :: Returns(p.ps[k], input)
    ensures !RunChoice(p, i, input, pos).Diverges?
    decreases |p.ps| - i
  {
    hide Run, Returns;
    if i < |p.ps| {
      ReturnsAt(p.ps[i], input, pos);
      ChoiceReturns(p, i + 1, input, pos);
    }
  }

  lemma {:induction false} SepLoopReturns(p: Parser, input: string, pos: nat, acc: seq<Value>)
    requires Separates(p) && Returns(p.p, input) && Returns(p.sep, input)
    requires forall at: nat :: !Stuck(p.p, p.sep, input, at)
    ensures !SepLoop(p, input, pos, acc).Diverges?
    decreases Left(input, pos)
  {
    hide Run, Returns;
    ReturnsAt(p.sep, input, pos);
    var s := Run(p.sep, input, pos);
    if s.Ok? {
      ReturnsAt(p.p, input, s.pos);
      var e := Run(p.p, input, s.pos);
      if e.Ok? {
        assert e.pos == pos ==> Stuck(p.p, p.sep, input, pos);
        if e.pos != pos { SepLoopReturns(p, input, e.pos, acc + [e.value]); }
      }
    }
  }

  lemma RepeatReturns(p: Parser, input: string, pos: nat)
    requires Repeats(p) && Returns(p.p, input)
    requires Separates(p) ==> Returns(p.sep, input) && forall at: nat :: !Stuck(p.p, p.sep, input, at)
    ensures !RunRepeat(p, input, pos).Diverges?
  {
    hide Run, Returns, ManyLoop, SkipLoop, SepLoop;
    ReturnsAt(p.p, input, pos);
    var r := Run(p.p, input, pos);
    var start := if r.Ok? then r.pos else pos;
    match p
    case Many(e) => ManyLoopReturns(e, input, pos, []);
    case Many1(e) => if r.Ok? { ManyLoopReturns(e, input, r.pos, [r.value]); }
    case SepBy(_, _, _) => if r.Ok? { SepLoopReturns(p, input, r.pos, [r.value]); }
    case SepBy1(_, _, _) => if r.Ok? { SepLoopReturns(p, input, r.pos, [r.value]); }
    case SkipMany(e) => SkipLoopReturns(e, input, pos);
    case SkipMany1(e) => if r.Ok? { SkipLoopReturns(e, input, r.pos); }
  }

  lemma ThenReturns(p: Parser, q: Parser, input: string, pos: nat)
    requires Returns(p, input) && Returns(q, input)
    ensures !Run(p, input, pos).Diverges?
    ensures Run(p, input, pos).Ok? ==> !Run(q, input, Run(p, input, pos).pos).Diverges?
  {
    hide Run;
  }

  predicate Wraps(p: Parser) {
    p.Map? || p.MapRes? || p.Try? || p.Cut? || p.LookAhead? || p.Optional? || p.Complete?
  }

  predicate Pairs(p: Parser) {
    p.Then? || p.ThenIgnore? || p.IgnoreThen? || p.Or?
  }

  lemma WrapReturns(p: Parser, input: string, pos: nat)
    requires Wraps(p) && Returns(p.p, input)
    ensures !Run(p, input, pos).Diverges?
  {
    ReturnsAt(p.p, input, pos);
    hide Returns;
  }

  lemma PairReturns(p: Parser, input: string, pos: nat)
    requires Pairs(p) && Returns(p.p, input) && Returns(p.q, input)
    ensures !Run(p, input, pos).Diverges?
  {
    ThenReturns(p.p, p.q, input, pos);
    ReturnsAt(p.q, input, pos);
    hide Returns;
  }

  lemma AndThenReturns(p: Parser, input: string, pos: nat)
    requires p.AndThen? && Returns(p.p, input) && Returns(p.otherwise, input)
    requires forall i | 0 <= i < |p.branches| :: Returns(p.branches[i], input)
    ensures !Run(p, input, pos).Diverges?
  {
    ReturnsAt(p.p, input, pos);
    var r := Run(p.p, input, pos);
    if r.Ok? {
      var k := p.select(r.value);
      ReturnsAt(if k < |p.branches| then p.branches[k] else p.otherwise, input, r.pos);
    }
    hide Returns;
  }

  /** A term returns when the terms it is built from do and, for a separated list, never both match nothing. */
  lemma TermReturns(p: Parser, input: string, pos: nat)
    requires forall i | 0 <= i < |Children(p)| :: Returns(Children(p)[i], input)
    requires Separates(p) ==> forall at: nat :: !Stuck(p.p, p.sep, input, at)
    ensures !Run(p, input, pos).Diverges?
  {
    var cs := Children(p);
    assert |cs| > 0 ==> Returns(cs[0], input);
    assert |cs| > 1 ==> Returns(cs[1], input);
    if Wraps(p) {
      hide Run;
      WrapReturns(p, input, pos);
    } else if Pairs(p) {
      hide Run;
      PairReturns(p, input, pos);
    } else if Repeats(p) {
      hide Run, Stuck;
      RepeatReturns(p, input, pos);
      RunIsRepeat(p, input, pos);
    } else if p.AndThen? {
      hide Run;
      forall i | 0 <= i < |p.branches| ensures Returns(p.branches[i], input) { assert cs[i + 2] == p.branches[i]; }
      AndThenReturns(p, input, pos);
    } else if p.Choice? {
      hide Run, RunChoice;
      ChoiceReturns(p, 0, input, pos);
      RunIsChoice(p, input, pos);
    } else {
      AtomReturns(p, input, pos);
    }
  }

  lemma RunIsChoice(p: Parser, input: string, pos: nat)
    requires p.Choice?
    ensures Run(p, input, pos) == RunChoice(p, 0, input, pos)
  {
    hide RunChoice;
  }

  lemma AtomReturns(p: Parser, input: string, pos: nat)
    requires !Wraps(p) && !Pairs(p) && !Repeats(p) && !p.AndThen? && !p.Choice?
    ensures !Run(p, input, pos).Diverges?
  {
  }

  /** Where both match nothing the list never comes back. */
  lemma StuckDiverges(p: Parser, input: string, at: nat)
    requires Separates(p) && Stuck(p.p, p.sep, input, at)
    ensures Run(p, input, at).Diverges?
  {
    RunIsRepeat(p, input, at);
    hide Run;
  }

  /** A separated list of parts that return returns from every position exactly when they never both match nothing. */
  lemma SepReturnsExactly(p: Parser, input: string)
    requires Separates(p) && Returns(p.p, input) && Returns(p.sep, input)
    ensures Returns(p, input) <==> forall at: nat :: !Stuck(p.p, p.sep, input, at)
  {
    if forall at: nat :: !Stuck(p.p, p.sep, input, at) {
      forall pos: nat ensures !Run(p, input, pos).Diverges? { TermReturns(p, input, pos); }
    } else {
      var at: nat :| Stuck(p.p, p.sep, input, at);
      StuckDiverges(p, input, at);
    }
  }

  /** A term and all terms inside it return on an input, from every position, exactly when no separated list inside
      has an element and a separator that both match nothing somewhere in it. */
  lemma {:induction false} ReturnsExactly(p: Parser, input: string)
    ensures AllReturn(p, input) <==> NeverStuck(p, input)
    decreases p
  {
    hide Run, Children, Stuck;
    forall i | 0 <= i < |Children(p)| ensures AllReturn(Children(p)[i], input) <==> NeverStuck(Children(p)[i], input) {
      ReturnsExactly(Children(p)[i], input);
    }
    if Separates(p) { PartsOfList(p); }
    if forall i | 0 <= i < |Children(p)| :: AllReturn(Children(p)[i], input) {
      if Separates(p) {
        SepReturnsExactly(p, input);
      } else {
        forall pos: nat ensures !Run(p, input, pos).Diverges? { TermReturns(p, input, pos); }
      }
    }
  }

  lemma PartsOfList(p: Parser)
    requires Separates(p)
    ensures |Children(p)| == 2 && Children(p)[0] == p.p && Children(p)[1] == p.sep
  {
  }

  /** So a term without such a list returns. */
  lemma Terminates(p: Parser, input: string, pos: nat)
    requires NeverStuck(p, input)
    ensures !Run(p, input, pos).Diverges?
  {
    ReturnsExactly(p, input);
    hide Run;
  }

  /** The test that reads the term is enough, on every input. */
  lemma {:induction false} ProductiveNeverStuck(p: Parser, input: string)
    requires Productive(p)
    ensures NeverStuck(p, input)
    decreases p
  {
    hide Run, Children;
    forall i | 0 <= i < |Children(p)| ensures NeverStuck(Children(p)[i], input) {
      ProductiveNeverStuck(Children(p)[i], input);
    }
    if Separates(p) {
      forall at: nat ensures !Stuck(p.p, p.sep, input, at) {
        if Stuck(p.p, p.sep, input, at) {
          EmptyMatchesFlagged(p.p, input, at);
          EmptyMatchesFlagged(p.sep, input, at);
        }
      }
    }
  }

  lemma ManyRuns(p: Parser, input: string, pos: nat)
    requires Run(p, input, pos) == Err(false)
    ensures Run(Many(p), input, pos) == Ok(List([]), pos)
  {
    hide Run;
    ManyUnfolds(p, input, pos);
  }

  lemma OptionalRuns(p: Parser, input: string, pos: nat)
    requires Run(p, input, pos) == Err(false)
    ensures Run(Optional(p), input, pos) == Ok(Opt(None), pos)
  {
  }

  /** A list of `a*` separated by an optional comma never comes back from the empty input. */
  lemma DivergingExample()
    ensures Run(SepBy(Many(Char('a')), Optional(Char(',')), false), "", 0).Diverges?
  {
    CharRuns('a', "", 0);
    CharRuns(',', "", 0);
    hide Run;
    ManyRuns(Char('a'), "", 0);
    OptionalRuns(Char(','), "", 0);
    StuckDiverges(SepBy(Many(Char('a')), Optional(Char(',')), false), "", 0);
  }

  function NonEmpty(v: Value): Option<Value> {
    if v == List([]) then None else Some(v)
  }

  /** A list that the reading of the term does not clear, though it returns on every input: its element is `a*` with the
      empty result turned into an error. */
  lemma ClearedByRunning(input: string)
    ensures var p := SepBy(MapRes(Many(Char('a')), NonEmpty), Optional(Char(',')), false);
            !Productive(p) && NeverStuck(p, input)
  {
    var e, sep := MapRes(Many(Char('a')), NonEmpty), Optional(Char(','));
    var p := SepBy(e, sep, false);
    BothFlagged(Char('a'), Char(','));
    forall at: nat ensures !Stuck(e, sep, input, at) { SomeAs(input, at); }
    OneChild(Many(Char('a')), Char('a'), input);
    OneChild(e, Many(Char('a')), input);
    OneChild(sep, Char(','), input);
    PartsOfList(p);
    hide Run, Children, Stuck, MayBeEmpty;
  }

  lemma BothFlagged(p: Parser, q: Parser)
    ensures MayBeEmpty(MapRes(Many(p), NonEmpty)) && MayBeEmpty(Optional(q))
  {
    assert MayBeEmpty(Many(p));
  }

  lemma OneChild(p: Parser, q: Parser, input: string)
    requires Children(p) == [q] && !Separates(p) && (NeverStuck(q, input) || Children(q) == [])
    ensures NeverStuck(p, input)
  {
    hide Run;
  }

  lemma SomeAs(input: string, at: nat)
    ensures var r := Run(MapRes(Many(Char('a')), NonEmpty), input, at); r.Ok? ==> r.pos != at
  {
    CharRuns('a', input, at);
    ManyUnfolds(Char('a'), input, at);
    RepeatUnfolds(Char('a'), input, at, []);
    hide ManyLoop;
    var r := Run(Char('a'), input, at);
    if r.Ok? {
      LoopMoves(Char('a'), input, r.pos, [] + [r.value]);
    }
  }

  lemma LoopMoves(p: Parser, input: string, pos: nat, acc: seq<Value>)
    ensures ManyLoop(p, input, pos, acc).Ok? ==> ManyLoop(p, input, pos, acc).pos >= pos
  {
  }

  /** The loop of a separated list for at most `n` rounds, exactly as written; `None` when it is still running. */
  function SepRounds(p: Parser, input: string, pos: nat, acc: seq<Value>, n: nat): Option<Result>
    requires p.SepBy? || p.SepBy1?
    decreases n
  {
    if n == 0 then None
    else
      var s := Run(p.sep, input, pos);
      if s == Err(false) then Some(Ok(List(acc), pos))
      else if !s.Ok? then Some(s)
      else
        var e := Run(p.p, input, s.pos);
        if e.Ok? then SepRounds(p, input, e.pos, acc + [e.value], n - 1)
        else if e == Err(false) then Some(Ok(List(acc), if p.allowTrailing then pos else s.pos)) else Some(e)
  }

  /** `SepLoop` calls a loop divergent exactly when the loop as written, with element and separator that return, is
      still running after every number of rounds; otherwise it gives the loop's answer. */
  lemma {:induction false} SepLoopFaithful(p: Parser, input: string, pos: nat, acc: seq<Value>)
    requires p.SepBy? || p.SepBy1?
    requires forall at: nat :: !Run(p.p, input, at).Diverges? && !Run(p.sep, input, at).Diverges?
    ensures var r := SepLoop(p, input, pos, acc);
            if r.Diverges? then forall n: nat :: SepRounds(p, input, pos, acc, n) == None
            else exists n: nat :: SepRounds(p, input, pos, acc, n) == Some(r)
    decreases Left(input, pos)
  {
    hide Run;
    var s := Run(p.sep, input, pos);
    var r := SepLoop(p, input, pos, acc);
    if s.Ok? && Run(p.p, input, s.pos).Ok? {
      var e := Run(p.p, input, s.pos);
      if e.pos == pos {
        forall n: nat ensures SepRounds(p, input, pos, acc, n) == None { StuckForever(p, input, pos, acc, n); }
      } else {
        SepLoopFaithful(p, input, e.pos, acc + [e.value]);
        if r.Diverges? {
          forall n: nat ensures SepRounds(p, input, pos, acc, n) == None {
            assert n > 0 ==> SepRounds(p, input, e.pos, acc + [e.value], n - 1) == None;
          }
        } else {
          var n: nat :| SepRounds(p, input, e.pos, acc + [e.value], n) == Some(r);
          assert SepRounds(p, input, pos, acc, n + 1) == Some(r);
        }
      }
    } else {
      assert SepRounds(p, input, pos, acc, 1) == Some(r);
    }
  }

  lemma {:induction false} StuckForever(p: Parser, input: string, pos: nat, acc: seq<Value>, n: nat)
    requires p.SepBy? || p.SepBy1?
    requires Run(p.sep, input, pos).Ok? && Run(p.sep, input, pos).pos == pos
    requires Run(p.p, input, pos).Ok? && Run(p.p, input, pos).pos == pos
    ensures SepRounds(p, input, pos, acc, n) == None
    decreases n
  {
    hide Run;
    if n > 0 { StuckForever(p, input, pos, acc + [Run(p.p, input, pos).value], n - 1); }
  }

  // ---------------------------------------------------------------------------------------------
  // Laws

  /** The result with its value forgotten. */
  function Forget(r: Result): Result {
    if r.Ok? then Ok(Unit, r.pos) else r
  }

  /** The result with values put in front of the list it carries. */
  function Prepend(acc: seq<Value>, r: Result): Result {
    if r.Ok? && r.value.List? then Ok(List(acc + r.value.items), r.pos) else r
  }

  lemma PrependTwice(a: seq<Value>, b: seq<Value>, r: Result)
    ensures Prepend(a + b, r) == Prepend(a, Prepend(b, r))
  {
    if r.Ok? && r.value.List? { assert a + b + r.value.items == a + (b + r.value.items); }
  }

  lemma RepeatUnfolds(p: Parser, input: string, pos: nat, acc: seq<Value>)
    ensures var r := Run(p, input, pos);
            ManyLoop(p, input, pos, acc) ==
            if r.Ok? && r.pos != pos then ManyLoop(p, input, r.pos, acc + [r.value])
            else if r.Ok? || r == Err(false) then Ok(List(acc), pos) else r
  {
    hide Run;
  }

  lemma {:induction false} RepeatAppends(p: Parser, input: string, pos: nat, acc: seq<Value>)
    ensures ManyLoop(p, input, pos, acc) == Prepend(acc, ManyLoop(p, input, pos, []))
    decreases Left(input, pos)
  {
    hide Run, ManyLoop;
    var r := Run(p, input, pos);
    assert acc + [] == acc;
    RepeatUnfolds(p, input, pos, acc);
    RepeatUnfolds(p, input, pos, []);
    if r.Ok? && r.pos != pos {
      RepeatAppends(p, input, r.pos, acc + [r.value]);
      RepeatAppends(p, input, r.pos, [r.value]);
      assert [] + [r.value] == [r.value];
      hide Prepend;
      PrependTwice(acc, [r.value], ManyLoop(p, input, r.pos, []));
    }
  }

  lemma {:induction false} SkipForgets(p: Parser, input: string, pos: nat, acc: seq<Value>)
    ensures SkipLoop(p, input, pos) == Forget(ManyLoop(p, input, pos, acc))
    decreases Left(input, pos)
  {
    hide Run;
    var r := Run(p, input, pos);
    if r.Ok? && r.pos != pos { SkipForgets(p, input, r.pos, acc + [r.value]); }
  }

  lemma RunIsRepeat(p: Parser, input: string, pos: nat)
    requires Repeats(p)
    ensures Run(p, input, pos) == RunRepeat(p, input, pos)
  {
    hide RunRepeat;
  }

  lemma ManyUnfolds(p: Parser, input: string, pos: nat)
    ensures Run(Many(p), input, pos) == ManyLoop(p, input, pos, [])
    ensures Run(SkipMany(p), input, pos) == SkipLoop(p, input, pos)
  {
    hide Run, ManyLoop, SkipLoop;
    RunIsRepeat(Many(p), input, pos);
    RunIsRepeat(SkipMany(p), input, pos);
  }

  lemma Many1Unfolds(p: Parser, input: string, pos: nat)
    ensures var r := Run(p, input, pos);
            Run(Many1(p), input, pos) == if r.Ok? then ManyLoop(p, input, r.pos, [r.value]) else r
  {
    hide Run, ManyLoop;
    RunIsRepeat(Many1(p), input, pos);
  }

  lemma SkipMany1Unfolds(p: Parser, input: string, pos: nat)
    ensures var r := Run(p, input, pos);
            Run(SkipMany1(p), input, pos) == if r.Ok? then SkipLoop(p, input, r.pos) else r
  {
    hide Run, SkipLoop;
    RunIsRepeat(SkipMany1(p), input, pos);
  }

  /** `many1` is the parser followed by `many` of it. */
  lemma Many1Law(p: Parser, input: string, pos: nat)
    ensures Run(Many1(p), input, pos) ==
            var r := Run(p, input, pos); if r.Ok? then Prepend([r.value], Run(Many(p), input, r.pos)) else r
  {
    hide Run, ManyLoop, SkipLoop, Prepend;
    var r := Run(p, input, pos);
    Many1Unfolds(p, input, pos);
    if r.Ok? {
      ManyUnfolds(p, input, r.pos);
      RepeatAppends(p, input, r.pos, [r.value]);
    }
  }

  /** The skipping repetitions are the collecting ones with the results forgotten. */
  lemma SkipLaw(p: Parser, input: string, pos: nat)
    ensures Run(SkipMany(p), input, pos) == Forget(Run(Many(p), input, pos))
    ensures Run(SkipMany1(p), input, pos) == Forget(Run(Many1(p), input, pos))
  {
    hide Run, ManyLoop, SkipLoop;
    ManyUnfolds(p, input, pos);
    Many1Unfolds(p, input, pos);
    SkipMany1Unfolds(p, input, pos);
    SkipForgets(p, input, pos, []);
    var r := Run(p, input, pos);
    if r.Ok? { SkipForgets(p, input, r.pos, [r.value]); }
  }

  /** `many` stops only where the parser fails or matches nothing. */
  lemma {:induction false} ManyIsGreedy(p: Parser, input: string, pos: nat, acc: seq<Value>)
    requires ManyLoop(p, input, pos, acc).Ok?
    ensures var end := ManyLoop(p, input, pos, acc).pos; var r := Run(p, input, end);
            r == Err(false) || (r.Ok? && r.pos == end)
    decreases Left(input, pos)
  {
    hide Run;
    var r := Run(p, input, pos);
    if r.Ok? && r.pos != pos { ManyIsGreedy(p, input, r.pos, acc + [r.value]); }
  }

  lemma {:induction false} SepLoopSame(e: Parser, sep: Parser, trailing: bool, input: string, pos: nat, acc: seq<Value>)
    ensures SepLoop(SepBy(e, sep, trailing), input, pos, acc) == SepLoop(SepBy1(e, sep, trailing), input, pos, acc)
    decreases Left(input, pos)
  {
    hide Run;
    var s := Run(sep, input, pos);
    if s.Ok? {
      var r := Run(e, input, s.pos);
      if r.Ok? && r.pos != pos { SepLoopSame(e, sep, trailing, input, r.pos, acc + [r.value]); }
    }
  }

  /** `sep_by` is `sep_by1`, or the empty list where no element matches; cut errors are kept. */
  lemma SepByLaw(e: Parser, sep: Parser, trailing: bool, input: string, pos: nat)
    ensures Run(SepBy(e, sep, trailing), input, pos) ==
            if Run(e, input, pos) == Err(false) then Ok(List([]), pos) else Run(SepBy1(e, sep, trailing), input, pos)
  {
    hide Run, SepLoop;
    RunIsRepeat(SepBy(e, sep, trailing), input, pos);
    RunIsRepeat(SepBy1(e, sep, trailing), input, pos);
    var r := Run(e, input, pos);
    if r.Ok? { SepLoopSame(e, sep, trailing, input, r.pos, [r.value]); }
  }

  /** The trailing flag gives back a separator no element follows: with the flag the list stops before it, without the
      flag it is consumed. Values and errors do not depend on the flag. */
  lemma {:induction false} TrailingFlag(e: Parser, sep: Parser, input: string, pos: nat, acc: seq<Value>)
    ensures var kept := SepLoop(SepBy1(e, sep, true), input, pos, acc);
            var eaten := SepLoop(SepBy1(e, sep, false), input, pos, acc);
            if kept.Ok?
            then eaten.Ok? && eaten.value == kept.value
                 && (eaten.pos == kept.pos
                     || (Run(sep, input, kept.pos).Ok? && Run(sep, input, kept.pos).pos == eaten.pos
                         && Run(e, input, eaten.pos) == Err(false)))
            else eaten == kept
    decreases Left(input, pos)
  {
    hide Run;
    var s := Run(sep, input, pos);
    if s.Ok? {
      var r := Run(e, input, s.pos);
      if r.Ok? && r.pos != pos { TrailingFlag(e, sep, input, r.pos, acc + [r.value]); }
    }
  }

  /** So on "a," the list that does not allow a trailing separator consumes it, and the one that allows it does not. */
  lemma TrailingExample()
    ensures var e, sep := Char('a'), Char(',');
            && Run(SepBy(e, sep, false), "a,", 0) == Ok(List([Ch('a')]), 2)
            && Run(SepBy(e, sep, true), "a,", 0) == Ok(List([Ch('a')]), 1)
  {
    CharRuns('a', "a,", 0);
    CharRuns(',', "a,", 1);
    CharRuns('a', "a,", 2);
    hide Run;
    RunIsRepeat(SepBy(Char('a'), Char(','), false), "a,", 0);
    RunIsRepeat(SepBy(Char('a'), Char(','), true), "a,", 0);
  }

  lemma CharRuns(c: char, input: string, pos: nat)
    ensures Run(Char(c), input, pos) == Next(input, pos, pos < |input| && input[pos] == c)
  {
  }
}
