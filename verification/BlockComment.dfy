/** `block_comment`: the depth-counting loop against the recursive grammar of nested comments. */
module BlockComment {
  import opened Prelude

  /** The inside of a comment: characters and nested comments. */
  datatype Body = Empty | Plain(c: char, rest: Body) | Nested(inner: Body, rest: Body)

  function Render(open: string, close: string, b: Body): string {
    match b
    case Empty => ""
    case Plain(c, rest) => [c] + Render(open, close, rest)
    case Nested(inner, rest) => open + Render(open, close, inner) + close + Render(open, close, rest)
  }

  /** The recursive reading from just after an opening delimiter, tokens taken greedily from the left with the opening
      delimiter first: the body, and the position after the delimiter that closes it. */
  function ReadBody(input: string, open: string, close: string, pos: nat): (r: Option<(Body, nat)>)
    requires open != "" && pos <= |input|
    ensures r.Some? ==> pos <= r.value.1 <= |input|
    decreases |input| - pos
  {
    if pos == |input| then None
    else if StartsWith(input, pos, open) then
      match ReadBody(input, open, close, pos + |open|)
      case None => None
      case Some((inner, p)) =>
        match ReadBody(input, open, close, p)
        case None => None
        case Some((rest, q)) => Some((Nested(inner, rest), q))
    else if StartsWith(input, pos, close) then Some((Empty, pos + |close|))
    else
      match ReadBody(input, open, close, pos + 1)
      case None => None
      case Some((rest, q)) => Some((Plain(input[pos], rest), q))
  }

  /** Closing `depth` comments one after the other. */
  function CloseAll(input: string, open: string, close: string, pos: nat, depth: nat): (r: Option<nat>)
    requires open != "" && pos <= |input|
    decreases depth
  {
    if depth == 0 then Some(pos)
    else
      match ReadBody(input, open, close, pos)
      case None => None
      case Some((_, p)) => CloseAll(input, open, close, p, depth - 1)
  }

  lemma Cut(s: string, a: nat, b: nat, c: nat)
    requires a <= b <= c <= |s|
    ensures s[a..c] == s[a..b] + s[b..c]
  {
  }

  lemma Glue(s: string, a: nat, b: nat, c: nat, d: nat, e: nat, w: string, x: string, y: string, z: string)
    requires a <= b <= c <= d <= e <= |s|
    requires s[a..b] == w && s[b..c] == x && s[c..d] == y && s[d..e] == z
    ensures s[a..e] == w + x + y + z
  {
    Cut(s, a, d, e);
    Cut(s, a, c, d);
    Cut(s, a, b, c);
  }

  lemma StartText(input: string, pos: nat, text: string)
    requires StartsWith(input, pos, text)
    ensures pos + |text| <= |input| && input[pos..pos + |text|] == text
  {
  }

  /** The accepted content is what the body prints, and the closing delimiter follows it. */
  ghost predicate Closes(input: string, open: string, close: string, pos: nat, b: Body, end: nat) {
    && pos + |close| <= end <= |input|
    && input[pos..end - |close|] == Render(open, close, b) && input[end - |close|..end] == close
  }

  lemma NestedCloses(input: string, open: string, close: string, pos: nat, inner: Body, p: nat, rest: Body, end: nat)
    requires StartsWith(input, pos, open) && Closes(input, open, close, pos + |open|, inner, p)
    requires Closes(input, open, close, p, rest, end)
    ensures Closes(input, open, close, pos, Nested(inner, rest), end)
  {
    StartText(input, pos, open);
    Glue(input, pos, pos + |open|, p - |close|, p, end - |close|,
         open, Render(open, close, inner), close, Render(open, close, rest));
  }

  lemma PlainCloses(input: string, open: string, close: string, pos: nat, rest: Body, end: nat)
    requires pos < |input| && Closes(input, open, close, pos + 1, rest, end)
    ensures Closes(input, open, close, pos, Plain(input[pos], rest), end)
  {
    Cut(input, pos, pos + 1, end - |close|);
    assert input[pos..pos + 1] == [input[pos]];
  }

  lemma {:induction false} BodyCloses(input: string, open: string, close: string, pos: nat)
    requires open != "" && pos <= |input| && ReadBody(input, open, close, pos).Some?
    ensures var r := ReadBody(input, open, close, pos).value; Closes(input, open, close, pos, r.0, r.1)
    decreases |input| - pos
  {
    if StartsWith(input, pos, open) {
      hide Closes, StartsWith;
      BodyCloses(input, open, close, pos + |open|);
      var (inner, p) := ReadBody(input, open, close, pos + |open|).value;
      BodyCloses(input, open, close, p);
      var (rest, q) := ReadBody(input, open, close, p).value;
      NestedCloses(input, open, close, pos, inner, p, rest, q);
    } else if !StartsWith(input, pos, close) {
      hide Closes, StartsWith;
      BodyCloses(input, open, close, pos + 1);
      var (rest, q) := ReadBody(input, open, close, pos + 1).value;
      PlainCloses(input, open, close, pos, rest, q);
    } else {
      StartText(input, pos, close);
    }
  }

  lemma CloseOne(input: string, open: string, close: string, pos: nat)
    requires open != "" && pos <= |input|
    ensures var r := ReadBody(input, open, close, pos);
            CloseAll(input, open, close, pos, 1) == if r.None? then None else Some(r.value.1)
  {
    hide ReadBody;
    match ReadBody(input, open, close, pos)
    case None =>
    case Some((_, p)) => assert CloseAll(input, open, close, p, 0) == Some(p);
  }

  /** One turn of the loop keeps the answer. */
  lemma TurnCloses(input: string, open: string, close: string, pos: nat, depth: nat)
    requires open != "" && pos < |input| && depth > 0
    ensures StartsWith(input, pos, open) ==> pos + |open| <= |input|
    ensures StartsWith(input, pos, close) ==> pos + |close| <= |input|
    ensures CloseAll(input, open, close, pos, depth) ==
            if StartsWith(input, pos, open) then CloseAll(input, open, close, pos + |open|, depth + 1)
            else if StartsWith(input, pos, close) then CloseAll(input, open, close, pos + |close|, depth - 1)
            else CloseAll(input, open, close, pos + 1, depth)
  {
    if StartsWith(input, pos, open) {
      match ReadBody(input, open, close, pos + |open|)
      case None =>
      case Some((_, p)) =>
        assert CloseAll(input, open, close, pos + |open|, depth + 1) == CloseAll(input, open, close, p, depth);
    }
  }

  /** The recursive reading of a comment: its content and where it ends. */
  function ReadComment(input: string, open: string, close: string, pos: nat): Option<(string, nat)>
    requires pos <= |input| && (open != "" || pos == |input|)
  {
    if !StartsWith(input, pos, open) || open == "" then None
    else
      match ReadBody(input, open, close, pos + |open|)
      case None => None
      case Some((body, end)) => Some((Render(open, close, body), end))
  }

  /** Reading on at `pos`, `depth` comments open, gives what reading one comment at `start` gives. */
  ghost predicate ReadsOn(input: string, open: string, close: string, start: nat, pos: nat, depth: int) {
    && open != "" && start <= |input| && pos <= |input| && depth >= 0
    && CloseAll(input, open, close, pos, depth) == CloseAll(input, open, close, start, 1)
  }

  lemma TurnReadsOn(input: string, open: string, close: string, start: nat, pos: nat, depth: nat)
    requires ReadsOn(input, open, close, start, pos, depth) && pos < |input| && depth > 0
    ensures StartsWith(input, pos, open) ==> ReadsOn(input, open, close, start, pos + |open|, depth + 1)
    ensures StartsWith(input, pos, close) && !StartsWith(input, pos, open)
            ==> ReadsOn(input, open, close, start, pos + |close|, depth - 1)
    ensures !StartsWith(input, pos, close) && !StartsWith(input, pos, open)
            ==> ReadsOn(input, open, close, start, pos + 1, depth)
    ensures StartsWith(input, pos, open) ==> pos + |open| <= |input|
    ensures StartsWith(input, pos, close) ==> pos + |close| <= |input|
  {
    TurnCloses(input, open, close, pos, depth);
    hide CloseAll;
  }

  /** The loop with its depth counter. It answers exactly as the recursive reading: it stops at the delimiter that
      closes the comment and fails when there is none. With an empty opening delimiter it returns only at the end of
      the input. */
  method ParseBlockComment(input: string, open: string, close: string, pos: nat) returns (r: Option<(string, nat)>)
    requires pos <= |input| && (open != "" || pos == |input|)
    ensures r == ReadComment(input, open, close, pos)
  {
    if !StartsWith(input, pos, open) { return None; }
    ghost var start := pos + |open|;
    assert open != "" ==> ReadsOn(input, open, close, start, start, 1);
    assert open == "" ==> ReadComment(input, open, close, pos) == None;
    hide *;
    var currentPos, depth := pos + |open|, 1;
    while depth > 0 && currentPos < |input|
      invariant start <= currentPos <= |input| && depth >= 0
      invariant if open == "" then currentPos == |input| && depth == 1
                else ReadsOn(input, open, close, start, currentPos, depth)
      decreases |input| - currentPos, depth
    {
      TurnReadsOn(input, open, close, start, currentPos, depth);
      if StartsWith(input, currentPos, open) {
        depth := depth + 1;
        currentPos := currentPos + |open|;
      } else if StartsWith(input, currentPos, close) {
        depth := depth - 1;
        currentPos := currentPos + |close|;
      } else {
        currentPos := currentPos + 1;
      }
    }
    if depth == 0 {
      AllClosed(input, open, close, pos, currentPos);
      return Some((input[pos + |open|..currentPos - |close|], currentPos));
    }
    if open != "" { NotClosed(input, open, close, pos, depth); }
    return None;
  }

  /** The loop for at most `n` turns, exactly as written; `None` when it is still running. */
  function Turns(input: string, open: string, close: string, pos: nat, depth: nat, n: nat): Option<(nat, nat)>
    decreases n
  {
    if depth == 0 || pos >= |input| then Some((pos, depth))
    else if n == 0 then None
    else if StartsWith(input, pos, open) then Turns(input, open, close, pos + |open|, depth + 1, n - 1)
    else if StartsWith(input, pos, close) then Turns(input, open, close, pos + |close|, depth - 1, n - 1)
    else Turns(input, open, close, pos + 1, depth, n - 1)
  }

  /** An empty opening delimiter keeps the loop where it is, for ever, wherever input is left. */
  lemma {:induction false} EmptyOpenNeverEnds(input: string, close: string, pos: nat, depth: nat, n: nat)
    requires pos < |input| && depth > 0
    ensures Turns(input, "", close, pos, depth, n) == None
    decreases n
  {
    if n > 0 { EmptyOpenNeverEnds(input, close, pos, depth + 1, n - 1); }
  }

  /** The position after all the opening delimiters that follow one another here. */
  function OpensEnd(input: string, open: string, pos: nat): (r: nat)
    requires open != "" && pos <= |input|
    ensures pos <= r <= |input| && !StartsWith(input, r, open)
    decreases |input| - pos
  {
    if StartsWith(input, pos, open) then OpensEnd(input, open, pos + |open|) else pos
  }

  lemma {:induction false} EmptyCloseBody(input: string, open: string, pos: nat)
    requires open != "" && pos <= |input|
    ensures ReadBody(input, open, "", pos).Some? <==> OpensEnd(input, open, pos) < |input|
    ensures ReadBody(input, open, "", pos).Some? ==>
              ReadBody(input, open, "", pos).value.1 == OpensEnd(input, open, pos)
    decreases |input| - pos
  {
    if StartsWith(input, pos, open) {
      EmptyCloseBody(input, open, pos + |open|);
      var end := OpensEnd(input, open, pos);
      if end < |input| { assert ReadBody(input, open, "", end) == Some((Empty, end)); }
    }
  }

  /** An empty closing delimiter closes every comment at once, right after the opening delimiters, if input is left. */
  lemma EmptyClose(input: string, open: string, pos: nat)
    requires open != "" && StartsWith(input, pos, open)
    ensures OpensEnd(input, open, pos) == |input| ==> ReadComment(input, open, "", pos) == None
    ensures OpensEnd(input, open, pos) < |input| ==>
              && pos + |open| <= OpensEnd(input, open, pos)
              && ReadComment(input, open, "", pos)
              == Some((input[pos + |open|..OpensEnd(input, open, pos)], OpensEnd(input, open, pos)))
  {
    EmptyCloseBody(input, open, pos + |open|);
    OpensOn(input, open, pos);
    if ReadBody(input, open, "", pos + |open|).Some? { EmptyCloseText(input, open, pos + |open|); }
    hide ReadBody, OpensEnd, Render, StartsWith;
  }

  lemma OpensOn(input: string, open: string, pos: nat)
    requires open != "" && StartsWith(input, pos, open)
    ensures pos + |open| <= OpensEnd(input, open, pos) == OpensEnd(input, open, pos + |open|)
  {
  }

  lemma EmptyCloseText(input: string, open: string, pos: nat)
    requires open != "" && pos <= |input| && ReadBody(input, open, "", pos).Some?
    ensures Render(open, "", ReadBody(input, open, "", pos).value.0)
        == input[pos..ReadBody(input, open, "", pos).value.1]
  {
    BodyCloses(input, open, "", pos);
    hide ReadBody, Render;
  }

  lemma AllClosed(input: string, open: string, close: string, pos: nat, end: nat)
    requires StartsWith(input, pos, open) && ReadsOn(input, open, close, pos + |open|, end, 0)
    ensures open != "" && pos <= |input|
    ensures pos + |open| + |close| <= end
    ensures ReadComment(input, open, close, pos) == Some((input[pos + |open|..end - |close|], end))
  {
    CloseOne(input, open, close, pos + |open|);
    assert ReadBody(input, open, close, pos + |open|).Some?;
    BodyCloses(input, open, close, pos + |open|);
    hide ReadBody;
  }

  lemma NotClosed(input: string, open: string, close: string, pos: nat, depth: nat)
    requires open != "" && depth > 0 && ReadsOn(input, open, close, pos + |open|, |input|, depth)
    ensures pos <= |input|
    ensures ReadComment(input, open, close, pos).None?
  {
    EndOfInput(input, open, close, depth);
    CloseOne(input, open, close, pos + |open|);
    hide ReadBody;
  }

  lemma EndOfInput(input: string, open: string, close: string, depth: nat)
    requires open != "" && depth > 0
    ensures CloseAll(input, open, close, |input|, depth) == None
  {
  }

  // ---------------------------------------------------------------------------------------------
  // The balance of delimiters

  /** A delimiter or a single character: how it changes the depth, and where it ends. */
  datatype Token = Token(change: int, end: nat)

  /** The text cut greedily from the left, the opening delimiter first. */
  function Lex(input: string, open: string, close: string, pos: nat): seq<Token>
    requires open != "" && close != "" && pos <= |input|
    decreases |input| - pos
  {
    if pos == |input| then []
    else
      var t := if StartsWith(input, pos, open) then Token(1, pos + |open|)
               else if StartsWith(input, pos, close) then Token(-1, pos + |close|)
               else Token(0, pos + 1);
      [t] + Lex(input, open, close, t.end)
  }

  /** How much the first `k` tokens change the depth. */
  function Change(tokens: seq<Token>, k: nat): int
    requires k <= |tokens|
  {
    if k == 0 then 0 else tokens[0].change + Change(tokens[1..], k - 1)
  }

  /** Started at `depth`, the tokens reach depth zero for the first time after `k` of them. */
  ghost predicate ReachesZero(tokens: seq<Token>, depth: int, k: nat) {
    0 < k <= |tokens| && depth + Change(tokens, k) == 0 && forall j: nat | j < k :: depth + Change(tokens, j) > 0
  }

  lemma ReachesZeroStep(tokens: seq<Token>, depth: int, k: nat)
    requires depth > 0 && 0 < k <= |tokens|
    ensures ReachesZero(tokens, depth, k) <==>
            if depth + tokens[0].change <= 0 then k == 1 && depth + tokens[0].change == 0
            else k > 1 && ReachesZero(tokens[1..], depth + tokens[0].change, k - 1)
  {
    var next, depth' := tokens[1..], depth + tokens[0].change;
    assert forall j: nat | 0 < j <= |tokens| :: depth + Change(tokens, j) == depth' + Change(next, j - 1);
    if k > 1 {
      assert depth + Change(tokens, 1) == depth';
      assert ReachesZero(next, depth', k - 1) && depth' > 0
            ==> forall j: nat | 0 < j < k :: depth + Change(tokens, j) > 0;
      assert ReachesZero(tokens, depth, k) ==> forall j: nat | j < k - 1 :: depth' + Change(next, j) > 0 by {
        if ReachesZero(tokens, depth, k) {
          forall j: nat | j < k - 1 ensures depth' + Change(next, j) > 0 {
            assert depth + Change(tokens, j + 1) == depth' + Change(next, j);
          }
        }
      }
    }
  }

  lemma {:induction false} ClosesAtZero(input: string, open: string, close: string, pos: nat, depth: nat, k: nat)
    requires open != "" && close != "" && pos <= |input| && depth > 0
    requires ReachesZero(Lex(input, open, close, pos), depth, k)
    ensures CloseAll(input, open, close, pos, depth) == Some(Lex(input, open, close, pos)[k - 1].end)
    decreases |input| - pos
  {
    var tokens := Lex(input, open, close, pos);
    var next := Lex(input, open, close, tokens[0].end);
    assert tokens[1..] == next;
    TurnCloses(input, open, close, pos, depth);
    ReachesZeroStep(tokens, depth, k);
    assert CloseAll(input, open, close, tokens[0].end, 0) == Some(tokens[0].end);
    hide CloseAll, ReachesZero;
    if k > 1 { ClosesAtZero(input, open, close, tokens[0].end, depth + tokens[0].change, k - 1); }
  }

  lemma {:induction false} ZeroWhenClosed(input: string, open: string, close: string, pos: nat,
                                          depth: nat) returns (k: nat)
    requires open != "" && close != "" && pos <= |input| && depth > 0
    requires CloseAll(input, open, close, pos, depth).Some?
    ensures ReachesZero(Lex(input, open, close, pos), depth, k)
    decreases |input| - pos
  {
    EndOfInput(input, open, close, depth);
    var tokens := Lex(input, open, close, pos);
    assert tokens[1..] == Lex(input, open, close, tokens[0].end);
    TurnCloses(input, open, close, pos, depth);
    hide CloseAll, ReachesZero;
    k := 1;
    if depth + tokens[0].change > 0 {
      k := ZeroWhenClosed(input, open, close, tokens[0].end, depth + tokens[0].change);
      assert k > 0 && k <= |tokens[1..]| by { ReachesZeroBounds(tokens[1..], depth + tokens[0].change, k); }
      k := k + 1;
    }
    ReachesZeroStep(tokens, depth, k);
  }

  lemma ReachesZeroBounds(tokens: seq<Token>, depth: int, k: nat)
    requires ReachesZero(tokens, depth, k)
    ensures 0 < k <= |tokens|
  {
  }

  /** The depth, one after the opening delimiter at `pos`, first comes back to zero with the `k`-th token. */
  ghost predicate BalancedAt(input: string, open: string, close: string, pos: nat, k: nat)
    requires open != "" && close != "" && pos + |open| <= |input|
  {
    ReachesZero(Lex(input, open, close, pos + |open|), 1, k)
  }

  /** A comment is accepted exactly when the depth comes back to zero; it then ends with the first delimiter that
      brings it there. */
  lemma StopsAtBalance(input: string, open: string, close: string, pos: nat)
    requires open != "" && close != "" && StartsWith(input, pos, open)
    ensures ReadComment(input, open, close, pos).Some? <==> exists k: nat :: BalancedAt(input, open, close, pos, k)
    ensures forall k: nat | BalancedAt(input, open, close, pos, k) ::
              && ReadComment(input, open, close, pos).Some?
              && ReadComment(input, open, close, pos).value.1 == Lex(input, open, close, pos + |open|)[k - 1].end
  {
    CloseOne(input, open, close, pos + |open|);
    var tokens := Lex(input, open, close, pos + |open|);
    hide CloseAll, ReachesZero, ReadBody, Lex;
    forall k: nat | BalancedAt(input, open, close, pos, k)
      ensures 0 < k <= |tokens| && CloseAll(input, open, close, pos + |open|, 1) == Some(tokens[k - 1].end)
    {
      ReachesZeroBounds(tokens, 1, k);
      ClosesAtZero(input, open, close, pos + |open|, 1, k);
    }
    if CloseAll(input, open, close, pos + |open|, 1).Some? {
      var k := ZeroWhenClosed(input, open, close, pos + |open|, 1);
      assert BalancedAt(input, open, close, pos, k);
    }
  }
}
