/** What the combinators mean, as inference rules: which calls a parser makes, and what it answers from their answers.
    `Run` gives an answer exactly when there is a derivation of it. */
module CombinatorRules {
  import opened Prelude
  import opened Combinators

  /** The parser, called at this position, gives this answer. */
  datatype Judgement = Judgement(p: Parser, at: nat, answer: Result)

  /** A judgement with derivations of the calls it rests on, in the order in which they are made. */
  datatype Derivation = Derivation(conclusion: Judgement, calls: seq<Derivation>)

  ghost predicate About(j: Judgement, p: Parser, at: nat) {
    j.p == p && j.at == at
  }

  // ---------------------------------------------------------------------------------------------
  // The rules

  predicate Atomic(p: Parser) {
    !Wraps(p) && !Pairs(p) && !Repeats(p) && !p.AndThen? && !p.Choice?
  }

  /** One character is read. */
  predicate ReadsOne(input: string, a: nat, v: Value, b: nat) {
    a < |input| && b == a + 1 && v == Ch(input[a])
  }

  /** Equal, or the two cases of one ASCII letter. */
  predicate SameLetter(c: char, d: char) {
    c == d || ('A' <= c <= 'Z' && d as int == c as int + 32) || ('A' <= d <= 'Z' && c as int == d as int + 32)
  }

  /** The parser matches the input from `a` to `b` with this value. */
  ghost predicate AtomMatches(p: Parser, input: string, a: nat, v: Value, b: nat) {
    match p
    case Char(c) => ReadsOne(input, a, v, b) && input[a] == c
    case Satisfy(test) => ReadsOne(input, a, v, b) && test(input[a])
    case OneOf(chars) => ReadsOne(input, a, v, b) && exists i | 0 <= i < |chars| :: chars[i] == input[a]
    case NoneOf(chars) => ReadsOne(input, a, v, b) && forall i | 0 <= i < |chars| :: chars[i] != input[a]
    case AnyChar => ReadsOne(input, a, v, b)
    case Literal(text) => a <= b <= |input| && input[a..b] == text && v == Str(text)
    case Keyword(text) =>
      && a <= b <= |input| && v == Str(input[a..b])
      && b - a == |text| && forall i | 0 <= i < |text| :: SameLetter(input[a + i], text[i])
    case Eof => |input| <= a == b && v == Unit
    case Success(w) => a == b && v == w
    case _ => false
  }

  /** A parser that calls no other one matches, or fails without a cut exactly where nothing matches. */
  ghost predicate AtomRule(p: Parser, input: string, at: nat, r: Result) {
    || (r.Ok? && AtomMatches(p, input, at, r.value, r.pos))
    || (r == Err(false) && forall v, b: nat :: !AtomMatches(p, input, at, v, b))
  }

  /** One call at the same position, which answered `s`. */
  ghost predicate WrapRule(p: Parser, input: string, at: nat, s: Result, r: Result)
    requires Wraps(p)
  {
    match p
    case Map(_, f) => if s.Ok? then r == Ok(f(s.value), s.pos) else r == s
    case MapRes(_, g) =>
      if s.Err? then r == s
      else s.Ok? && ((g(s.value).None? && r == Err(false)) || (r.Ok? && g(s.value) == Some(r.value) && r.pos == s.pos))
    case Try(_) => r == s
    case Cut(_) => if s.Ok? then r == s else r == Err(true)
    case LookAhead(_) => if s.Ok? then r == Ok(s.value, at) else r == s
    case Optional(_) =>
      || (s.Ok? && r == Ok(Opt(Some(s.value)), s.pos))
      || (s == Err(false) && r == Ok(Opt(None), at))
      || (s == Err(true) && r == Err(true))
    case Complete(_) => if s.Ok? && s.pos < |input| then r == Err(false) else r == s
  }

  /** The parser a sequence goes on with after this value. */
  function Second(p: Parser, v: Value): (q: Parser)
    requires Sequence(p)
    ensures q < p
  {
    if !p.AndThen? then p.q
    else if p.select(v) < |p.branches| then p.branches[p.select(v)] else p.otherwise
  }

  predicate Sequence(p: Parser) {
    p.Then? || p.ThenIgnore? || p.IgnoreThen? || p.AndThen?
  }

  /** Which of the two values a sequence keeps. */
  function Kept(p: Parser, v: Value, w: Value): Value {
    if p.Then? then Pair(v, w) else if p.ThenIgnore? then v else w
  }

  /** The second part is called where the first one ended; the first failure is the answer. */
  ghost predicate SequenceRule(p: Parser, at: nat, calls: seq<Judgement>, r: Result)
    requires Sequence(p)
  {
    && 1 <= |calls| <= 2 && About(calls[0], p.p, at)
    && if |calls| == 1 then calls[0].answer.Err? && r == calls[0].answer
       else
         && calls[0].answer.Ok? && About(calls[1], Second(p, calls[0].answer.value), calls[0].answer.pos)
         && (|| (calls[1].answer.Err? && r == calls[1].answer)
             || (calls[1].answer.Ok? && r.Ok? && r.pos == calls[1].answer.pos
                 && r.value == Kept(p, calls[0].answer.value, calls[1].answer.value)))
  }

  predicate Alternatives(p: Parser) {
    p.Or? || p.Choice?
  }

  function Options(p: Parser): (qs: seq<Parser>)
    requires Alternatives(p)
    ensures forall i | 0 <= i < |qs| :: qs[i] < p
  {
    if p.Or? then [p.p, p.q] else p.ps
  }

  /** The alternatives are called in order while they fail without a cut; the first other answer is the answer. */
  ghost predicate AlternativesRule(p: Parser, at: nat, calls: seq<Judgement>, r: Result)
    requires Alternatives(p)
  {
    && |calls| <= |Options(p)|
    && (forall i | 0 <= i < |calls| :: About(calls[i], Options(p)[i], at))
    && (forall i | 0 <= i < |calls| - 1 :: calls[i].answer == Err(false))
    && if calls == [] || calls[|calls| - 1].answer == Err(false) then |calls| == |Options(p)| && r == Err(false)
       else r == calls[|calls| - 1].answer
  }

  /** The value of an answer that has one. */
  function Got(r: Result): Value {
    if r.Ok? then r.value else Unit
  }

  /** Calls of one parser, each where the one before ended, all but the last consuming something. */
  ghost predicate Calls(e: Parser, at: nat, calls: seq<Judgement>)
    decreases |calls|
  {
    && calls != [] && About(calls[0], e, at)
    && (|calls| > 1 ==> calls[0].answer.Ok? && calls[0].answer.pos != at && Calls(e, calls[0].answer.pos, calls[1..]))
  }

  /** The values of all calls but the last. */
  function Collected(calls: seq<Judgement>): seq<Value> {
    if |calls| <= 1 then [] else [Got(calls[0].answer)] + Collected(calls[1..])
  }

  /** A repetition ends with a cut error, or with what it collected where its parser fails or matches nothing. */
  ghost predicate LoopRule(p: Parser, first: seq<Value>, calls: seq<Judgement>, r: Result)
    requires calls != []
  {
    var last := calls[|calls| - 1];
    if last.answer == Err(true) then r == Err(true)
    else
      && (last.answer == Err(false) || (last.answer.Ok? && last.answer.pos == last.at))
      && r == Ok(if p.Many? || p.Many1? then List(first + Collected(calls)) else Unit, last.at)
  }

  ghost predicate RepeatRule(p: Parser, at: nat, calls: seq<Judgement>, r: Result)
    requires Repeats(p) && !Separates(p)
  {
    if p.Many? || p.SkipMany? then Calls(p.p, at, calls) && LoopRule(p, [], calls, r)
    else
      && calls != [] && About(calls[0], p.p, at)
      && if |calls| == 1 then calls[0].answer.Err? && r == calls[0].answer
         else
           && calls[0].answer.Ok? && Calls(p.p, calls[0].answer.pos, calls[1..])
           && LoopRule(p, [calls[0].answer.value], calls[1..], r)
  }

  /** Calls of separator and element in turn, each where the one before ended, up to the first failure. */
  ghost predicate Alternation(p: Parser, at: nat, calls: seq<Judgement>)
    requires Separates(p)
    decreases |calls|
  {
    && calls != [] && About(calls[0], p.sep, at)
    && if |calls| == 1 then calls[0].answer.Err?
       else
         && calls[0].answer.Ok? && About(calls[1], p.p, calls[0].answer.pos)
         && if |calls| == 2 then calls[1].answer.Err?
            else calls[1].answer.Ok? && Alternation(p, calls[1].answer.pos, calls[2..])
  }

  function Elements(calls: seq<Judgement>): seq<Value> {
    if |calls| <= 2 then [] else [Got(calls[1].answer)] + Elements(calls[2..])
  }

  /** A list ends with a cut error or with its elements, where the separator failed; after a separator that no element
      followed the flag says whether that separator is given back. */
  ghost predicate ListRule(p: Parser, first: seq<Value>, calls: seq<Judgement>, r: Result)
    requires Separates(p) && calls != []
  {
    var n := |calls|;
    if calls[n - 1].answer == Err(true) then r == Err(true)
    else
      && r.Ok? && r.value == List(first + Elements(calls))
      && r.pos == if n % 2 == 0 && p.allowTrailing then calls[n - 2].at else calls[n - 1].at
  }

  ghost predicate SeparatedRule(p: Parser, at: nat, calls: seq<Judgement>, r: Result)
    requires Separates(p)
  {
    && calls != [] && About(calls[0], p.p, at)
    && if |calls| == 1
       then calls[0].answer.Err? && r == if p.SepBy? && !calls[0].answer.cut then Ok(List([]), at) else calls[0].answer
       else
         && calls[0].answer.Ok? && Alternation(p, calls[0].answer.pos, calls[1..])
         && ListRule(p, [calls[0].answer.value], calls[1..], r)
  }

  ghost predicate Rule(input: string, j: Judgement, calls: seq<Judgement>) {
    if Wraps(j.p)
    then |calls| == 1 && About(calls[0], j.p.p, j.at) && WrapRule(j.p, input, j.at, calls[0].answer, j.answer)
    else if Sequence(j.p) then SequenceRule(j.p, j.at, calls, j.answer)
    else if Alternatives(j.p) then AlternativesRule(j.p, j.at, calls, j.answer)
    else if Separates(j.p) then SeparatedRule(j.p, j.at, calls, j.answer)
    else if Repeats(j.p) then RepeatRule(j.p, j.at, calls, j.answer)
    else calls == [] && AtomRule(j.p, input, j.at, j.answer)
  }

  function Conclusions(ds: seq<Derivation>): seq<Judgement> {
    seq(|ds|, i requires 0 <= i < |ds| => ds[i].conclusion)
  }

  ghost predicate Valid(input: string, d: Derivation) {
    Rule(input, d.conclusion, Conclusions(d.calls)) && forall i | 0 <= i < |d.calls| :: Valid(input, d.calls[i])
  }

  ghost predicate Derivable(input: string, p: Parser, at: nat, r: Result) {
    exists d :: Valid(input, d) && d.conclusion == Judgement(p, at, r)
  }

  // ---------------------------------------------------------------------------------------------
  // Soundness: what the rules derive is what `Run` answers

  ghost predicate Holds(input: string, j: Judgement) {
    Run(j.p, input, j.at) == j.answer && !j.answer.Diverges?
  }

  ghost predicate AllHold(input: string, calls: seq<Judgement>) {
    forall i | 0 <= i < |calls| :: Holds(input, calls[i])
  }

  lemma AtomExact(p: Parser, input: string, at: nat, r: Result)
    requires Atomic(p)
    ensures Run(p, input, at) == r <==> AtomRule(p, input, at, r)
  {
    AtomReads(p, input, at);
    hide Run, AtomMatches;
  }

  lemma AtomReads(p: Parser, input: string, at: nat)
    requires Atomic(p)
    ensures var r := Run(p, input, at); (r.Ok? && AtomMatches(p, input, at, r.value, r.pos)) || r == Err(false)
    ensures forall v, b: nat | AtomMatches(p, input, at, v, b) :: Run(p, input, at) == Ok(v, b)
  {
  }

  lemma WrapExact(p: Parser, input: string, at: nat, r: Result)
    requires Wraps(p) && !Run(p.p, input, at).Diverges?
    ensures Run(p, input, at) == r <==> WrapRule(p, input, at, Run(p.p, input, at), r)
  {
  }

  lemma SequenceRuns(p: Parser, input: string, at: nat)
    requires Sequence(p)
    ensures Run(p, input, at) ==
            var r := Run(p.p, input, at);
            if !r.Ok? then r
            else
              var r' := Run(Second(p, r.value), input, r.pos);
              if r'.Ok? then Ok(Kept(p, r.value, r'.value), r'.pos) else r'
  {
  }

  lemma SequenceSound(p: Parser, input: string, at: nat, calls: seq<Judgement>, r: Result)
    requires Sequence(p) && SequenceRule(p, at, calls, r) && AllHold(input, calls)
    ensures Run(p, input, at) == r && !r.Diverges?
  {
    SequenceRuns(p, input, at);
    hide Run, Kept, Second;
    assert Holds(input, calls[0]) && Holds(input, calls[|calls| - 1]);
  }

  /** Alternatives from the `i`-th on. */
  function TryFrom(qs: seq<Parser>, i: nat, input: string, at: nat): Result
    requires i <= |qs|
    decreases |qs| - i
  {
    if i == |qs| then Err(false)
    else if Run(qs[i], input, at) == Err(false) then TryFrom(qs, i + 1, input, at)
    else Run(qs[i], input, at)
  }

  lemma {:induction false} ChoiceTries(p: Parser, i: nat, input: string, at: nat)
    requires p.Choice? && i <= |p.ps|
    ensures RunChoice(p, i, input, at) == TryFrom(p.ps, i, input, at)
    decreases |p.ps| - i
  {
    hide Run;
    if i < |p.ps| { ChoiceTries(p, i + 1, input, at); }
  }

  lemma OrRuns(p: Parser, q: Parser, input: string, at: nat)
    ensures Run(Or(p, q), input, at) ==
            if Run(p, input, at) == Err(false) then Run(q, input, at) else Run(p, input, at)
  {
  }

  lemma OrTries(p: Parser, q: Parser, input: string, at: nat)
    ensures Run(Or(p, q), input, at) == TryFrom([p, q], 0, input, at)
  {
    OrRuns(p, q, input, at);
    hide Run;
    assert TryFrom([p, q], 2, input, at) == Err(false);
    assert TryFrom([p, q], 1, input, at) == Run(q, input, at);
  }

  lemma AlternativesTry(p: Parser, input: string, at: nat)
    requires Alternatives(p)
    ensures Run(p, input, at) == TryFrom(Options(p), 0, input, at)
  {
    if p.Or? {
      OrTries(p.p, p.q, input, at);
    } else {
      RunIsChoice(p, input, at);
      ChoiceTries(p, 0, input, at);
    }
    hide Run, TryFrom, RunChoice;
  }

  lemma {:induction false} TriesPast(qs: seq<Parser>, k: nat, input: string, at: nat)
    requires k <= |qs| && forall i | 0 <= i < k :: Run(qs[i], input, at) == Err(false)
    ensures TryFrom(qs, 0, input, at) == TryFrom(qs, k, input, at)
  {
    hide Run;
    if k > 0 { TriesPast(qs, k - 1, input, at); }
  }

  lemma AlternativesSound(p: Parser, input: string, at: nat, calls: seq<Judgement>, r: Result)
    requires Alternatives(p) && AlternativesRule(p, at, calls, r) && AllHold(input, calls)
    ensures Run(p, input, at) == r && !r.Diverges?
  {
    AlternativesTry(p, input, at);
    hide Run, Options;
    assert forall i | 0 <= i < |calls| :: Holds(input, calls[i]);
    var k := if calls == [] || calls[|calls| - 1].answer == Err(false) then |calls| else |calls| - 1;
    TriesPast(Options(p), k, input, at);
  }

  lemma TailHolds(input: string, calls: seq<Judgement>, k: nat)
    requires k <= |calls| && AllHold(input, calls)
    ensures AllHold(input, calls[k..])
  {
    hide Holds;
  }

  /** The answer of a repetition that made these calls. */
  function LoopAnswer(calls: seq<Judgement>, acc: seq<Value>): Result
    requires calls != []
  {
    var last := calls[|calls| - 1];
    if last.answer == Err(true) then Err(true) else Ok(List(acc + Collected(calls)), last.at)
  }

  predicate LoopEnds(calls: seq<Judgement>) {
    calls != [] && var last := calls[|calls| - 1]; last.answer.Err? || (last.answer.Ok? && last.answer.pos == last.at)
  }

  lemma {:induction false} CallsSound(e: Parser, input: string, at: nat, calls: seq<Judgement>, acc: seq<Value>)
    requires Calls(e, at, calls) && AllHold(input, calls) && LoopEnds(calls)
    ensures ManyLoop(e, input, at, acc) == LoopAnswer(calls, acc)
    decreases |calls|
  {
    hide Run;
    assert Holds(input, calls[0]);
    RepeatUnfolds(e, input, at, acc);
    hide ManyLoop, AllHold;
    if |calls| == 1 {
      assert acc + Collected(calls) == acc;
    } else {
      TailHolds(input, calls, 1);
      var v := calls[0].answer.value;
      CallsSound(e, input, calls[0].answer.pos, calls[1..], acc + [v]);
      assert acc + [v] + Collected(calls[1..]) == acc + Collected(calls);
    }
  }

  lemma {:induction false} LoopCalls(e: Parser, input: string, at: nat, acc: seq<Value>) returns (calls: seq<Judgement>)
    requires !ManyLoop(e, input, at, acc).Diverges?
    ensures Calls(e, at, calls) && AllHold(input, calls) && LoopEnds(calls)
    ensures forall i | 0 <= i < |calls| :: calls[i].p == e
    decreases Left(input, at)
  {
    hide Run;
    RepeatUnfolds(e, input, at, acc);
    hide ManyLoop;
    var r := Run(e, input, at);
    calls := [Judgement(e, at, r)];
    if r.Ok? && r.pos != at {
      var rest := LoopCalls(e, input, r.pos, acc + [r.value]);
      calls := calls + rest;
      assert calls[1..] == rest;
    }
  }

  /** What a repetition makes of its loop's answer. */
  function Closed(p: Parser, r: Result): Result {
    if p.Many? || p.Many1? then r else Forget(r)
  }

  lemma RepeatRuns(p: Parser, input: string, at: nat)
    requires Repeats(p) && !Separates(p)
    ensures Run(p, input, at) ==
            if p.Many? || p.SkipMany? then Closed(p, ManyLoop(p.p, input, at, []))
            else
              var r := Run(p.p, input, at);
              if r.Ok? then Closed(p, ManyLoop(p.p, input, r.pos, [r.value])) else r
  {
    ManyUnfolds(p.p, input, at);
    Many1Unfolds(p.p, input, at);
    SkipMany1Unfolds(p.p, input, at);
    SkipForgets(p.p, input, at, []);
    var r := Run(p.p, input, at);
    if r.Ok? { SkipForgets(p.p, input, r.pos, [r.value]); }
    hide Run, ManyLoop, SkipLoop, Forget;
  }

  lemma LoopRuleExact(p: Parser, first: seq<Value>, calls: seq<Judgement>, r: Result)
    requires LoopEnds(calls)
    ensures LoopRule(p, first, calls, r) <==> r == Closed(p, LoopAnswer(calls, first))
  {
    hide Collected;
  }

  lemma RepeatSound(p: Parser, input: string, at: nat, calls: seq<Judgement>, r: Result)
    requires Repeats(p) && !Separates(p) && RepeatRule(p, at, calls, r) && AllHold(input, calls)
    ensures Run(p, input, at) == r && !r.Diverges?
  {
    assert Holds(input, calls[0]);
    RepeatRuns(p, input, at);
    hide Run, ManyLoop, AllHold, Calls, LoopAnswer;
    if p.Many? || p.SkipMany? {
      CallsSound(p.p, input, at, calls, []);
      LoopRuleExact(p, [], calls, r);
    } else if |calls| > 1 {
      var first := calls[0].answer;
      TailHolds(input, calls, 1);
      CallsSound(p.p, input, first.pos, calls[1..], [first.value]);
      LoopRuleExact(p, [first.value], calls[1..], r);
    }
  }

  lemma RepeatCalls(p: Parser, input: string, at: nat) returns (calls: seq<Judgement>)
    requires Repeats(p) && !Separates(p) && !Run(p, input, at).Diverges?
    ensures RepeatRule(p, at, calls, Run(p, input, at)) && AllHold(input, calls)
    ensures forall i | 0 <= i < |calls| :: calls[i].p == p.p
  {
    RepeatRuns(p, input, at);
    var r := Run(p.p, input, at);
    hide Run, ManyLoop, Calls, LoopAnswer;
    if p.Many? || p.SkipMany? {
      calls := LoopCalls(p.p, input, at, []);
      CallsSound(p.p, input, at, calls, []);
      LoopRuleExact(p, [], calls, Run(p, input, at));
    } else if !r.Ok? {
      calls := [Judgement(p.p, at, r)];
    } else {
      var rest := LoopCalls(p.p, input, r.pos, [r.value]);
      calls := [Judgement(p.p, at, r)] + rest;
      assert calls[1..] == rest;
      CallsSound(p.p, input, r.pos, rest, [r.value]);
      LoopRuleExact(p, [r.value], rest, Run(p, input, at));
    }
  }

  /** The answer of a list that made these calls after its first element. */
  function ListAnswer(p: Parser, calls: seq<Judgement>, acc: seq<Value>): Result
    requires Separates(p) && calls != []
  {
    var n := |calls|;
    if calls[n - 1].answer == Err(true) then Err(true)
    else
      var end := if n % 2 == 0 && p.allowTrailing then calls[n - 2].at else calls[n - 1].at;
      Ok(List(acc + Elements(calls)), end)
  }

  lemma SepUnfolds(p: Parser, input: string, at: nat, acc: seq<Value>)
    requires Separates(p)
    ensures SepLoop(p, input, at, acc) ==
            var s := Run(p.sep, input, at);
            if s == Err(false) then Ok(List(acc), at)
            else if !s.Ok? then s
            else
              var e := Run(p.p, input, s.pos);
              if e.Ok? then if e.pos == at then Diverges else SepLoop(p, input, e.pos, acc + [e.value])
              else if e == Err(false) then Ok(List(acc), if p.allowTrailing then at else s.pos) else e
  {
    hide Run;
  }

  lemma {:induction false} AlternationEnds(p: Parser, at: nat, calls: seq<Judgement>)
    requires Separates(p) && Alternation(p, at, calls)
    ensures calls[|calls| - 1].answer.Err?
    decreases |calls|
  {
    if |calls| > 2 { AlternationEnds(p, calls[1].answer.pos, calls[2..]); }
  }

  /** A finite alternation never starts where separator and element both match nothing. */
  lemma {:induction false} NotStuck(p: Parser, input: string, at: nat, calls: seq<Judgement>)
    requires Separates(p) && Alternation(p, at, calls) && AllHold(input, calls)
    ensures !Stuck(p.p, p.sep, input, at)
    decreases |calls|
  {
    hide Run;
    assert Holds(input, calls[0]);
    if |calls| > 1 { assert Holds(input, calls[1]); }
    if |calls| > 2 {
      TailHolds(input, calls, 2);
      NotStuck(p, input, calls[1].answer.pos, calls[2..]);
    }
  }

  lemma ListAnswerStep(p: Parser, calls: seq<Judgement>, acc: seq<Value>)
    requires Separates(p) && |calls| > 2 && calls[1].answer.Ok?
    ensures ListAnswer(p, calls[2..], acc + [calls[1].answer.value]) == ListAnswer(p, calls, acc)
  {
    assert acc + [calls[1].answer.value] + Elements(calls[2..]) == acc + Elements(calls);
    hide Elements;
  }

  lemma ShortAlternation(p: Parser, input: string, at: nat, calls: seq<Judgement>, acc: seq<Value>)
    requires Separates(p) && Alternation(p, at, calls) && AllHold(input, calls) && |calls| <= 2
    ensures SepLoop(p, input, at, acc) == ListAnswer(p, calls, acc)
  {
    assert Holds(input, calls[0]) && Holds(input, calls[|calls| - 1]);
    SepUnfolds(p, input, at, acc);
    assert acc + Elements(calls) == acc;
    hide Run, SepLoop, AllHold;
  }

  lemma {:induction false} AlternationSound(p: Parser, input: string, at: nat, calls: seq<Judgement>, acc: seq<Value>)
    requires Separates(p) && Alternation(p, at, calls) && AllHold(input, calls)
    ensures SepLoop(p, input, at, acc) == ListAnswer(p, calls, acc)
    decreases |calls|
  {
    if |calls| <= 2 {
      ShortAlternation(p, input, at, calls, acc);
    } else {
      assert Holds(input, calls[0]) && Holds(input, calls[1]);
      SepUnfolds(p, input, at, acc);
      NotStuck(p, input, at, calls);
      TailHolds(input, calls, 2);
      hide Run, SepLoop, AllHold, ListAnswer, Elements;
      AlternationSound(p, input, calls[1].answer.pos, calls[2..], acc + [calls[1].answer.value]);
      ListAnswerStep(p, calls, acc);
    }
  }

  lemma {:induction false} ListCalls(p: Parser, input: string, at: nat, acc: seq<Value>) returns (calls: seq<Judgement>)
    requires Separates(p) && !SepLoop(p, input, at, acc).Diverges?
    ensures Alternation(p, at, calls) && AllHold(input, calls)
    ensures forall i | 0 <= i < |calls| :: calls[i].p == p.p || calls[i].p == p.sep
    decreases Left(input, at)
  {
    SepUnfolds(p, input, at, acc);
    var s := Run(p.sep, input, at);
    var e := if s.Ok? then Run(p.p, input, s.pos) else s;
    hide Run, SepLoop;
    calls := [Judgement(p.sep, at, s)];
    if s.Ok? {
      calls := calls + [Judgement(p.p, s.pos, e)];
      if e.Ok? {
        var rest := ListCalls(p, input, e.pos, acc + [e.value]);
        calls := calls + rest;
        assert calls[2..] == rest;
      }
    }
  }

  lemma ListRuns(p: Parser, input: string, at: nat)
    requires Separates(p)
    ensures Run(p, input, at) ==
            var r := Run(p.p, input, at);
            if r.Ok? then SepLoop(p, input, r.pos, [r.value])
            else if p.SepBy? && r == Err(false) then Ok(List([]), at) else r
  {
    RunIsRepeat(p, input, at);
    hide Run, SepLoop;
  }

  lemma ListRuleExact(p: Parser, first: seq<Value>, calls: seq<Judgement>, r: Result)
    requires Separates(p) && calls != [] && calls[|calls| - 1].answer.Err?
    ensures ListRule(p, first, calls, r) <==> r == ListAnswer(p, calls, first)
  {
    hide Elements;
  }

  lemma SeparatedSound(p: Parser, input: string, at: nat, calls: seq<Judgement>, r: Result)
    requires Separates(p) && SeparatedRule(p, at, calls, r) && AllHold(input, calls)
    ensures Run(p, input, at) == r && !r.Diverges?
  {
    assert Holds(input, calls[0]);
    ListRuns(p, input, at);
    hide Run, SepLoop, AllHold, Alternation;
    if |calls| > 1 {
      var first := calls[0].answer;
      TailHolds(input, calls, 1);
      AlternationEnds(p, first.pos, calls[1..]);
      AlternationSound(p, input, first.pos, calls[1..], [first.value]);
      ListRuleExact(p, [first.value], calls[1..], r);
    }
  }

  lemma SeparatedCalls(p: Parser, input: string, at: nat) returns (calls: seq<Judgement>)
    requires Separates(p) && !Run(p, input, at).Diverges?
    ensures SeparatedRule(p, at, calls, Run(p, input, at)) && AllHold(input, calls)
    ensures forall i | 0 <= i < |calls| :: calls[i].p == p.p || calls[i].p == p.sep
  {
    ListRuns(p, input, at);
    var r := Run(p.p, input, at);
    hide Run, SepLoop, Alternation, ListAnswer;
    calls := [Judgement(p.p, at, r)];
    if r.Ok? {
      var rest := ListCalls(p, input, r.pos, [r.value]);
      calls := calls + rest;
      assert calls[1..] == rest;
      AlternationEnds(p, r.pos, rest);
      AlternationSound(p, input, r.pos, rest, [r.value]);
      ListRuleExact(p, [r.value], rest, Run(p, input, at));
    }
  }

  lemma WrapSound(input: string, p: Parser, at: nat, call: Judgement, r: Result)
    requires Wraps(p) && About(call, p.p, at) && WrapRule(p, input, at, call.answer, r) && Holds(input, call)
    ensures Run(p, input, at) == r && !r.Diverges?
  {
    WrapExact(p, input, at, r);
    hide Run;
  }

  /** A rule whose calls were answered so concludes what `Run` answers. */
  lemma RuleSound(input: string, j: Judgement, calls: seq<Judgement>)
    requires Rule(input, j, calls) && AllHold(input, calls)
    ensures Holds(input, j)
  {
    hide SequenceRule, AlternativesRule, SeparatedRule, RepeatRule, WrapRule, AtomRule, Run;
    if Wraps(j.p) {
      assert Holds(input, calls[0]);
      WrapSound(input, j.p, j.at, calls[0], j.answer);
    } else if Sequence(j.p) {
      SequenceSound(j.p, input, j.at, calls, j.answer);
    } else if Alternatives(j.p) {
      AlternativesSound(j.p, input, j.at, calls, j.answer);
    } else if Separates(j.p) {
      SeparatedSound(j.p, input, j.at, calls, j.answer);
    } else if Repeats(j.p) {
      RepeatSound(j.p, input, j.at, calls, j.answer);
    } else {
      AtomExact(j.p, input, j.at, j.answer);
      AtomReads(j.p, input, j.at);
    }
  }

  lemma {:induction false} DerivationSound(input: string, d: Derivation)
    requires Valid(input, d)
    ensures Holds(input, d.conclusion)
  {
    hide Rule, Holds;
    var calls := Conclusions(d.calls);
    forall i | 0 <= i < |calls| ensures Holds(input, calls[i]) { DerivationSound(input, d.calls[i]); }
    RuleSound(input, d.conclusion, calls);
  }

  // ---------------------------------------------------------------------------------------------
  // Completeness: every answer of `Run` is derived

  lemma SequenceCalls(p: Parser, input: string, at: nat) returns (calls: seq<Judgement>)
    requires Sequence(p) && !Run(p, input, at).Diverges?
    ensures SequenceRule(p, at, calls, Run(p, input, at)) && AllHold(input, calls)
    ensures forall i | 0 <= i < |calls| :: calls[i].p < p
  {
    SequenceRuns(p, input, at);
    var r := Run(p.p, input, at);
    calls := [Judgement(p.p, at, r)];
    if r.Ok? {
      var q := Second(p, r.value);
      calls := calls + [Judgement(q, r.pos, Run(q, input, r.pos))];
    }
    hide Run, Second, Kept;
  }

  lemma {:induction false} FirstAnswer(qs: seq<Parser>, i: nat, input: string, at: nat) returns (n: nat)
    requires i <= |qs|
    ensures i <= n <= |qs| && forall k | i <= k < n :: Run(qs[k], input, at) == Err(false)
    ensures TryFrom(qs, i, input, at) == if n == |qs| then Err(false) else Run(qs[n], input, at)
    ensures n < |qs| ==> Run(qs[n], input, at) != Err(false)
    decreases |qs| - i
  {
    hide Run;
    if i < |qs| && Run(qs[i], input, at) == Err(false) { n := FirstAnswer(qs, i + 1, input, at); } else { n := i; }
  }

  lemma AlternativesCalls(p: Parser, input: string, at: nat) returns (calls: seq<Judgement>)
    requires Alternatives(p) && !Run(p, input, at).Diverges?
    ensures AlternativesRule(p, at, calls, Run(p, input, at)) && AllHold(input, calls)
    ensures forall i | 0 <= i < |calls| :: calls[i].p < p
  {
    AlternativesTry(p, input, at);
    var qs := Options(p);
    var n := FirstAnswer(qs, 0, input, at);
    hide Run, Options, TryFrom;
    calls := seq(if n < |qs| then n + 1 else n,
                 i requires 0 <= i < |qs| => Judgement(qs[i], at, Run(qs[i], input, at)));
    forall i | 0 <= i < |calls| ensures Holds(input, calls[i]) && calls[i].p < p {}
  }

  lemma RuleCalls(p: Parser, input: string, at: nat) returns (calls: seq<Judgement>)
    requires !Run(p, input, at).Diverges?
    ensures Rule(input, Judgement(p, at, Run(p, input, at)), calls) && AllHold(input, calls)
    ensures forall i | 0 <= i < |calls| :: calls[i].p < p
  {
    if Wraps(p) {
      calls := WrapCalls(p, input, at);
    } else if Sequence(p) {
      calls := SequenceCalls(p, input, at);
    } else if Alternatives(p) {
      calls := AlternativesCalls(p, input, at);
    } else if Separates(p) {
      calls := SeparatedCalls(p, input, at);
    } else if Repeats(p) {
      calls := RepeatCalls(p, input, at);
    } else {
      calls := [];
      AtomExact(p, input, at, Run(p, input, at));
    }
    hide SequenceRule, AlternativesRule, SeparatedRule, RepeatRule, WrapRule, AtomRule, Run;
  }

  lemma WrapCalls(p: Parser, input: string, at: nat) returns (calls: seq<Judgement>)
    requires Wraps(p) && !Run(p, input, at).Diverges?
    ensures |calls| == 1 && About(calls[0], p.p, at) && WrapRule(p, input, at, calls[0].answer, Run(p, input, at))
    ensures AllHold(input, calls) && calls[0].p < p
  {
    if Run(p.p, input, at).Diverges? { WrapDiverges(p, input, at); }
    WrapExact(p, input, at, Run(p, input, at));
    calls := [Judgement(p.p, at, Run(p.p, input, at))];
    hide Run, WrapRule;
  }

  lemma WrapDiverges(p: Parser, input: string, at: nat)
    requires Wraps(p) && Run(p.p, input, at).Diverges?
    ensures Run(p, input, at).Diverges?
  {
  }

  lemma {:induction false} Derive(input: string, p: Parser, at: nat) returns (d: Derivation)
    requires !Run(p, input, at).Diverges?
    ensures Valid(input, d) && d.conclusion == Judgement(p, at, Run(p, input, at))
    decreases p, 1, 0
  {
    var calls := RuleCalls(p, input, at);
    hide Rule, Run, Holds;
    var ds := DeriveAll(input, p, calls);
    d := Derivation(Judgement(p, at, Run(p, input, at)), ds);
    assert Conclusions(ds) == calls;
  }

  lemma {:induction false} DeriveAll(input: string, p: Parser, calls: seq<Judgement>) returns (ds: seq<Derivation>)
    requires AllHold(input, calls) && forall i | 0 <= i < |calls| :: calls[i].p < p
    ensures |ds| == |calls| && forall i | 0 <= i < |ds| :: Valid(input, ds[i]) && ds[i].conclusion == calls[i]
    decreases p, 0, |calls|
  {
    hide Run, Valid;
    ds := [];
    if calls != [] {
      var n := |calls| - 1;
      var before := DeriveAll(input, p, calls[..n]);
      assert Holds(input, calls[n]);
      var d := Derive(input, calls[n].p, calls[n].at);
      ds := before + [d];
    }
  }

  /** For every term, input and position: `Run` gives an answer exactly when the rules derive it, so it diverges exactly
      when they derive none. */
  lemma RunExact(p: Parser, input: string, at: nat, r: Result)
    ensures Derivable(input, p, at, r) <==> Run(p, input, at) == r && !r.Diverges?
  {
    hide Run, Valid;
    if Derivable(input, p, at, r) {
      var d :| Valid(input, d) && d.conclusion == Judgement(p, at, r);
      DerivationSound(input, d);
    }
    if Run(p, input, at) == r && !r.Diverges? {
      var d := Derive(input, p, at);
    }
  }

  // ---------------------------------------------------------------------------------------------
  // Laws

  /** `or` is a choice of two. */
  lemma OrIsChoice(p: Parser, q: Parser, input: string, at: nat)
    ensures Run(Or(p, q), input, at) == Run(Choice([p, q]), input, at)
  {
    AlternativesTry(Or(p, q), input, at);
    AlternativesTry(Choice([p, q]), input, at);
    hide Run, TryFrom;
  }

  /** A cut error of the first alternative is the answer, whatever the others are. */
  lemma CutCommits(p: Parser, q: Parser, qs: seq<Parser>, input: string, at: nat)
    requires Run(p, input, at) == Err(true)
    ensures Run(Or(p, q), input, at) == Err(true) && Run(Choice([p] + qs), input, at) == Err(true)
  {
    AlternativesTry(Or(p, q), input, at);
    AlternativesTry(Choice([p] + qs), input, at);
    hide Run;
    assert Options(Or(p, q)) == [p, q];
  }

  /** `or` is associative, and the parser that always fails is its unit on both sides. */
  lemma OrAssociates(p: Parser, q: Parser, r: Parser, input: string, at: nat)
    ensures Run(Or(Or(p, q), r), input, at) == Run(Or(p, Or(q, r)), input, at)
    ensures Run(Or(p, Fail), input, at) == Run(Or(Fail, p), input, at) == Run(p, input, at)
  {
    OrRuns(Or(p, q), r, input, at);
    OrRuns(p, q, input, at);
    OrRuns(p, Or(q, r), input, at);
    OrRuns(q, r, input, at);
    OrRuns(p, Fail, input, at);
    OrRuns(Fail, p, input, at);
    assert Run(Fail, input, at) == Err(false);
    hide Run;
  }

  function Present(v: Value): Value {
    Opt(Some(v))
  }

  /** `optional` is the parser with its value marked present, or the absent value; cut errors are kept. */
  lemma OptionalIsOr(p: Parser, input: string, at: nat)
    ensures Run(Optional(p), input, at) == Run(Or(Map(p, Present), Success(Opt(None))), input, at)
  {
    OrRuns(Map(p, Present), Success(Opt(None)), input, at);
  }

  function First(v: Value): Value {
    if v.Pair? then v.fst else v
  }

  function Other(v: Value): Value {
    if v.Pair? then v.snd else v
  }

  /** The sequences that drop a value are the projections of the one that keeps both. */
  lemma Projections(p: Parser, q: Parser, input: string, at: nat)
    ensures Run(ThenIgnore(p, q), input, at) == Run(Map(Then(p, q), First), input, at)
    ensures Run(IgnoreThen(p, q), input, at) == Run(Map(Then(p, q), Other), input, at)
  {
    SequenceRuns(Then(p, q), input, at);
    SequenceRuns(ThenIgnore(p, q), input, at);
    SequenceRuns(IgnoreThen(p, q), input, at);
    MapRuns(Then(p, q), First, input, at);
    MapRuns(Then(p, q), Other, input, at);
    hide Run;
  }

  lemma MapRuns(p: Parser, f: Value -> Value, input: string, at: nat)
    ensures Run(Map(p, f), input, at) == var r := Run(p, input, at); if r.Ok? then Ok(f(r.value), r.pos) else r
  {
  }
}
