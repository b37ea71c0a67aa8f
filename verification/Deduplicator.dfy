/** The time-window deduplicator and its periodic purge. Times are in nanoseconds. */
module Deduplicator {
  import opened Prelude

  const SECOND := 1_000_000_000

  // ---------------------------------------------------------------------------------------------
  // One table

  predicate Duplicate<K(==)>(seen: map<K, int>, key: K, now: int) {
    key in seen && now < seen[key]
  }

  function Asked<K(==)>(seen: map<K, int>, window: int, key: K, now: int): map<K, int> {
    if Duplicate(seen, key, now) then seen else seen[key := now + window]
  }

  function Purged<K>(seen: map<K, int>, now: int): map<K, int> {
    map k | k in seen && now < seen[k] :: seen[k]
  }

  /** A purge changes the answer to a question exactly when the clock reading of the question is older than the expiry
      and that of the purge is not. */
  lemma PurgeExact<K>(seen: map<K, int>, purge: int, key: K, now: int)
    ensures Duplicate(Purged(seen, purge), key, now) == Duplicate(seen, key, now)
       <==> !(key in seen && now < seen[key] <= purge)
  {
    assert Duplicate(Purged(seen, purge), key, now) <==> Duplicate(seen, key, now) && purge < seen[key];
  }

  // ---------------------------------------------------------------------------------------------
  // Runs

  datatype Event<K> = Ask(key: K, now: int) | Purge(now: int)

  function Seen<K(==)>(events: seq<Event<K>>, window: int): map<K, int> {
    if events == [] then map[]
    else
      var seen := Seen(events[..|events| - 1], window);
      match events[|events| - 1]
      case Ask(key, now) => Asked(seen, window, key, now)
      case Purge(now) => Purged(seen, now)
  }

  /** The answers given, in order; `true` is a duplicate. */
  function Answers<K(==)>(events: seq<Event<K>>, window: int): seq<bool> {
    if events == [] then []
    else
      var before, last := events[..|events| - 1], events[|events| - 1];
      if last.Purge? then Answers(before, window)
      else Answers(before, window) + [Duplicate(Seen(before, window), last.key, last.now)]
  }

  function OnlyAsks<K>(events: seq<Event<K>>): seq<Event<K>> {
    if events == [] then []
    else
      var before, last := events[..|events| - 1], events[|events| - 1];
      if last.Purge? then OnlyAsks(before) else OnlyAsks(before) + [last]
  }

  ghost predicate NonDecreasing<K>(events: seq<Event<K>>) {
    forall i, j | 0 <= i < j < |events| :: events[i].now <= events[j].now
  }

  /** No question carries a clock reading older than that of an earlier purge. The questions need no order among
      themselves: each reads the clock before it takes the lock. */
  ghost predicate PurgesPast<K>(events: seq<Event<K>>) {
    forall i, j | 0 <= i < j < |events| && events[i].Purge? && events[j].Ask? :: events[i].now <= events[j].now
  }

  ghost predicate PurgedBy<K>(events: seq<Event<K>>, time: int) {
    forall i | 0 <= i < |events| && events[i].Purge? :: events[i].now <= time
  }

  /** Two tables answer alike from some time on. */
  ghost predicate AnswerAlike<K(!new)>(a: map<K, int>, b: map<K, int>, time: int) {
    forall key: K, now: int | time <= now :: Duplicate(a, key, now) == Duplicate(b, key, now)
  }

  lemma Prefix<K>(events: seq<Event<K>>, time: int)
    requires events != [] && PurgesPast(events) && PurgedBy(events, time)
    ensures var before, last := events[..|events| - 1], events[|events| - 1];
            && PurgesPast(before) && PurgedBy(before, time)
            && (last.Ask? ==> PurgedBy(before, last.now)) && (last.Purge? ==> last.now <= time)
  {
  }

  /** From the last purge on, the table with purges answers like the table without. */
  lemma {:induction false} TablesAlike<K(!new)>(events: seq<Event<K>>, window: int, time: int)
    requires PurgesPast(events) && PurgedBy(events, time)
    ensures AnswerAlike(Seen(events, window), Seen(OnlyAsks(events), window), time)
  {
    if events != [] {
      var before, last := events[..|events| - 1], events[|events| - 1];
      Prefix(events, time);
      TablesAlike(before, window, time);
      if last.Ask? {
        TablesAlike(before, window, last.now);
        assert OnlyAsks(events)[..|OnlyAsks(events)| - 1] == OnlyAsks(before);
        AskAlike(Seen(before, window), Seen(OnlyAsks(before), window), window, last.key, last.now, time);
      }
    }
  }

  lemma AskAlike<K(!new)>(a: map<K, int>, b: map<K, int>, window: int, key: K, now: int, time: int)
    requires AnswerAlike(a, b, time) && AnswerAlike(a, b, now)
    ensures AnswerAlike(Asked(a, window, key, now), Asked(b, window, key, now), time)
  {
    assert Duplicate(a, key, now) == Duplicate(b, key, now);
    forall k: K, t: int | time <= t
      ensures Duplicate(Asked(a, window, key, now), k, t) == Duplicate(Asked(b, window, key, now), k, t)
    {
      assert Duplicate(a, k, t) == Duplicate(b, k, t);
    }
  }

  /** Purges are unobservable: wherever they are inserted, the answers are those of the run without them. */
  lemma {:induction false} PurgeUnobservable<K(!new)>(events: seq<Event<K>>, window: int)
    requires PurgesPast(events)
    ensures Answers(events, window) == Answers(OnlyAsks(events), window)
  {
    if events != [] {
      var before, last := events[..|events| - 1], events[|events| - 1];
      PurgeUnobservable(before, window);
      if last.Ask? {
        assert PurgedBy(before, last.now);
        TablesAlike(before, window, last.now);
        assert OnlyAsks(events)[..|OnlyAsks(events)| - 1] == OnlyAsks(before);
      }
    }
  }

  /** A clock that never goes backwards is enough. */
  lemma PurgeUnobservableOverTime<K(!new)>(events: seq<Event<K>>, window: int)
    requires NonDecreasing(events)
    ensures Answers(events, window) == Answers(OnlyAsks(events), window)
  {
    PurgeUnobservable(events, window);
  }

  /** When the last acceptance of the key expires. */
  function LastExpiry<K(==)>(events: seq<Event<K>>, window: int, key: K): Option<int> {
    if events == [] then None
    else
      var before, last := events[..|events| - 1], events[|events| - 1];
      if last.Ask? && last.key == key && !Duplicate(Seen(before, window), key, last.now) then Some(last.now + window)
      else LastExpiry(before, window, key)
  }

  /** Has a purge, since the last acceptance of the key, read a clock at or after its expiry? */
  predicate PurgedSince<K(==)>(events: seq<Event<K>>, window: int, key: K) {
    events != [] &&
    var before, last := events[..|events| - 1], events[|events| - 1];
    if last.Ask? then (last.key == key ==> Duplicate(Seen(before, window), key, last.now))
         && PurgedSince(before, window, key)
    else
      || PurgedSince(before, window, key)
      || (LastExpiry(before, window, key).Some? && LastExpiry(before, window, key).value <= last.now)
  }

  /** The question reads a clock before the expiry of the last acceptance, though
      a purge since read one at or after it. */
  predicate Overtaken<K(==)>(events: seq<Event<K>>, window: int, key: K, now: int) {
    && LastExpiry(events, window, key).Some? && now < LastExpiry(events, window, key).value
    && PurgedSince(events, window, key)
  }

  predicate NeverOvertaken<K(==)>(events: seq<Event<K>>, window: int) {
    events == [] ||
    var before, last := events[..|events| - 1], events[|events| - 1];
    && NeverOvertaken(before, window)
    && (last.Ask? ==> !Overtaken(before, window, last.key, last.now))
  }

  /** The table holds the expiry of each key's last acceptance, until a purge takes it. */
  lemma {:induction false} SeenExact<K>(events: seq<Event<K>>, window: int, key: K)
    ensures key in Seen(events, window)
       <==> LastExpiry(events, window, key).Some? && !PurgedSince(events, window, key)
    ensures key in Seen(events, window) ==> LastExpiry(events, window, key) == Some(Seen(events, window)[key])
  {
    if events != [] { SeenExact(events[..|events| - 1], window, key); }
  }

  lemma {:induction false} NothingPurged<K>(events: seq<Event<K>>, window: int, key: K)
    ensures !PurgedSince(OnlyAsks(events), window, key)
  {
    if events != [] {
      var before, last := events[..|events| - 1], events[|events| - 1];
      NothingPurged(before, window, key);
      if last.Ask? { OnlyAsksSnoc(before, last); }
    }
  }

  lemma OnlyAsksSnoc<K>(before: seq<Event<K>>, last: Event<K>)
    requires last.Ask?
    ensures OnlyAsks(before + [last])[..|OnlyAsks(before + [last])| - 1] == OnlyAsks(before)
    ensures OnlyAsks(before + [last])[|OnlyAsks(before + [last])| - 1] == last
  {
    assert (before + [last])[..|before|] == before;
  }

  /** While no question has been overtaken, keys are accepted alike with and without the purges. */
  lemma {:induction false} SameExpiry<K>(events: seq<Event<K>>, window: int, key: K)
    requires NeverOvertaken(events, window)
    ensures LastExpiry(OnlyAsks(events), window, key) == LastExpiry(events, window, key)
    decreases |events|, 0
  {
    if events != [] {
      var before, last := events[..|events| - 1], events[|events| - 1];
      SameExpiry(before, window, key);
      if last.Ask? {
        assert events == before + [last];
        OnlyAsksSnoc(before, last);
        AnsweredAlike(before, window, last.key, last.now);
      }
    }
  }

  /** A question after such a run is answered alike exactly when it is not overtaken either. */
  lemma {:induction false} AnsweredAlike<K>(events: seq<Event<K>>, window: int, key: K, now: int)
    requires NeverOvertaken(events, window)
    ensures Duplicate(Seen(events, window), key, now) == Duplicate(Seen(OnlyAsks(events), window), key, now)
       <==> !Overtaken(events, window, key, now)
    decreases |events|, 1
  {
    SameExpiry(events, window, key);
    SeenExact(events, window, key);
    SeenExact(OnlyAsks(events), window, key);
    NothingPurged(events, window, key);
  }

  /** The purges of a run are unobservable exactly when no question is overtaken. */
  lemma {:induction false} PurgesUnobservableExactly<K>(events: seq<Event<K>>, window: int)
    ensures Answers(events, window) == Answers(OnlyAsks(events), window) <==> NeverOvertaken(events, window)
    ensures |Answers(events, window)| == |Answers(OnlyAsks(events), window)|
  {
    if events != [] {
      var before, last := events[..|events| - 1], events[|events| - 1];
      PurgesUnobservableExactly(before, window);
      if last.Ask? {
        assert events == before + [last];
        OnlyAsksSnoc(before, last);
        SnocEqual(Answers(before, window), Duplicate(Seen(before, window), last.key, last.now),
                  Answers(OnlyAsks(before), window), Duplicate(Seen(OnlyAsks(before), window), last.key, last.now));
        if NeverOvertaken(before, window) { AnsweredAlike(before, window, last.key, last.now); }
      }
    }
  }

  lemma SnocEqual(a: seq<bool>, x: bool, b: seq<bool>, y: bool)
    requires |a| == |b|
    ensures a + [x] == b + [y] <==> a == b && x == y
  {
    if a + [x] == b + [y] {
      assert a == (a + [x])[..|a|] && b == (b + [y])[..|b|];
      assert x == (a + [x])[|a|] && y == (b + [y])[|b|];
    }
  }

  /** A question that read the clock before a purge and took the lock after it is answered differently: with the
      default window of five seconds, an acceptance at 0, a purge at 5 s, and a question that read 4 s. */
  lemma OvertakingPurge()
    ensures Answers([Ask("k", 0), Purge(5 * SECOND), Ask("k", 4 * SECOND)], 5 * SECOND) == [false, false]
    ensures Answers(OnlyAsks([Ask("k", 0), Purge(5 * SECOND), Ask("k", 4 * SECOND)]), 5 * SECOND) == [false, true]
  {
    var events := [Ask("k", 0), Purge(5 * SECOND), Ask("k", 4 * SECOND)];
    assert events[..2] == [Ask("k", 0), Purge(5 * SECOND)] && events[..2][..1] == [Ask("k", 0)];
    assert events[..2][..1][..0] == [];
    assert OnlyAsks(events[..2][..1]) == [Ask("k", 0)] && OnlyAsks(events[..2]) == [Ask("k", 0)];
    assert OnlyAsks(events) == [Ask("k", 0), Ask("k", 4 * SECOND)];
    assert OnlyAsks(events)[..1] == [Ask("k", 0)];
    assert Seen(events[..2][..1], 5 * SECOND) == map["k" := 5 * SECOND];
    assert Seen(events[..2], 5 * SECOND) == map[];
    assert Answers(events[..2][..1], 5 * SECOND) == [false] == Answers(events[..2], 5 * SECOND);
  }

  // ---------------------------------------------------------------------------------------------
  // What a duplicate is

  predicate Accepted<K(==)>(events: seq<Event<K>>, window: int, i: nat)
    requires i < |events|
  {
    events[i].Ask? && !Duplicate(Seen(events[..i], window), events[i].key, events[i].now)
  }

  /** The key was accepted less than one window before `now`. */
  ghost predicate RecentlyAccepted<K>(events: seq<Event<K>>, window: int, key: K, now: int) {
    exists i | 0 <= i < |events| :: Accepted(events, window, i) && events[i].key == key && now < events[i].now + window
  }

  lemma RecentlyStep<K>(before: seq<Event<K>>, last: Event<K>, window: int, key: K, now: int)
    ensures RecentlyAccepted(before + [last], window, key, now) <==>
            || RecentlyAccepted(before, window, key, now)
            || (last.Ask? && !Duplicate(Seen(before, window), last.key, last.now) && last.key == key
                && now < last.now + window)
  {
    var events := before + [last];
    assert events[..|before|] == before;
    forall i | 0 <= i < |before| ensures Accepted(events, window, i) == Accepted(before, window, i) {
      assert events[..i] == before[..i];
    }
    assert Accepted(events, window, |before|) <==>
           last.Ask? && !Duplicate(Seen(before, window), last.key, last.now);
    if RecentlyAccepted(before, window, key, now) {
      var i :| 0 <= i < |before| && Accepted(before, window, i) && before[i].key == key
               && now < before[i].now + window;
      assert Accepted(events, window, i) && events[i].key == key;
    }
  }

  /** A question is answered "duplicate" exactly when its key was accepted less than one window before. */
  lemma {:induction false} DuplicateExact<K>(events: seq<Event<K>>, window: int, key: K, now: int)
    requires window >= 0 && PurgesPast(events) && PurgedBy(events, now)
    ensures Duplicate(Seen(events, window), key, now) <==> RecentlyAccepted(events, window, key, now)
  {
    if events != [] {
      var before, last := events[..|events| - 1], events[|events| - 1];
      assert events == before + [last];
      Prefix(events, now);
      DuplicateExact(before, window, key, now);
      RecentlyStep(before, last, window, key, now);
      if last.Ask? && last.key == key {
        DuplicateExact(before, window, key, last.now);
      }
    }
  }

  /** Accepted occurrences of one key are at least one window apart. */
  lemma AcceptedApart<K>(events: seq<Event<K>>, window: int, i: nat, j: nat)
    requires window >= 0 && PurgesPast(events) && i < j < |events| && events[i].Ask? && events[j].Ask?
    requires Accepted(events, window, i) && Accepted(events, window, j) && events[i].key == events[j].key
    ensures events[i].now + window <= events[j].now
  {
    var before := events[..j];
    assert PurgedBy(before, events[j].now);
    DuplicateExact(before, window, events[j].key, events[j].now);
    assert before[..i] == events[..i];
    assert Accepted(before, window, i);
  }

  // ---------------------------------------------------------------------------------------------
  // The object

  class Deduplicator<K(==)> {
    const window: int
    var seen: map<K, int>

    constructor (windowSeconds: int)
      ensures seen == map[] && window == (if windowSeconds <= 0 then 5 else windowSeconds) * 1_000_000_000
    {
      var seconds := windowSeconds;
      if seconds <= 0 { seconds := 5; }
      window, seen := seconds * SECOND, map[];
    }

    method IsDuplicate(key: K, now: int) returns (duplicate: bool)
      modifies this
      ensures duplicate == Duplicate(old(seen), key, now)
      ensures seen == Asked(old(seen), window, key, now)
    {
      if key in seen && now < seen[key] { return true; }
      seen := seen[key := now + window];
      return false;
    }

    /** `purge`: the loop deletes the expired entries one by one. */
    method Purge(now: int)
      modifies this
      ensures seen == Purged(old(seen), now)
    {
      var todo := seen.Keys;
      while todo != {}
        invariant todo <= old(seen).Keys
        invariant forall k :: k in seen <==> k in old(seen) && (k in todo || now < old(seen)[k])
        invariant forall k | k in seen :: seen[k] == old(seen)[k]
        decreases todo
      {
        var k :| k in todo;
        todo := todo - {k};
        if now >= seen[k] { seen := seen - {k}; }
      }
    }
  }
}
