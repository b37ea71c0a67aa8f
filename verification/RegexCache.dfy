/** The least-recently-used cache of compiled patterns. */
module RegexCache {
  import opened Prelude

  datatype Key = Key(pattern: string, flags: int)

  // ---------------------------------------------------------------------------------------------
  // What the access order means

  function Without<T(==)>(s: seq<T>, x: T): seq<T> {
    if s == [] then [] else if s[0] == x then s[1..] else [s[0]] + Without(s[1..], x)
  }

  /** The last `n` elements; all of them when there are fewer. */
  function LastN<T>(s: seq<T>, n: nat): seq<T> {
    if |s| <= n then s else s[|s| - n..]
  }

  /** The distinct keys of a request history, the most recently requested last. */
  function Recency<T(==)>(history: seq<T>): seq<T> {
    if history == [] then []
    else
      var last := history[|history| - 1];
      Without(Recency(history[..|history| - 1]), last) + [last]
  }

  /** The position of the last request for `x`. */
  function LastRequest<T(==)>(history: seq<T>, x: T): int {
    if history == [] then -1
    else if history[|history| - 1] == x then |history| - 1
    else LastRequest(history[..|history| - 1], x)
  }

  lemma {:induction false} WithoutFacts<T>(s: seq<T>, x: T)
    requires NoDup(s)
    ensures NoDup(Without(s, x)) && x !in Without(s, x)
    ensures |Without(s, x)| == if x in s then |s| - 1 else |s|
    ensures x !in s ==> Without(s, x) == s
  {
    if s != [] {
      assert s == [s[0]] + s[1..];
      assert s[0] !in s[1..];
      WithoutFacts(s[1..], x);
      WithoutElements(s[1..], x);
    }
  }

  lemma {:induction false} WithoutElements<T>(s: seq<T>, x: T)
    ensures forall i | 0 <= i < |Without(s, x)| :: Without(s, x)[i] in s
    ensures forall i | 0 <= i < |s| && s[i] != x :: s[i] in Without(s, x)
  {
    if s != [] { WithoutElements(s[1..], x); }
  }

  /** Removing a key of a suffix happens within the suffix. */
  lemma {:induction false} WithoutInSuffix<T>(s: seq<T>, x: T, i: nat)
    requires NoDup(s) && i <= |s| && x in s[i..]
    ensures i < |s| && |Without(s, x)| == |s| - 1 && Without(s, x)[i..] == Without(s[i..], x)
    decreases |s|
  {
    if i == 0 {
      assert s[0..] == s;
      WithoutFacts(s, x);
    } else {
      var j :| 0 <= j < |s[i..]| && s[i..][j] == x;
      assert s[i + j] == x && s[0] != x;
      assert NoDup(s[1..]);
      hide NoDup;
      assert s[i..] == s[1..][i - 1..];
      WithoutInSuffix(s[1..], x, i - 1);
      SkipFirst(s[0], Without(s[1..], x), i);
    }
  }

  lemma SkipFirst<T>(x: T, s: seq<T>, i: nat)
    requires 0 < i <= |s| + 1
    ensures ([x] + s)[i..] == s[i - 1..]
  {
  }

  /** Removing a key before a suffix leaves the suffix. */
  lemma {:induction false} WithoutBefore<T>(s: seq<T>, x: T, i: nat)
    requires NoDup(s) && i <= |s| && x in s[..i]
    ensures i > 0 && |Without(s, x)| == |s| - 1 && Without(s, x)[i - 1..] == s[i..]
    decreases |s|
  {
    if s[0] == x {
      assert Without(s, x) == s[1..] && s[1..][i - 1..] == s[i..];
    } else {
      assert s[..i] == [s[0]] + s[1..][..i - 1];
      WithoutBefore(s[1..], x, i - 1);
      assert s[1..][i - 1..] == s[i..];
      assert Without(s, x)[i - 1..] == Without(s[1..], x)[i - 2..];
    }
  }

  /** The cache's step on the kept keys: a cached key moves to the end, a new one is appended and pushes the oldest out
      when there are more than `n`. */
  function Requested<T(==)>(kept: seq<T>, x: T, n: nat): seq<T> {
    if x in kept then Without(kept, x) + [x]
    else if |kept| + 1 > n then (kept + [x])[1..]
    else kept + [x]
  }

  /** One request on the full recency list, seen through its last `n` entries. */
  lemma RequestOnLast<T>(all: seq<T>, x: T, n: nat)
    requires NoDup(all)
    ensures LastN(Without(all, x) + [x], n) == Requested(LastN(all, n), x, n)
  {
    hide *;
    if |all| <= n {
      ShortRequest(all, x, n);
    } else if x in LastN(all, n) {
      KeptRequest(all, x, n);
    } else if x in all {
      OldRequest(all, x, n);
    } else {
      NewRequest(all, x, n);
    }
  }

  /** Nothing has been pushed out yet. */
  lemma ShortRequest<T>(all: seq<T>, x: T, n: nat)
    requires NoDup(all) && |all| <= n
    ensures LastN(Without(all, x) + [x], n) == Requested(LastN(all, n), x, n)
  {
    var moved := Without(all, x) + [x];
    WithoutFacts(all, x);
    hide *;
    assert |moved| == if x in all then |all| else |all| + 1;
    LastNCases(all, n);
    if x in all {
      RequestedCases(all, x, n);
      LastNCases(moved, n);
    } else if |all| < n {
      RequestedCases(all, x, n);
      LastNCases(moved, n);
    } else {
      RequestedCases(all, x, n);
      LastNCases(moved, n);
    }
  }

  lemma LastNCases<T>(s: seq<T>, n: nat)
    ensures |s| <= n ==> LastN(s, n) == s
    ensures |s| == n + 1 ==> LastN(s, n) == s[1..]
    ensures |s| > n ==> LastN(s, n) == s[|s| - n..] && |LastN(s, n)| == n
  {
  }

  lemma RequestedCases<T>(kept: seq<T>, x: T, n: nat)
    ensures x in kept ==> Requested(kept, x, n) == Without(kept, x) + [x]
    ensures x !in kept && |kept| < n ==> Requested(kept, x, n) == kept + [x]
    ensures x !in kept && |kept| == n ==> Requested(kept, x, n) == (kept + [x])[1..]
  {
  }

  lemma SuffixSnoc<T>(s: seq<T>, x: T, i: nat)
    requires i <= |s|
    ensures (s + [x])[i..] == s[i..] + [x]
  {
  }

  lemma KeptRequest<T>(all: seq<T>, x: T, n: nat)
    requires NoDup(all) && |all| > n && x in LastN(all, n)
    ensures LastN(Without(all, x) + [x], n) == Requested(LastN(all, n), x, n)
  {
    hide *;
    WithoutKept(all, x, n);
    RequestedCases(LastN(all, n), x, n);
  }

  /** Removing a kept key happens among the kept ones. */
  lemma WithoutKept<T>(all: seq<T>, x: T, n: nat)
    requires NoDup(all) && |all| > n && x in LastN(all, n)
    ensures LastN(Without(all, x) + [x], n) == Without(LastN(all, n), x) + [x]
  {
    var i := |all| - n;
    hide NoDup, Without, LastN;
    LastNCases(all, n);
    WithoutInSuffix(all, x, i);
    ShorterByOne(all, Without(all, x), x, n);
  }

  lemma ShorterByOne<T>(all: seq<T>, w: seq<T>, x: T, n: nat)
    requires |all| > n && |w| == |all| - 1
    ensures n > 0 ==> LastN(w + [x], n) == w[|all| - n..] + [x]
  {
    if n > 0 { SuffixSnoc(w, x, |all| - n); }
  }

  /** The key was requested, but has been pushed out since. */
  lemma OldRequest<T>(all: seq<T>, x: T, n: nat)
    requires NoDup(all) && |all| > n && x !in LastN(all, n) && x in all
    ensures LastN(Without(all, x) + [x], n) == Requested(LastN(all, n), x, n)
  {
    hide *;
    BeforeLast(all, x, n);
    LastNCases(all, n);
    RequestedCases(LastN(all, n), x, n);
  }

  lemma BeforeLast<T>(all: seq<T>, x: T, n: nat)
    requires NoDup(all) && |all| > n && x !in LastN(all, n) && x in all
    ensures LastN(Without(all, x) + [x], n) == (LastN(all, n) + [x])[1..]
  {
    hide *;
    RemovedBefore(all, x, n);
    NewLast(Without(all, x), x, n);
  }

  /** Removing a key that is not kept leaves the kept ones. */
  lemma RemovedBefore<T>(all: seq<T>, x: T, n: nat)
    requires NoDup(all) && |all| > n && x !in LastN(all, n) && x in all
    ensures |Without(all, x)| >= n && LastN(Without(all, x), n) == LastN(all, n)
  {
    hide NoDup, Without;
    assert x in all[..|all| - n] by { assert all == all[..|all| - n] + all[|all| - n..]; }
    WithoutBefore(all, x, |all| - n);
  }

  /** The key was never requested. */
  lemma NewRequest<T>(all: seq<T>, x: T, n: nat)
    requires NoDup(all) && |all| > n && x !in LastN(all, n) && x !in all
    ensures LastN(Without(all, x) + [x], n) == Requested(LastN(all, n), x, n)
  {
    hide *;
    WithoutFacts(all, x);
    LastNCases(all, n);
    RequestedCases(LastN(all, n), x, n);
    NewLast(all, x, n);
  }

  lemma NewLast<T>(s: seq<T>, x: T, n: nat)
    requires |s| >= n
    ensures LastN(s + [x], n) == (LastN(s, n) + [x])[1..]
  {
    var i := |s| - n;
    assert (s + [x])[i + 1..] == (s[i..] + [x])[1..];
  }

  /** `Recency` lists exactly the requested keys, once each, in the order of their last requests. */
  lemma {:induction false} RecencyMeaning<T>(history: seq<T>)
    ensures NoDup(Recency(history)) && Elems(Recency(history)) == Elems(history)
    ensures forall i, j | 0 <= i < j < |Recency(history)| ::
              LastRequest(history, Recency(history)[i]) < LastRequest(history, Recency(history)[j])
  {
    if history != [] {
      var before, last := history[..|history| - 1], history[|history| - 1];
      RecencyMeaning(before);
      var r := Recency(before);
      WithoutFacts(r, last);
      WithoutElements(r, last);
      assert history == before + [last];
      var w := Without(r, last);
      forall x ensures x in w + [last] <==> x in history {
        assert x in Elems(r) <==> x in Elems(before);
        if x in r && x != last { var i :| 0 <= i < |r| && r[i] == x; }
      }
      forall i, j | 0 <= i < j < |w + [last]|
        ensures LastRequest(history, (w + [last])[i]) < LastRequest(history, (w + [last])[j])
      {
        assert w[i] != last && LastRequest(history, w[i]) == LastRequest(before, w[i]);
        LastRequestBound(before, w[i]);
        if j < |w| {
          var a, b := OrderIn(r, last, i, j);
        }
      }
    }
  }

  lemma RecencyStep<T>(history: seq<T>, x: T)
    ensures Recency(history + [x]) == Without(Recency(history), x) + [x]
  {
    assert (history + [x])[..|history|] == history;
  }

  /** What the access list should hold after a history of answered requests. */
  ghost function Tail<T>(history: seq<T>, maxSize: int): seq<T> {
    LastN(Recency(history), if maxSize < 0 then 0 else maxSize)
  }

  lemma TailStep<T>(history: seq<T>, x: T, maxSize: int)
    ensures NoDup(Tail(history, maxSize))
    ensures Tail(history + [x], maxSize)
         == Requested(Tail(history, maxSize), x, if maxSize < 0 then 0 else maxSize)
  {
    RecencyMeaning(history);
    RecencyStep(history, x);
    RequestOnLast(Recency(history), x, if maxSize < 0 then 0 else maxSize);
  }

  lemma MovedKeys<T>(kept: seq<T>, x: T)
    requires NoDup(kept) && x in kept
    ensures Elems(Without(kept, x) + [x]) == Elems(kept)
  {
    WithoutElements(kept, x);
    hide NoDup, Without;
    forall y ensures y in Without(kept, x) + [x] <==> y in kept {
      if y in kept && y != x { var i :| 0 <= i < |kept| && kept[i] == y; }
    }
  }

  lemma AddedKeys<T>(kept: seq<T>, x: T)
    requires NoDup(kept) && x !in kept
    ensures |Elems(kept + [x])| == |kept| + 1 && Elems(kept + [x]) == Elems(kept) + {x}
    ensures Elems((kept + [x])[1..]) == Elems(kept + [x]) - {(kept + [x])[0]}
  {
    ElemsBound(kept + [x]);
    ElemsSnoc(kept, x);
    FirstDropped(kept + [x]);
  }

  lemma FirstDropped<T>(s: seq<T>)
    requires NoDup(s) && s != []
    ensures Elems(s[1..]) == Elems(s) - {s[0]}
  {
    assert s == [s[0]] + s[1..];
  }

  lemma {:induction false} LastRequestBound<T>(history: seq<T>, x: T)
    ensures LastRequest(history, x) < |history|
  {
    if history != [] && history[|history| - 1] != x { LastRequestBound(history[..|history| - 1], x); }
  }

  /** Removing a key keeps the order of the others. */
  lemma {:induction false} OrderIn<T>(s: seq<T>, x: T, i: nat, j: nat) returns (a: nat, b: nat)
    requires i < j < |Without(s, x)|
    ensures a < b < |s| && s[a] == Without(s, x)[i] && s[b] == Without(s, x)[j]
  {
    if s[0] == x {
      a, b := i + 1, j + 1;
    } else if i > 0 {
      a, b := OrderIn(s[1..], x, i - 1, j - 1);
      a, b := a + 1, b + 1;
    } else {
      WithoutElements(s[1..], x);
      assert Without(s, x)[j] == Without(s[1..], x)[j - 1];
      b :| 0 <= b < |s[1..]| && s[1..][b] == Without(s[1..], x)[j - 1];
      a, b := 0, b + 1;
    }
  }

  // ---------------------------------------------------------------------------------------------
  // The cache

  /** The access list is the tail of the recency list, without repetition, and the map holds the same keys. */
  ghost predicate Consistent<V>(cache: map<Key, V>, accessOrder: seq<Key>, history: seq<Key>, maxSize: int) {
    accessOrder == Tail(history, maxSize) && NoDup(accessOrder) && cache.Keys == Elems(accessOrder)
  }

  /** Every entry is what compiling its key gives. */
  ghost predicate Correct<V>(cache: map<Key, V>, compile: Key -> Option<V>) {
    forall k | k in cache :: compile(k) == Some(cache[k])
  }

  lemma HitKeeps<V>(cache: map<Key, V>, accessOrder: seq<Key>, history: seq<Key>, maxSize: int, key: Key)
    requires Consistent(cache, accessOrder, history, maxSize) && key in cache
    ensures key in accessOrder
    ensures Consistent(cache, Without(accessOrder, key) + [key], history + [key], maxSize)
  {
    TailStep(history, key, maxSize);
    TailStep(history + [key], key, maxSize);
    InElems(accessOrder, key);
    MovedKeys(accessOrder, key);
  }

  lemma MissKeeps<V>(cache: map<Key, V>, accessOrder: seq<Key>, history: seq<Key>, maxSize: int, key: Key, v: V)
    requires Consistent(cache, accessOrder, history, maxSize) && key !in cache
    ensures |cache[key := v]| <= maxSize
            ==> Consistent(cache[key := v], accessOrder + [key], history + [key], maxSize)
    ensures |cache[key := v]| > maxSize
            ==> Consistent(cache[key := v] - {(accessOrder + [key])[0]}, (accessOrder + [key])[1..],
                           history + [key], maxSize)
  {
    TailStep(history, key, maxSize);
    TailStep(history + [key], key, maxSize);
    InElems(accessOrder, key);
    AddedKeys(accessOrder, key);
    hide Elems, NoDup, Tail, Without;
    MissCounts(cache, accessOrder, key, v);
    assert Requested(accessOrder, key, if maxSize < 0 then 0 else maxSize)
        == if |cache[key := v]| > maxSize then (accessOrder + [key])[1..] else accessOrder + [key];
  }

  lemma MissCounts<V>(cache: map<Key, V>, accessOrder: seq<Key>, key: Key, v: V)
    requires NoDup(accessOrder) && key !in accessOrder && cache.Keys == Elems(accessOrder)
    ensures cache[key := v].Keys == Elems(accessOrder + [key])
    ensures |cache[key := v]| == |accessOrder| + 1
    ensures (cache[key := v] - {(accessOrder + [key])[0]}).Keys == Elems((accessOrder + [key])[1..])
  {
    AddedKeys(accessOrder, key);
    hide Elems, NoDup;
    var more := cache[key := v];
    assert more.Keys == cache.Keys + {key};
    assert |more| == |more.Keys|;
  }

  class Cache<V> {
    var cache: map<Key, V>
    var accessOrder: seq<Key>
    const maxSize: int
    /** `re.compile`; `None` is the error it raises. */
    const compile: Key -> Option<V>
    /** The requests answered so far. */
    ghost var history: seq<Key>

    ghost predicate Valid()
      reads this
    {
      Consistent(cache, accessOrder, history, maxSize) && Correct(cache, compile)
    }

    constructor (maxSize: int, compile: Key -> Option<V>)
      ensures Valid() && history == [] && this.maxSize == maxSize && this.compile == compile
    {
      this.maxSize, this.compile, cache, accessOrder, history := maxSize, compile, map[], [], [];
    }

    /** `get`: the answer is always the compiled request, and an answered request joins the history. */
    method Get(key: Key) returns (r: Option<V>)
      requires Valid()
      modifies this
      ensures Valid() && r == compile(key)
      ensures history == if r.Some? then old(history) + [key] else old(history)
    {
      hide Consistent, Without;
      if key in cache {
        HitKeeps(cache, accessOrder, history, maxSize, key);
        if key in accessOrder { accessOrder := Without(accessOrder, key); }
        accessOrder, history := accessOrder + [key], history + [key];
        return Some(cache[key]);
      }
      r := compile(key);
      if r.None? { return; }
      MissKeeps(cache, accessOrder, history, maxSize, key, r.value);
      cache, accessOrder, history := cache[key := r.value], accessOrder + [key], history + [key];
      if |cache| > maxSize {
        var oldest := accessOrder[0];
        accessOrder, cache := accessOrder[1..], cache - {oldest};
      }
    }

    method Clear()
      requires Valid()
      modifies this
      ensures Valid() && history == [] && cache == map[]
    {
      cache, accessOrder, history := map[], [], [];
    }
  }
}
