/** Directed graphs given by finite adjacency lists; a vertex without an entry has no successors. */
module Graphs {
  import opened Prelude

  type Graph<T> = map<T, seq<T>>

  function Succ<T(==)>(g: Graph<T>, x: T): seq<T> {
    if x in g then g[x] else []
  }

  /** Every vertex the graph mentions. */
  ghost function Vertices<T>(g: Graph<T>): set<T> {
    g.Keys + set k, i | k in g.Keys && 0 <= i < |g[k]| :: g[k][i]
  }

  ghost predicate IsPath<T>(g: Graph<T>, p: seq<T>) {
    |p| > 0 && forall i | 0 < i < |p| :: p[i] in Succ(g, p[i - 1])
  }

  ghost predicate Reaches<T(!new)>(g: Graph<T>, a: T, b: T) {
    exists p: seq<T> :: IsPath(g, p) && p[0] == a && p[|p| - 1] == b
  }

  ghost predicate IsCycle<T>(g: Graph<T>, p: seq<T>) {
    IsPath(g, p) && |p| >= 2 && p[0] == p[|p| - 1]
  }

  ghost predicate CycleReachable<T(!new)>(g: Graph<T>, a: T) {
    exists p: seq<T> :: IsCycle(g, p) && Reaches(g, a, p[0])
  }

  ghost predicate Acyclic<T(!new)>(g: Graph<T>) {
    forall p: seq<T> :: !IsCycle(g, p)
  }

  /** The order lists distinct vertices, each after all of its successors. */
  ghost predicate TopoOrder<T>(g: Graph<T>, order: seq<T>) {
    && NoDup(order)
    && forall i, d | 0 <= i < |order| && d in Succ(g, order[i]) :: d in order[..i]
  }

  /** A path that starts in a topological order only moves to earlier positions of it. */
  lemma {:induction false} PathDescends<T>(g: Graph<T>, order: seq<T>, p: seq<T>, i: nat) returns (k: nat)
    requires TopoOrder(g, order) && IsPath(g, p)
    requires i < |order| && order[i] == p[0]
    ensures k <= i && order[k] == p[|p| - 1]
    ensures |p| > 1 ==> k < i
    decreases |p|
  {
    if |p| == 1 {
      k := i;
    } else {
      var q := p[..|p| - 1];
      assert IsPath(g, q);
      var j := PathDescends(g, order, q, i);
      assert p[|p| - 1] in Succ(g, p[|p| - 2]);
      assert p[|p| - 1] in order[..j];
      k :| 0 <= k < j && order[k] == p[|p| - 1];
    }
  }

  /** No cycle starts at a vertex of a topological order. */
  lemma OrderRefutesCycle<T>(g: Graph<T>, order: seq<T>, p: seq<T>)
    requires TopoOrder(g, order) && IsCycle(g, p)
    ensures p[0] !in order
  {
    if p[0] in order {
      var i :| 0 <= i < |order| && order[i] == p[0];
      var k := PathDescends(g, order, p, i);
    }
  }

  /** A graph all of whose keys fit in one topological order has no cycle. */
  lemma OrderImpliesAcyclic<T(!new)>(g: Graph<T>, order: seq<T>)
    requires TopoOrder(g, order) && g.Keys <= Elems(order)
    ensures Acyclic(g)
  {
    forall p: seq<T> | IsCycle(g, p)
      ensures false
    {
      assert p[1] in Succ(g, p[0]);
      OrderRefutesCycle(g, order, p);
    }
  }

  /** Extending an order by a vertex whose successors it already contains. */
  lemma ExtendOrder<T>(g: Graph<T>, order: seq<T>, x: T)
    requires TopoOrder(g, order) && x !in order
    requires forall d | d in Succ(g, x) :: d in order
    ensures TopoOrder(g, order + [x])
  {
    var o := order + [x];
    forall i, d | 0 <= i < |o| && d in Succ(g, o[i])
      ensures d in o[..i]
    {
      if i < |order| {
        assert o[..i] == order[..i];
      } else {
        assert o[..i] == order;
      }
    }
  }

  /** Closing a path on one of its own vertices exhibits a cycle. */
  lemma ClosePathAt<T>(g: Graph<T>, p: seq<T>, j: nat)
    requires IsPath(g, p) && j < |p| && p[j] in Succ(g, p[|p| - 1])
    ensures IsCycle(g, p[j..] + [p[j]])
  {
  }

  lemma ClosePath<T(!new)>(g: Graph<T>, p: seq<T>, d: T)
    requires IsPath(g, p) && d in Succ(g, p[|p| - 1]) && d in p
    ensures CycleReachable(g, p[0])
  {
    var j :| 0 <= j < |p| && p[j] == d;
    ClosePathAt(g, p, j);
    assert IsPath(g, p[..j + 1]);
    assert Reaches(g, p[0], (p[j..] + [p[j]])[0]);
  }

  // ---------------------------------------------------------------------------------------------
  // Extending a graph by new rows

  ghost predicate Closed<T(!new)>(g: Graph<T>) {
    forall x, d | d in Succ(g, x) :: d in g
  }

  ghost predicate ExtendedBy<T(!new)>(base: Graph<T>, g: Graph<T>) {
    base.Keys <= g.Keys && forall x | x in base :: g[x] == base[x]
  }

  lemma {:induction false} StaysInside<T(!new)>(base: Graph<T>, g: Graph<T>, p: seq<T>)
    requires Closed(base) && ExtendedBy(base, g)
    requires IsPath(g, p) && p[0] in base
    ensures IsPath(base, p) && p[|p| - 1] in base
    decreases |p|
  {
    if |p| > 1 {
      var q := p[..|p| - 1];
      StaysInside(base, g, q);
      assert p[|p| - 1] in Succ(g, q[|q| - 1]);
      assert p[|p| - 1] in Succ(base, q[|q| - 1]);
      forall i | 0 < i < |p| ensures p[i] in Succ(base, p[i - 1]) {
        if i < |q| { assert q[i] in Succ(base, q[i - 1]); }
      }
    }
  }

  lemma CycleStartsNew<T(!new)>(base: Graph<T>, g: Graph<T>, p: seq<T>)
    requires Acyclic(base) && Closed(base) && ExtendedBy(base, g)
    requires IsCycle(g, p)
    ensures p[0] in g && p[0] !in base && CycleReachable(g, p[0])
  {
    assert p[1] in Succ(g, p[0]);
    assert IsPath(g, [p[0]]);
    assert Reaches(g, p[0], p[0]);
    if p[0] in base {
      StaysInside(base, g, p);
      NotACycle(base, p);
    }
  }

  lemma NotACycle<T(!new)>(g: Graph<T>, p: seq<T>)
    requires Acyclic(g)
    ensures !IsCycle(g, p)
  {
  }

  /** A graph extended by new rows is acyclic exactly when no cycle is reachable from a new row. */
  lemma AcyclicExtension<T(!new)>(base: Graph<T>, g: Graph<T>)
    requires Acyclic(base) && Closed(base) && ExtendedBy(base, g)
    ensures Acyclic(g) <==> forall x | x in g && x !in base :: !CycleReachable(g, x)
  {
    if !Acyclic(g) {
      var p: seq<T> :| IsCycle(g, p);
      CycleStartsNew(base, g, p);
    }
    if x :| CycleReachable(g, x) {
      var p: seq<T> :| IsCycle(g, p) && Reaches(g, x, p[0]);
    }
  }

  /** A new row whose successors are all old rows is on no cycle. */
  lemma FreshRowReachesNoCycle<T(!new)>(base: Graph<T>, g: Graph<T>, id: T)
    requires Acyclic(base) && Closed(base) && ExtendedBy(base, g)
    requires id !in base && g.Keys == base.Keys + {id} && forall d | d in g[id] :: d in base
    ensures !CycleReachable(g, id)
  {
    if CycleReachable(g, id) {
      var p: seq<T> :| IsCycle(g, p) && Reaches(g, id, p[0]);
      CycleStartsNew(base, g, p);
      assert p[1] in Succ(g, id);
      var q := p[1..];
      assert IsPath(g, q);
      StaysInside(base, g, q);
    }
  }
}
