/** Plugin load order: Kahn's topological sort, and the search that names a cycle when the sort gets stuck. */
module TopologicalSort {
  import opened Prelude
  import opened Graphs

  /** `MissingNode` is the KeyError for a dependent outside the node set; `Circular(None)` is the "unknown" answer. */
  datatype SortResult<T> = Sorted(order: seq<T>) | Circular(cycle: Option<seq<T>>) | MissingNode(node: T)

  datatype Color = White | Gray | Black

  /** Number of positions of `s` whose element lies in `u`. */
  ghost function Count<T>(s: seq<T>, u: set<T>): nat {
    if s == [] then 0 else (if s[0] in u then 1 else 0) + Count(s[1..], u)
  }

  ghost function Inside<T(!new)>(s: seq<T>, u: set<T>): (r: seq<T>)
    ensures forall x :: x in r <==> x in s && x in u
  {
    if s == [] then [] else (if s[0] in u then [s[0]] else []) + Inside(s[1..], u)
  }

  /** The dependency graph with everything outside the node set removed. */
  ghost function Restricted<T(!new)>(nodes: seq<T>, dependencies: Graph<T>): Graph<T> {
    map n | n in nodes :: Inside(Succ(dependencies, n), Elems(nodes))
  }

  lemma {:induction false} CountZero<T>(s: seq<T>, u: set<T>)
    ensures Count(s, u) == 0 <==> forall x | x in s :: x !in u
  {
    if s != [] {
      CountZero(s[1..], u);
      assert s == [s[0]] + s[1..];
    }
  }

  lemma {:induction false} CountRemove<T>(s: seq<T>, u: set<T>, x: T)
    requires x in u
    ensures Count(s, u) == Count(s, u - {x}) + multiset(s)[x]
  {
    if s != [] {
      CountRemove(s[1..], u, x);
      assert s == [s[0]] + s[1..];
    }
  }

  lemma {:induction false} CountSnoc<T>(s: seq<T>, x: T, u: set<T>)
    ensures Count(s + [x], u) == Count(s, u) + (if x in u then 1 else 0)
  {
    if s != [] {
      CountSnoc(s[1..], x, u);
      assert (s + [x])[1..] == s[1..] + [x];
    }
  }

  // ---------------------------------------------------------------------------------------------
  // Naming a cycle

  /** What a running search knows: the grey vertices are the current path, the black ones the finished order. */
  ghost predicate Searching<T(!new)>(g: Graph<T>, color: map<T, Color>, path: seq<T>, post: seq<T>) {
    && g.Keys == color.Keys
    && (forall n | n in path || n in post :: n in color)
    && (forall n | n in color :: (color[n] == Gray <==> n in path) && (color[n] == Black <==> n in post))
    && NoDup(path)
    && (path != [] ==> IsPath(g, path))
    && TopoOrder(g, post)
  }

  ghost function Finished<T>(color: map<T, Color>): set<T> {
    set n | n in color && color[n] == Black
  }

  /** The vertices a search has not started on. */
  ghost function Unseen<T>(g: Graph<T>, path: seq<T>, post: seq<T>): set<T> {
    g.Keys - Elems(path) - Elems(post)
  }

  lemma FinishVertex<T(!new)>(g: Graph<T>, color: map<T, Color>, path: seq<T>, node: T, post: seq<T>)
    requires Searching(g, color, path + [node], post)
    requires forall d | d in Succ(g, node) :: d in Finished(color)
    ensures Searching(g, color[node := Black], path, post + [node])
  {
    assert (path + [node])[|path|] == node;
    assert color[node] == Gray;
    assert forall n | n in path :: n in path + [node];
    forall i | 0 <= i < |path|
      ensures path[i] == (path + [node])[i] && path[i] != node
    {
      assert (path + [node])[i] != (path + [node])[|path|];
    }
    ExtendOrder(g, post, node);
  }

  lemma StartVertex<T(!new)>(g: Graph<T>, color: map<T, Color>, path: seq<T>, node: T, post: seq<T>)
    requires Searching(g, color, path, post)
    requires node in color && color[node] == White
    requires path != [] ==> node in Succ(g, path[|path| - 1])
    ensures Searching(g, color[node := Gray], path + [node], post)
  {
  }

  lemma OnPath<T(!new)>(g: Graph<T>, color: map<T, Color>, path: seq<T>, post: seq<T>, dep: T)
    requires Searching(g, color, path, post) && dep in color && color[dep] == Gray
    ensures dep in path && IsPath(g, path) && NoDup(path)
  {
  }

  lemma FewerUnseen<T(!new)>(g: Graph<T>, color: map<T, Color>, path: seq<T>, node: T, post: seq<T>, color': map<T,
                      Color>, post': seq<T>)
    requires Searching(g, color, path, post) && Searching(g, color', path + [node], post')
    requires node in color && color[node] == White && Finished(color) <= Finished(color')
    ensures Unseen(g, path + [node], post') < Unseen(g, path, post)
  {
    assert (path + [node])[|path|] == node;
    assert node in Unseen(g, path, post);
    forall n | n in Unseen(g, path + [node], post')
      ensures n in Unseen(g, path, post)
    {
      assert n in path ==> n in path + [node];
      assert n in post ==> n in Finished(color);
    }
  }

  lemma AllFinished<T(!new)>(g: Graph<T>, color: map<T, Color>, nodes: seq<T>, post: seq<T>)
    requires Searching(g, color, [], post)
    requires forall k | 0 <= k < |nodes| :: nodes[k] in Finished(color)
    ensures TopoOrder(g, post) && Elems(nodes) <= Elems(post)
  {
  }

  lemma CloseOnPath<T>(g: Graph<T>, path: seq<T>, idx: nat)
    requires IsPath(g, path) && NoDup(path) && idx < |path|
    requires path[idx] in Succ(g, path[|path| - 1])
    ensures IsCycle(g, path[idx..] + [path[idx]]) && NoDup((path[idx..] + [path[idx]])[1..])
  {
    assert (path[idx..] + [path[idx]])[1..] == path[idx + 1..] + [path[idx]];
  }

  /** `g` has an edge for exactly the dependencies between nodes of the set. */
  ghost predicate Links<T(!new)>(g: Graph<T>, nodes: seq<T>, dependencies: Graph<T>) {
    forall n, d {:trigger d in Succ(g, n)} ::
      d in Succ(g, n) <==> n in nodes && d in nodes && d in Succ(dependencies, n)
  }

  lemma SearchStart<T(!new)>(nodes: seq<T>, dependencies: Graph<T>, color: map<T, Color>)
    requires color == map n | n in nodes :: White
    ensures Links(Restricted(nodes, dependencies), nodes, dependencies)
    ensures Searching(Restricted(nodes, dependencies), color, [], [])
  {
  }

  /** The nested `dfs`: `color` and `path` are shared by the whole recursion. */
  method Dfs<T(==,!new)>(nodes: seq<T>, dependencies: Graph<T>, node: T, color: map<T, Color>, path: seq<T>,
                         ghost g: Graph<T>, ghost post: seq<T>)
    returns (found: bool, cycle: seq<T>, color': map<T, Color>, path': seq<T>, ghost post': seq<T>)
    requires Links(g, nodes, dependencies) && color.Keys == Elems(nodes)
    requires Searching(g, color, path, post)
    requires node in color && color[node] == White
    requires path != [] ==> node in Succ(g, path[|path| - 1])
    ensures found ==> IsCycle(g, cycle) && NoDup(cycle[1..])
    ensures !found ==> path' == path && Searching(g, color', path', post') && color'.Keys == color.Keys
    ensures !found ==> Finished(color) <= Finished(color') && node in Finished(color')
    decreases Unseen(g, path, post)
  {
    hide TopoOrder, IsPath, NoDup, IsCycle, Unseen, Searching;
    StartVertex(g, color, path, node, post);
    color', path', post', cycle := color[node := Gray], path + [node], post, [];
    ghost var gray := path';
    var deps := Succ(dependencies, node);
    for i := 0 to |deps|
      invariant path' == gray && Finished(color) <= Finished(color')
      invariant Searching(g, color', path', post') && color'.Keys == color.Keys
      invariant forall k | 0 <= k < i && deps[k] in nodes :: deps[k] in Finished(color')
    {
      var dep := deps[i];
      if dep !in nodes { continue; }
      assert dep in Succ(g, node) && dep in color';
      if color'[dep] == Gray {
        OnPath(g, color', path', post', dep);
        var idx := IndexOf(path', dep);
        CloseOnPath(g, path', idx);
        return true, path'[idx..] + [dep], color', path', post';
      }
      if color'[dep] == White {
        FewerUnseen(g, color, path, node, post, color', post');
        found, cycle, color', path', post' := Dfs(nodes, dependencies, dep, color', path', g, post');
        if found { return; }
      }
    }
    assert forall d | d in Succ(g, node) :: d in Finished(color') by {
      assert forall d | d in Succ(g, node) :: d in deps && d in nodes;
    }
    FinishVertex(g, color', path, node, post');
    color', path', post' := color'[node := Black], path'[..|path'| - 1], post' + [node];
    found := false;
  }

  method IndexOf<T(==)>(s: seq<T>, x: T) returns (i: nat)
    requires x in s
    ensures i < |s| && s[i] == x && x !in s[..i]
  {
    i := 0;
    while s[i] != x
      invariant i < |s| && x in s[i..] && x !in s[..i]
      decreases |s| - i
    {
      i := i + 1;
    }
  }

  /** `find_cycle`: `None` is the "unknown" answer, given only when a topological order of all nodes exists. */
  method FindCycle<T(==,!new)>(nodes: seq<T>, dependencies: Graph<T>) returns (r: Option<seq<T>>)
    ensures r.Some? ==> IsCycle(Restricted(nodes, dependencies), r.value) && NoDup(r.value[1..])
    ensures r.None? ==> exists order ::
                TopoOrder(Restricted(nodes, dependencies), order) && Elems(nodes) <= Elems(order)
  {
    ghost var g := Restricted(nodes, dependencies);
    hide TopoOrder, IsPath, NoDup, IsCycle, Restricted, Links, Searching;
    var color: map<T, Color> := map n | n in nodes :: White;
    SearchStart(nodes, dependencies, color);
    ghost var post: seq<T> := [];
    for i := 0 to |nodes|
      invariant Searching(g, color, [], post) && color.Keys == Elems(nodes)
      invariant forall k | 0 <= k < i :: nodes[k] in Finished(color)
    {
      if color[nodes[i]] == White {
        var found, cycle, color', _, post' := Dfs(nodes, dependencies, nodes[i], color, [], g, post);
        if found { return Some(cycle); }
        color, post := color', post';
      } else if color[nodes[i]] == Gray {
        OnPath(g, color, [], post, nodes[i]);
      }
    }
    AllFinished(g, color, nodes, post);
    return None;
  }

  // ---------------------------------------------------------------------------------------------
  // Kahn's algorithm

  /** `graph[d]` holds each dependent of `d` as often as that dependent names `d`. */
  ghost predicate CountsDependents<T(!new)>(nodes: seq<T>, dependencies: Graph<T>, graph: Graph<T>) {
    && graph.Keys == Elems(nodes)
    && (forall d, n | d in graph && n in graph[d] :: n in nodes)
    && forall d, n {:trigger multiset(graph[d])[n]} | d in nodes && n in nodes ::
         multiset(graph[d])[n] == multiset(Succ(dependencies, n))[d]
  }

  /** `inDegree[n]` counts the dependencies of `n` that are nodes. */
  ghost predicate CountsDependencies<T(!new)>(nodes: seq<T>, dependencies: Graph<T>, inDegree: map<T, int>) {
    && inDegree.Keys == Elems(nodes)
    && forall n | n in nodes :: inDegree[n] == Count(Succ(dependencies, n), Elems(nodes))
  }

  ghost predicate Built<T(!new)>(nodes: seq<T>, dependencies: Graph<T>, graph: Graph<T>, inDegree: map<T, int>) {
    CountsDependents(nodes, dependencies, graph) && CountsDependencies(nodes, dependencies, inDegree)
  }

  /** A dependency entry the first loop cannot store: its key is no node although one of its dependencies is. */
  ghost predicate Misplaced<T>(nodes: seq<T>, dependencies: Graph<T>, k: T) {
    k in dependencies && k !in nodes && exists d :: d in dependencies[k] && d in nodes
  }

  /** An entry outside the node set that depends on a node is misplaced. */
  lemma MisplacedExample()
    ensures Misplaced(["a"], map["b" := ["a"]], "b")
  {
    assert "a" in ["a"] && "a" in Succ(map["b" := ["a"]], "b");
  }

  lemma PushCounts<T>(s: seq<T>, x: T, y: T)
    ensures multiset(s + [x])[y] == multiset(s)[y] + (if x == y then 1 else 0)
  {
  }

  lemma AddEdge<T(!new)>(nodes: seq<T>, seen: Graph<T>, graph: Graph<T>, node: T, dep: T)
    requires CountsDependents(nodes, seen, graph) && node in seen && dep in nodes && node in nodes
    ensures CountsDependents(nodes, seen[node := seen[node] + [dep]], graph[dep := graph[dep] + [node]])
  {
    var seen', graph' := seen[node := seen[node] + [dep]], graph[dep := graph[dep] + [node]];
    forall d, n | d in nodes && n in nodes
      ensures multiset(graph'[d])[n] == multiset(Succ(seen', n))[d]
    {
      assert multiset(graph[d])[n] == multiset(Succ(seen, n))[d];
      PushCounts(graph[dep], node, n);
      PushCounts(seen[node], dep, d);
    }
  }

  lemma AddDependency<T(!new)>(nodes: seq<T>, seen: Graph<T>, graph: Graph<T>, inDegree: map<T, int>, node: T, dep: T)
    requires Built(nodes, seen, graph, inDegree)
    requires node in seen && dep in nodes && node in nodes
    ensures Built(nodes, seen[node := seen[node] + [dep]], graph[dep := graph[dep] + [node]],
                  inDegree[node := inDegree[node] + 1])
  {
    AddEdge(nodes, seen, graph, node, dep);
    hide CountsDependents;
    CountSnoc(seen[node], dep, Elems(nodes));
  }

  lemma SkipDependency<T(!new)>(nodes: seq<T>, seen: Graph<T>, graph: Graph<T>, inDegree: map<T, int>, node: T, dep: T)
    requires Built(nodes, seen, graph, inDegree)
    requires node in seen && dep !in nodes
    ensures Built(nodes, seen[node := seen[node] + [dep]], graph, inDegree)
  {
    CountSnoc(seen[node], dep, Elems(nodes));
  }

  lemma SkipKey<T(!new)>(nodes: seq<T>, seen: Graph<T>, graph: Graph<T>, inDegree: map<T, int>, node: T)
    requires Built(nodes, seen, graph, inDegree)
    requires node !in seen
    ensures Built(nodes, seen[node := []], graph, inDegree)
  {
  }

  lemma BuildStart<T(!new)>(nodes: seq<T>, graph: Graph<T>, inDegree: map<T, int>)
    requires graph == map n | n in nodes :: []
    requires inDegree == map n | n in nodes :: 0
    ensures Built(nodes, map[], graph, inDegree)
  {
  }

  /** The first loop: builds the reverse adjacency lists and the in-degrees, entries in any order. */
  method BuildGraph<T(==,!new)>(nodes: seq<T>, dependencies: Graph<T>)
    returns (missing: Option<T>, graph: Graph<T>, inDegree: map<T, int>)
    ensures missing.Some? ==> Misplaced(nodes, dependencies, missing.value)
    ensures missing.None? ==> forall k :: !Misplaced(nodes, dependencies, k)
    ensures missing.None? ==> Built(nodes, dependencies, graph, inDegree)
  {
    hide Built;
    graph := map n | n in nodes :: [];
    inDegree := map n | n in nodes :: 0;
    BuildStart(nodes, graph, inDegree);
    var todo := dependencies.Keys;
    ghost var seen: Graph<T> := map[];
    while todo != {}
      invariant todo <= dependencies.Keys && seen.Keys == dependencies.Keys - todo
      invariant forall k | k in seen :: seen[k] == dependencies[k] && !Misplaced(nodes, dependencies, k)
      invariant Built(nodes, seen, graph, inDegree)
      invariant graph.Keys == inDegree.Keys == Elems(nodes)
      decreases todo
    {
      var node :| node in todo;
      todo := todo - {node};
      SkipKey(nodes, seen, graph, inDegree, node);
      ghost var before := seen;
      seen := seen[node := []];
      for i := 0 to |dependencies[node]|
        invariant seen == before[node := dependencies[node][..i]]
        invariant node !in nodes ==> forall k | 0 <= k < i :: dependencies[node][k] !in nodes
        invariant Built(nodes, seen, graph, inDegree)
        invariant graph.Keys == inDegree.Keys == Elems(nodes)
      {
        var dep := dependencies[node][i];
        assert dependencies[node][..i + 1] == seen[node] + [dep];
        if dep in nodes {
          if node !in nodes {
            return Some(node), graph, inDegree;
          }
          AddDependency(nodes, seen, graph, inDegree, node, dep);
          graph := graph[dep := graph[dep] + [node]];
          inDegree := inDegree[node := inDegree[node] + 1];
        } else {
          SkipDependency(nodes, seen, graph, inDegree, node, dep);
        }
        seen := seen[node := seen[node] + [dep]];
      }
      assert dependencies[node][..|dependencies[node]|] == dependencies[node];
    }
    assert seen == dependencies;
    missing := None;
  }

  /** Kahn's invariant, with `rest` the entries of the current adjacency list still to be counted down:
      an in-degree counts the dependencies not yet in `result`, and is zero exactly for the nodes listed. */
  ghost predicate Sorting<T(!new)>(nodes: seq<T>, dependencies: Graph<T>, inDegree: map<T, int>, listed: seq<T>,
                                   remaining: set<T>, rest: seq<T>) {
    && inDegree.Keys == Elems(nodes)
    && NoDup(listed)
    && (forall n | n in listed :: n in nodes)
    && (forall n | n in nodes :: inDegree[n] == Count(Succ(dependencies, n), remaining) + multiset(rest)[n])
    && (forall n | n in nodes :: n in listed <==> inDegree[n] == 0)
  }

  /** Taking a node off the queue turns its dependents' counts into entries still to be counted down. */
  lemma TakeNode<T(!new)>(nodes: seq<T>, dependencies: Graph<T>, graph: Graph<T>, built: map<T, int>,
                          inDegree: map<T, int>, listed: seq<T>, remaining: set<T>, node: T)
    requires Built(nodes, dependencies, graph, built)
    requires Sorting(nodes, dependencies, inDegree, listed, remaining, [])
    requires node in nodes && node in remaining
    ensures Sorting(nodes, dependencies, inDegree, listed, remaining - {node}, graph[node])
  {
    forall n | n in nodes
      ensures inDegree[n] == Count(Succ(dependencies, n), remaining - {node}) + multiset(graph[node])[n]
    {
      CountRemove(Succ(dependencies, n), remaining, node);
      assert multiset(graph[node])[n] == multiset(Succ(dependencies, n))[node];
    }
  }

  /** Counting down one entry; the dependent joins the list exactly when its count reaches zero. */
  lemma CountDown<T(!new)>(nodes: seq<T>, dependencies: Graph<T>, inDegree: map<T, int>, listed: seq<T>,
                           remaining: set<T>, rest: seq<T>)
    requires Sorting(nodes, dependencies, inDegree, listed, remaining, rest) && rest != [] && rest[0] in nodes
    ensures var m := rest[0]; var inDegree' := inDegree[m := inDegree[m] - 1];
            Sorting(nodes, dependencies, inDegree', if inDegree'[m] == 0 then listed + [m] else listed,
                    remaining, rest[1..])
  {
    var m := rest[0];
    HeadCount(rest, m);
    assert inDegree[m] > 0 && m !in listed;
    forall n | n in nodes && n != m
      ensures inDegree[n] == Count(Succ(dependencies, n), remaining) + multiset(rest[1..])[n]
    {
      HeadCount(rest, n);
    }
  }

  lemma HeadCount<T>(s: seq<T>, y: T)
    requires s != []
    ensures multiset(s)[y] == multiset(s[1..])[y] + (if s[0] == y then 1 else 0)
  {
    assert s == [s[0]] + s[1..];
  }

  /** A listed node has all its dependencies among the nodes listed before it was taken. */
  lemma TakenInOrder<T(!new)>(nodes: seq<T>, dependencies: Graph<T>, inDegree: map<T, int>, listed: seq<T>,
                              remaining: set<T>, result: seq<T>, node: T)
    requires Sorting(nodes, dependencies, inDegree, listed, remaining, [])
    requires remaining == Elems(nodes) - Elems(result)
    requires TopoOrder(Restricted(nodes, dependencies), result) && node in listed && node !in result
    ensures TopoOrder(Restricted(nodes, dependencies), result + [node])
  {
    CountZero(Succ(dependencies, node), remaining);
    ExtendOrder(Restricted(nodes, dependencies), result, node);
  }

  /** A node left over when the queue runs dry depends on another one left over. */
  lemma LeftOverDependency<T(!new)>(nodes: seq<T>, dependencies: Graph<T>, inDegree: map<T, int>,
                                    remaining: set<T>, result: seq<T>, n: T) returns (d: T)
    requires Sorting(nodes, dependencies, inDegree, result, remaining, [])
    requires remaining == Elems(nodes) - Elems(result) && n in remaining
    ensures d in remaining && d in Succ(Restricted(nodes, dependencies), n)
  {
    assert inDegree[n] != 0;
    CountZero(Succ(dependencies, n), remaining);
    d :| d in Succ(dependencies, n) && d in remaining;
  }

  /** Hence, when a topological order of the nodes exists, no node is left over. */
  lemma {:induction false} NothingLeftOver<T(!new)>(nodes: seq<T>, dependencies: Graph<T>, inDegree: map<T, int>,
                                                    remaining: set<T>, result: seq<T>, order: seq<T>, i: nat)
    requires Sorting(nodes, dependencies, inDegree, result, remaining, [])
    requires remaining == Elems(nodes) - Elems(result)
    requires TopoOrder(Restricted(nodes, dependencies), order) && i <= |order|
    ensures forall k | 0 <= k < i :: order[k] !in remaining
  {
    hide Sorting, Restricted;
    if i > 0 {
      NothingLeftOver(nodes, dependencies, inDegree, remaining, result, order, i - 1);
      if order[i - 1] in remaining {
        var d := LeftOverDependency(nodes, dependencies, inDegree, remaining, result, order[i - 1]);
        assert d in order[..i - 1];
      }
    }
  }

  lemma SortStart<T(!new)>(nodes: seq<T>, dependencies: Graph<T>, graph: Graph<T>, inDegree: map<T, int>, queue: seq<T>)
    requires Built(nodes, dependencies, graph, inDegree)
    requires NoDup(queue) && forall n :: n in queue <==> n in nodes && inDegree[n] == 0
    ensures Sorting(nodes, dependencies, inDegree, queue, Elems(nodes), [])
  {
  }

  lemma ListedFacts<T(!new)>(nodes: seq<T>, dependencies: Graph<T>, inDegree: map<T, int>, listed: seq<T>,
                             remaining: set<T>, rest: seq<T>)
    requires Sorting(nodes, dependencies, inDegree, listed, remaining, rest)
    ensures inDegree.Keys == Elems(nodes) && NoDup(listed) && Elems(listed) <= Elems(nodes)
  {
  }

  lemma BuiltFacts<T(!new)>(nodes: seq<T>, dependencies: Graph<T>, graph: Graph<T>, inDegree: map<T, int>)
    requires Built(nodes, dependencies, graph, inDegree)
    ensures graph.Keys == inDegree.Keys == Elems(nodes)
    ensures forall d, n | d in graph && n in graph[d] :: n in nodes
  {
  }

  lemma QueueHead<T>(result: seq<T>, queue: seq<T>)
    requires NoDup(result + queue) && queue != []
    ensures queue[0] in result + queue && queue[0] !in result
    ensures result + queue == result + [queue[0]] + queue[1..]
  {
    assert (result + queue)[|result|] == queue[0];
    assert forall i | 0 <= i < |result| :: (result + queue)[i] == result[i];
  }

  lemma RestrictedStart<T(!new)>(nodes: seq<T>, dependencies: Graph<T>)
    ensures TopoOrder(Restricted(nodes, dependencies), [])
    ensures Restricted(nodes, dependencies).Keys == Elems(nodes)
  {
  }

  lemma NoneMissing<T>(nodes: seq<T>, result: seq<T>, order: seq<T>, remaining: set<T>)
    requires remaining == Elems(nodes) - Elems(result) && Elems(result) <= Elems(nodes) <= Elems(order)
    requires forall k | 0 <= k < |order| :: order[k] !in remaining
    ensures Elems(result) == Elems(nodes)
  {
    forall n | n in nodes ensures n in result {
      assert n in Elems(order);
      var k :| 0 <= k < |order| && order[k] == n;
      assert order[k] !in remaining && n in Elems(nodes);
      assert n in Elems(result);
    }
  }

  lemma SameElements<T>(nodes: seq<T>, result: seq<T>)
    requires NoDup(nodes) && NoDup(result) && Elems(result) <= Elems(nodes)
    ensures |result| == |nodes| <==> Elems(result) == Elems(nodes)
  {
    ElemsBound(nodes);
    ElemsBound(result);
    if |result| == |nodes| && Elems(result) != Elems(nodes) {
      SubsetSize(Elems(result), Elems(nodes));
    }
  }

  method InitialQueue<T(==,!new)>(nodes: seq<T>, inDegree: map<T, int>) returns (queue: seq<T>)
    requires NoDup(nodes) && inDegree.Keys == Elems(nodes)
    ensures NoDup(queue) && forall n :: n in queue <==> n in nodes && inDegree[n] == 0
  {
    queue := [];
    for i := 0 to |nodes|
      invariant forall n :: n in queue <==> n in nodes[..i] && inDegree[n] == 0
      invariant NoDup(queue)
    {
      if inDegree[nodes[i]] == 0 { queue := queue + [nodes[i]]; }
    }
    assert nodes[..|nodes|] == nodes;
  }

  /** The queue loop: takes nodes of in-degree zero until none is queued. */
  method Drain<T(==,!new)>(nodes: seq<T>, dependencies: Graph<T>, graph: Graph<T>, built: map<T, int>)
    returns (result: seq<T>, ghost inDegree': map<T, int>)
    requires NoDup(nodes) && Built(nodes, dependencies, graph, built)
    ensures NoDup(result) && Elems(result) <= Elems(nodes)
    ensures TopoOrder(Restricted(nodes, dependencies), result)
    ensures Sorting(nodes, dependencies, inDegree', result, Elems(nodes) - Elems(result), [])
  {
    hide Sorting, Built, Restricted, TopoOrder, Elems, NoDup;
    var inDegree := built;
    BuiltFacts(nodes, dependencies, graph, inDegree);
    var queue := InitialQueue(nodes, inDegree);
    SortStart(nodes, dependencies, graph, inDegree, queue);
    result := [];
    ghost var remaining := Elems(nodes);
    assert remaining == Elems(nodes) - Elems<T>([]) by { ElemsEmpty<T>(); }
    assert [] + queue == queue;
    RestrictedStart(nodes, dependencies);
    while queue != []
      invariant remaining == Elems(nodes) - Elems(result)
      invariant Sorting(nodes, dependencies, inDegree, result + queue, remaining, [])
      invariant TopoOrder(Restricted(nodes, dependencies), result)
      decreases remaining
    {
      var node := queue[0];
      ListedFacts(nodes, dependencies, inDegree, result + queue, remaining, []);
      QueueHead(result, queue);
      InElems(result + queue, node);
      InElems(nodes, node);
      InElems(result, node);
      TakenInOrder(nodes, dependencies, inDegree, result + queue, remaining, result, node);
      TakeNode(nodes, dependencies, graph, built, inDegree, result + queue, remaining, node);
      ElemsSnoc(result, node);
      queue, result, remaining := queue[1..], result + [node], remaining - {node};
      for k := 0 to |graph[node]|
        invariant Sorting(nodes, dependencies, inDegree, result + queue, remaining, graph[node][k..])
      {
        var neighbor := graph[node][k];
        ListedFacts(nodes, dependencies, inDegree, result + queue, remaining, graph[node][k..]);
        InElems(nodes, neighbor);
        CountDown(nodes, dependencies, inDegree, result + queue, remaining, graph[node][k..]);
        inDegree := inDegree[neighbor := inDegree[neighbor] - 1];
        if inDegree[neighbor] == 0 {
          assert result + queue + [neighbor] == result + (queue + [neighbor]);
          queue := queue + [neighbor];
        }
      }
    }
    assert result + [] == result;
    ListedFacts(nodes, dependencies, inDegree, result, remaining, []);
    inDegree' := inDegree;
  }

  /** What the queue loop listed is all the nodes when the search for a cycle found a topological order of them. */
  lemma CycleExists<T(!new)>(nodes: seq<T>, dependencies: Graph<T>, inDegree: map<T, int>, result: seq<T>)
    requires NoDup(nodes) && NoDup(result) && Elems(result) <= Elems(nodes)
    requires Sorting(nodes, dependencies, inDegree, result, Elems(nodes) - Elems(result), [])
    requires exists order :: TopoOrder(Restricted(nodes, dependencies), order) && Elems(nodes) <= Elems(order)
    ensures |result| == |nodes|
  {
    var order :| TopoOrder(Restricted(nodes, dependencies), order) && Elems(nodes) <= Elems(order);
    hide Sorting, TopoOrder, Restricted;
    NothingLeftOver(nodes, dependencies, inDegree, Elems(nodes) - Elems(result), result, order, |order|);
    NoneMissing(nodes, result, order, Elems(nodes) - Elems(result));
    SameElements(nodes, result);
  }

  lemma SortedIsAcyclic<T(!new)>(nodes: seq<T>, dependencies: Graph<T>, result: seq<T>)
    requires NoDup(nodes) && NoDup(result) && Elems(result) <= Elems(nodes) && |result| == |nodes|
    requires TopoOrder(Restricted(nodes, dependencies), result)
    ensures Elems(result) == Elems(nodes) && Acyclic(Restricted(nodes, dependencies))
  {
    SameElements(nodes, result);
    RestrictedStart(nodes, dependencies);
    hide TopoOrder, Restricted, Acyclic, NoDup;
    OrderImpliesAcyclic(Restricted(nodes, dependencies), result);
  }

  lemma CyclicNotAcyclic<T(!new)>(g: Graph<T>, p: seq<T>)
    requires IsCycle(g, p)
    ensures !Acyclic(g)
  {
  }

  /** Kahn's sort. `nodes` lists the keys of a dictionary, hence without repetition. */
  method TopologicalSort<T(==,!new)>(nodes: seq<T>, dependencies: Graph<T>) returns (r: SortResult<T>)
    requires NoDup(nodes)
    ensures r.MissingNode? ==> Misplaced(nodes, dependencies, r.node)
    ensures !r.MissingNode? ==> forall k :: !Misplaced(nodes, dependencies, k)
    ensures !r.MissingNode? ==> (r.Sorted? <==> Acyclic(Restricted(nodes, dependencies)))
    ensures r.Sorted? ==> TopoOrder(Restricted(nodes, dependencies), r.order) && Elems(r.order) == Elems(nodes)
    ensures r.Circular? ==> r.cycle.Some? && IsCycle(Restricted(nodes, dependencies), r.cycle.value)
                            && NoDup(r.cycle.value[1..])
  {
    hide TopoOrder, Restricted, Sorting, Acyclic, IsCycle, Misplaced, Built, NoDup, Elems;
    var missing, graph, inDegree := BuildGraph(nodes, dependencies);
    if missing.Some? { return MissingNode(missing.value); }
    var result;
    ghost var inDegree';
    result, inDegree' := Drain(nodes, dependencies, graph, inDegree);
    if |result| != |nodes| {
      var cycle := FindCycle(nodes, dependencies);
      if cycle.None? { CycleExists(nodes, dependencies, inDegree', result); }
      CyclicNotAcyclic(Restricted(nodes, dependencies), cycle.value);
      return Circular(cycle);
    }
    SortedIsAcyclic(nodes, dependencies, result);
    return Sorted(result);
  }
}
