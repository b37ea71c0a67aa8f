/** `checkCycle`: the depth-first search that guards enqueueing. */
module CycleCheck {
  import opened Prelude
  import opened Graphs

  /** The dependencies the search sees for a task: the submitted batch hides the stored rows. */
  function DepsForTask<T(==)>(stored: Graph<T>, virtualDeps: Graph<T>, id: T): seq<T> {
    if id in virtualDeps then virtualDeps[id] else Succ(stored, id)
  }

  /** The graph in question: stored rows, overlaid with the batch, overlaid with the new task. */
  function Overlay<T(==)>(stored: Graph<T>, virtualDeps: Graph<T>, id: T, deps: seq<T>): Graph<T> {
    (stored + virtualDeps)[id := deps]
  }

  /** What a running search knows: `path` is the recursion stack, `post` the finished vertices. */
  ghost predicate Searching<T>(g: Graph<T>, visited: set<T>, stack: set<T>, path: seq<T>, post: seq<T>) {
    && IsPath(g, path)
    && stack == Elems(path)
    && visited == stack + Elems(post)
    && TopoOrder(g, post)
    && (forall x | x in path :: x !in post)
  }

  /** `hasCycleFrom`: `visited` and `stack` are the two sets the recursion shares. */
  method HasCycleFrom<T(==,!new)>(stored: Graph<T>, virtualDeps: Graph<T>, currentId: T, visited: set<T>, stack: set<T>,
                             ghost g: Graph<T>, ghost path: seq<T>, ghost post: seq<T>)
    returns (found: bool, visited': set<T>, stack': set<T>, ghost post': seq<T>)
    requires Searching(g, visited, stack, path, post)
    requires currentId !in visited && currentId in Succ(g, path[|path| - 1])
    requires forall x | x != path[0] :: Succ(g, x) == DepsForTask(stored, virtualDeps, x)
    ensures found ==> CycleReachable(g, path[0])
    ensures !found ==> stack' == stack && Searching(g, visited', stack', path, post')
    ensures !found ==> post <= post' && currentId in post'
    decreases Vertices(g) - visited
  {
    visited' := visited + {currentId};
    stack' := stack + {currentId};
    post' := post;
    ghost var path' := path + [currentId];
    var deps := DepsForTask(stored, virtualDeps, currentId);
    assert currentId in Vertices(g);
    assert currentId !in path;
    for i := 0 to |deps|
      invariant Searching(g, visited', stack', path', post')
      invariant stack' == stack + {currentId} && post <= post'
      invariant forall k | 0 <= k < i :: deps[k] in post'
    {
      var depId := deps[i];
      assert depId in Succ(g, currentId);
      if depId !in visited' {
        assert Vertices(g) - visited' < Vertices(g) - visited by {
          assert currentId in Vertices(g) - visited;
          assert currentId !in Vertices(g) - visited';
        }
        found, visited', stack', post' :=
          HasCycleFrom(stored, virtualDeps, depId, visited', stack', g, path', post');
        if found { return; }
      } else if depId in stack' {
        ClosePath(g, path', depId);
        return true, visited', stack', post';
      }
    }
    stack' := stack' - {currentId};
    ExtendOrder(g, post', currentId);
    post' := post' + [currentId];
    return false, visited', stack', post';
  }

  /** A task all of whose dependencies lie in topological orders avoiding it reaches no cycle. */
  lemma NoCycleReachable<T(!new)>(g: Graph<T>, id: T)
    requires forall d | d in Succ(g, id) :: exists order :: TopoOrder(g, order) && d in order && id !in order
    ensures !CycleReachable(g, id)
  {
    if CycleReachable(g, id) {
      var c: seq<T> :| IsCycle(g, c) && Reaches(g, id, c[0]);
      var q: seq<T> :| IsPath(g, q) && q[0] == id && q[|q| - 1] == c[0];
      var p := if |q| > 1 then q[1..] else c[1..];
      assert IsPath(g, p);
      assert p[0] in Succ(g, id);
      var order :| TopoOrder(g, order) && p[0] in order && id !in order;
      var i :| 0 <= i < |order| && order[i] == p[0];
      var k := PathDescends(g, order, p, i);
      OrderRefutesCycle(g, order, c);
    }
  }

  /** `checkCycle` answers true exactly when a cycle is reachable from the task. */
  method CheckCycle<T(==,!new)>(id: T, deps: seq<T>, stored: Graph<T>, virtualDeps: Graph<T>) returns (found: bool)
    ensures found <==> CycleReachable(Overlay(stored, virtualDeps, id, deps), id)
  {
    ghost var g := Overlay(stored, virtualDeps, id, deps);
    for i := 0 to |deps|
      invariant forall k | 0 <= k < i :: exists order :: TopoOrder(g, order) && deps[k] in order && id !in order
    {
      var depId := deps[i];
      assert depId in Succ(g, id);
      assert IsPath(g, [id]);
      if depId == id {
        ClosePath(g, [id], id);
        return true;
      }
      var cyclic, _, _, post := HasCycleFrom(stored, virtualDeps, depId, {id}, {id}, g, [id], []);
      if cyclic { return true; }
      assert TopoOrder(g, post) && depId in post && id !in post;
    }
    NoCycleReachable(g, id);
    return false;
  }
}
