/** Configuration trees: lookup along a path, setting a path, and the recursive merge of two trees. */
module ConfigTree {
  import opened Prelude

  /** A node is a dictionary or any other value. */
  datatype Node = Scalar(data: int) | Dict(entries: map<string, Node>)

  type Path = seq<string>

  function Lookup(n: Node, path: Path): Option<Node> {
    if path == [] then Some(n)
    else if n.Dict? && path[0] in n.entries then Lookup(n.entries[path[0]], path[1..])
    else None
  }

  function Child(n: Node, key: string): Node {
    if n.Dict? && key in n.entries && n.entries[key].Dict? then n.entries[key] else Dict(map[])
  }

  /** `ConfigLayer.set`: missing and scalar nodes on the way are replaced by dictionaries. */
  function SetPath(n: Node, path: Path, v: Node): (r: Node)
    requires n.Dict? && path != []
    ensures r.Dict?
    decreases |path|
  {
    if |path| == 1 then Dict(n.entries[path[0] := v])
    else Dict(n.entries[path[0] := SetPath(Child(n, path[0]), path[1..], v)])
  }

  /** `_deep_update` of a node by another: dictionaries are merged key by key, anything else is replaced. */
  function Merge(t: Node, s: Node): Node
    decreases s
  {
    if t.Dict? && s.Dict? then
      Dict(map k | k in t.entries.Keys + s.entries.Keys ::
        if k !in s.entries then t.entries[k]
        else if k !in t.entries then s.entries[k]
        else Merge(t.entries[k], s.entries[k]))
    else s
  }

  /** A scalar stands at a proper prefix of the path. */
  predicate Blocks(n: Node, path: Path) {
    path != [] && (n.Scalar? || (path[0] in n.entries && Blocks(n.entries[path[0]], path[1..])))
  }

  /** What a path finds in a merge. */
  lemma {:induction false} LookupMerge(t: Node, s: Node, path: Path)
    ensures Lookup(Merge(t, s), path) ==
            if Lookup(s, path).Some? && Lookup(t, path).Some? then
              Some(Merge(Lookup(t, path).value, Lookup(s, path).value))
            else if Lookup(s, path).Some? then Lookup(s, path)
            else if Blocks(s, path) then None else Lookup(t, path)
    decreases |path|
  {
    if path != [] && t.Dict? && s.Dict? && path[0] in s.entries && path[0] in t.entries {
      LookupMerge(t.entries[path[0]], s.entries[path[0]], path[1..]);
    }
  }

  /** What any path finds after any node was set at a path: the node and what is in it at the path and beyond, a
      dictionary on the way to it, and elsewhere what it found before. */
  lemma {:induction false} SetExact(n: Node, path: Path, v: Node, q: Path)
    requires n.Dict? && path != []
    ensures var found := Lookup(SetPath(n, path, v), q);
            if path <= q then found == Lookup(v, q[|path|..])
            else if q <= path then found.Some? && found.value.Dict?
            else found == Lookup(n, q)
    decreases |path|
  {
    if q != [] {
      var k := path[0];
      assert path == [k] + path[1..] && q == [q[0]] + q[1..];
      if q[0] == k && |path| > 1 {
        SetExact(Child(n, k), path[1..], v, q[1..]);
        assert path <= q ==> q[|path|..] == q[1..][|path| - 1..];
      }
    }
  }

  // ---------------------------------------------------------------------------------------------
  // Layers

  /** `to_dict`: all layers merged, lowest priority first. */
  function Merged(layers: seq<Node>): Node {
    if layers == [] then Dict(map[]) else Merge(Merged(layers[..|layers| - 1]), layers[|layers| - 1])
  }

  /** `get`: the answer of the highest layer that has the path. */
  function Get(layers: seq<Node>, path: Path): Option<Node> {
    if layers == [] then None
    else
      var top := Lookup(layers[|layers| - 1], path);
      if top.Some? then top else Get(layers[..|layers| - 1], path)
  }

  /** No layer above the highest one that has the path holds a scalar at a proper prefix of it. */
  predicate Unblocked(layers: seq<Node>, path: Path) {
    layers == [] || Lookup(layers[|layers| - 1], path).Some?
    || (!Blocks(layers[|layers| - 1], path) && Unblocked(layers[..|layers| - 1], path))
  }

  ghost predicate AllDicts(layers: seq<Node>) {
    forall i | 0 <= i < |layers| :: layers[i].Dict?
  }

  /** The merged view has a path exactly when some layer has it and no higher layer blocks it, and it shows a scalar
      there exactly when layered lookup does. */
  lemma {:induction false} MergedExact(layers: seq<Node>, path: Path)
    requires path != []
    ensures Lookup(Merged(layers), path).Some? <==> Get(layers, path).Some? && Unblocked(layers, path)
    ensures forall v :: Lookup(Merged(layers), path) == Some(Scalar(v))
                   <==> Get(layers, path) == Some(Scalar(v)) && Unblocked(layers, path)
  {
    if layers != [] {
      var rest, top := layers[..|layers| - 1], layers[|layers| - 1];
      MergedExact(rest, path);
      LookupMerge(Merged(rest), top, path);
    }
  }

  /** No path is a scalar in one layer and a dictionary in another. */
  ghost predicate NoConflict(layers: seq<Node>) {
    forall i, j, path: Path {:trigger Lookup(layers[i], path), Lookup(layers[j], path)} |
      0 <= i < |layers| && 0 <= j < |layers| && Lookup(layers[i], path).Some? && Lookup(layers[j], path).Some? ::
      Lookup(layers[i], path).value.Scalar? == Lookup(layers[j], path).value.Scalar?
  }

  lemma {:induction false} BlockedBelow(a: Node, b: Node, path: Path) returns (q: Path)
    requires Blocks(a, path) && Lookup(b, path).Some?
    ensures Lookup(a, q).Some? && Lookup(b, q).Some?
    ensures Lookup(a, q).value.Scalar? && Lookup(b, q).value.Dict?
    decreases |path|
  {
    if a.Scalar? {
      q := [];
    } else {
      q := BlockedBelow(a.entries[path[0]], b.entries[path[0]], path[1..]);
      q := [path[0]] + q;
    }
  }

  lemma {:induction false} NoConflictUnblocked(layers: seq<Node>, path: Path)
    requires NoConflict(layers) && Get(layers, path).Some?
    ensures Unblocked(layers, path)
  {
    var n := |layers| - 1;
    if Lookup(layers[n], path).None? {
      var rest := layers[..n];
      assert forall i | 0 <= i < |rest| :: rest[i] == layers[i];
      NoConflictUnblocked(rest, path);
      if Blocks(layers[n], path) {
        var j := Provider(rest, path);
        var q := BlockedBelow(layers[n], rest[j], path);
        assert Lookup(layers[j], q).Some?;
      }
    }
  }

  lemma {:induction false} Provider(layers: seq<Node>, path: Path) returns (j: nat)
    requires Get(layers, path).Some?
    ensures j < |layers| && Lookup(layers[j], path) == Get(layers, path)
  {
    var n := |layers| - 1;
    if Lookup(layers[n], path).Some? { j := n; } else { j := Provider(layers[..n], path); }
  }

  /** Without such conflicts the merged view and layered lookup agree on every path and every scalar. */
  lemma MergedAgrees(layers: seq<Node>, path: Path)
    requires NoConflict(layers) && path != []
    ensures Lookup(Merged(layers), path).Some? <==> Get(layers, path).Some?
    ensures forall v :: Lookup(Merged(layers), path) == Some(Scalar(v)) <==> Get(layers, path) == Some(Scalar(v))
  {
    MergedExact(layers, path);
    if Get(layers, path).Some? { NoConflictUnblocked(layers, path); }
  }

  // ---------------------------------------------------------------------------------------------
  // Whole values

  /** Every path of `t` is in `s` too, or ends beyond a scalar of `s`. */
  ghost predicate Covers(s: Node, t: Node) {
    forall path: Path | Lookup(t, path).Some? :: Lookup(s, path).Some? || Blocks(s, path)
  }

  /** A merge changes nothing exactly when the lower tree has nothing to add. */
  lemma {:induction false} MergeAddsNothing(t: Node, s: Node)
    ensures Merge(t, s) == s <==> Covers(s, t)
    decreases s
  {
    if Merge(t, s) == s {
      forall path | Lookup(t, path).Some? ensures Lookup(s, path).Some? || Blocks(s, path) {
        LookupMerge(t, s, path);
      }
    }
    if Covers(s, t) && t.Dict? && s.Dict? {
      forall k | k in t.entries ensures k in s.entries && Merge(t.entries[k], s.entries[k]) == s.entries[k] {
        KeyCovered(t, s, k);
        MergeAddsNothing(t.entries[k], s.entries[k]);
      }
      assert Merge(t, s).entries == s.entries;
    }
  }

  lemma KeyCovered(t: Node, s: Node, k: string)
    requires t.Dict? && s.Dict? && k in t.entries && Covers(s, t)
    ensures k in s.entries && Covers(s.entries[k], t.entries[k])
  {
    assert Lookup(t, [k]) == Some(t.entries[k]);
    assert !Blocks(s, [k]);
    forall path | Lookup(t.entries[k], path).Some?
      ensures Lookup(s.entries[k], path).Some? || Blocks(s.entries[k], path)
    {
      assert ([k] + path)[1..] == path;
      assert Lookup(t, [k] + path).Some?;
    }
  }

  lemma {:induction false} LookupFurther(n: Node, path: Path, more: Path)
    ensures Lookup(n, path + more)
         == if Lookup(n, path).Some? then Lookup(Lookup(n, path).value, more) else None
    ensures Lookup(n, path).Some? ==> Blocks(n, path + more) == Blocks(Lookup(n, path).value, more)
    decreases |path|
  {
    if path == [] {
      assert path + more == more;
    } else {
      assert (path + more)[1..] == path[1..] + more;
      if n.Dict? && path[0] in n.entries { LookupFurther(n.entries[path[0]], path[1..], more); }
    }
  }

  /** Below the path, the layers under the highest one that has it show nothing that this one does not have or block. */
  ghost predicate AddsNothing(layers: seq<Node>, path: Path) {
    layers == [] ||
    var rest, top := layers[..|layers| - 1], layers[|layers| - 1];
    if Lookup(top, path).Some?
    then forall more: Path | Get(rest, path + more).Some? && Unblocked(rest, path + more) ::
           Lookup(top, path + more).Some? || Blocks(top, path + more)
    else AddsNothing(rest, path)
  }

  /** One layer over a merge: the value is the layer's own exactly when the merge has nothing to add below the path. */
  lemma TopValue(below: Node, top: Node, path: Path)
    requires Lookup(top, path).Some?
    ensures Lookup(Merge(below, top), path) == Lookup(top, path)
       <==> forall more: Path | Lookup(below, path + more).Some? ::
              Lookup(top, path + more).Some? || Blocks(top, path + more)
  {
    LookupMerge(below, top, path);
    forall more: Path
      ensures Lookup(top, path + more) == Lookup(Lookup(top, path).value, more)
      ensures Blocks(top, path + more) == Blocks(Lookup(top, path).value, more)
      ensures Lookup(below, path + more)
           == if Lookup(below, path).Some? then Lookup(Lookup(below, path).value, more) else None
    {
      LookupFurther(top, path, more);
      LookupFurther(below, path, more);
    }
    if Lookup(below, path).Some? { MergeAddsNothing(Lookup(below, path).value, Lookup(top, path).value); }
    hide Lookup, Blocks, Merge;
  }

  /** The merged view shows at a path what layered lookup answers, dictionaries included, exactly when no layer has the
      path, or no higher layer blocks it and no lower layer adds anything below it. */
  lemma {:induction false} ValueExact(layers: seq<Node>, path: Path)
    requires path != []
    ensures Lookup(Merged(layers), path) == Get(layers, path)
       <==> Get(layers, path).None? || (Unblocked(layers, path) && AddsNothing(layers, path))
  {
    if layers != [] {
      var rest, top := layers[..|layers| - 1], layers[|layers| - 1];
      ValueExact(rest, path);
      MergedExact(layers, path);
      LookupMerge(Merged(rest), top, path);
      if Lookup(top, path).Some? {
        TopValue(Merged(rest), top, path);
        forall more: Path
          ensures Lookup(Merged(rest), path + more).Some?
             <==> Get(rest, path + more).Some? && Unblocked(rest, path + more)
        {
          MergedExact(rest, path + more);
        }
        hide Lookup, Blocks, Merge;
      }
    }
  }

  /** A dictionary that two layers share keys in differs, without any conflict between them. */
  lemma DictionaryExample()
    ensures var layers := [Dict(map["a" := Dict(map["x" := Scalar(1)])]),
                           Dict(map["a" := Dict(map["y" := Scalar(2)])])];
            && Get(layers, ["a"]) == Some(Dict(map["y" := Scalar(2)]))
            && Lookup(Merged(layers), ["a"]) == Some(Dict(map["x" := Scalar(1), "y" := Scalar(2)]))
            && Unblocked(layers, ["a"])
  {
    var x, y := Dict(map["x" := Scalar(1)]), Dict(map["y" := Scalar(2)]);
    var low, high := Dict(map["a" := x]), Dict(map["a" := y]);
    var layers := [low, high];
    assert layers[..1] == [low] && [low][..0] == [];
    assert Lookup(high, ["a"]) == Some(y);
    assert Merge(Dict(map[]), low) == low;
    assert Merged([low]) == Merge(Merged([]), low) == low;
    assert Merged(layers) == Merge(low, high);
    assert Merge(x, y) == Dict(map["x" := Scalar(1), "y" := Scalar(2)]);
    assert Merge(low, high) == Dict(map["a" := Merge(x, y)]);
    assert Lookup(Merged(layers), ["a"]) == Some(Merge(x, y));
  }

  /** With a conflict they can differ: a scalar "a" over a dictionary "a" hides "a.b" from the merged view only. */
  lemma ConflictExample()
    ensures var layers := [Dict(map["a" := Dict(map["b" := Scalar(1)])]), Dict(map["a" := Scalar(2)])];
            Get(layers, ["a", "b"]) == Some(Scalar(1)) && Lookup(Merged(layers), ["a", "b"]) == None
  {
    var low, high := Dict(map["a" := Dict(map["b" := Scalar(1)])]), Dict(map["a" := Scalar(2)]);
    var layers := [low, high];
    var path := ["a", "b"];
    assert layers[..1] == [low] && [low][..0] == [] && path[1..] == ["b"] && ["b"][1..] == [];
    assert Lookup(low, path) == Lookup(Dict(map["b" := Scalar(1)]), ["b"]) == Lookup(Scalar(1), []) == Some(Scalar(1));
    assert Lookup(high, path) == Lookup(Scalar(2), ["b"]) == None;
    assert Blocks(high, path) by { assert Blocks(Scalar(2), ["b"]); }
    assert Get([low], path) == Some(Scalar(1));
    assert Get(layers, path) == Get([low], path);
    MergedExact(layers, path);
    assert !Unblocked(layers, path);
  }

  /** Layered lookup of a path just set in one layer: a higher layer that has the path still answers, otherwise the
      value set. */
  lemma {:induction false} SetThenGet(layers: seq<Node>, i: nat, path: Path, v: Node)
    requires i < |layers| && layers[i].Dict? && path != []
    ensures var after := Get(layers[i := SetPath(layers[i], path, v)], path);
            if exists j | i < j < |layers| :: Lookup(layers[j], path).Some? then after == Get(layers, path)
            else after == Some(v)
  {
    var layers', n := layers[i := SetPath(layers[i], path, v)], |layers| - 1;
    if i == n {
      SetExact(layers[i], path, v, path);
      assert Lookup(v, path[|path|..]) == Some(v);
    } else if Lookup(layers[n], path).None? {
      SetThenGet(layers[..n], i, path, v);
      assert layers'[..n] == layers[..n][i := SetPath(layers[i], path, v)];
      assert forall j | 0 <= j < n :: layers[..n][j] == layers[j];
    }
  }
}
