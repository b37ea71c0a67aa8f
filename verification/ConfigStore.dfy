/** The layered configuration store with its loops. */
module ConfigStore {
  import opened Prelude
  import opened ConfigTree
  import opened ConfigFlatten

  /** All keys are free of dots, and an empty top-level key holds no dictionary. */
  predicate GoodKeys(config: Node) {
    DotFreeKeys(config) && (config.Dict? && "" in config.entries ==> config.entries[""].Scalar?)
  }

  predicate DotFreeKeys(n: Node) {
    n.Dict? ==> forall k | k in n.entries :: DotFree(k) && DotFreeKeys(n.entries[k])
  }

  lemma {:induction false} LeafKeysDotFree(n: Node, path: Path)
    requires DotFreeKeys(n) && Lookup(n, path).Some?
    ensures forall i | 0 <= i < |path| :: DotFree(path[i])
    decreases |path|
  {
    if path != [] { LeafKeysDotFree(n.entries[path[0]], path[1..]); }
  }

  lemma LeafIsGood(config: Node, path: Path, v: int)
    requires config.Dict? && GoodKeys(config) && IsLeaf(config, path, v)
    ensures GoodPath(path) && Split(Dotted("", path)) == path
  {
    LeafKeysDotFree(config, path);
    if |path| > 1 {
      assert Lookup(config, path) == Lookup(config.entries[path[0]], path[1..]);
    }
    SplitInvertsDotted(path);
  }

  /** `_flatten_dict`; the keys come in any order. */
  method FlattenDict(n: Node, parentKey: string) returns (items: map<string, int>)
    requires n.Dict?
    ensures forall key | key in items :: exists path :: IsLeaf(n, path, items[key]) && Dotted(parentKey, path) == key
    ensures forall path, v | IsLeaf(n, path, v) :: Dotted(parentKey, path) in items
    decreases n
  {
    items := map[];
    var todo := n.entries.Keys;
    while todo != {}
      invariant todo <= n.entries.Keys
      invariant forall key | key in items ::
        exists path :: IsLeaf(n, path, items[key]) && Dotted(parentKey, path) == key
      invariant forall path, v | IsLeaf(n, path, v) && path[0] !in todo :: Dotted(parentKey, path) in items
      decreases todo
    {
      ghost var _ := SomeElement(todo);
      var k :| k in todo;
      var newKey := Extend(parentKey, k);
      ghost var before := items;
      if n.entries[k].Dict? {
        var inner := FlattenDict(n.entries[k], newKey);
        items := items + inner;
        forall key | key in items ensures exists path :: IsLeaf(n, path, items[key]) && Dotted(parentKey, path) == key {
          if key in inner {
            var path :| IsLeaf(n.entries[k], path, inner[key]) && Dotted(newKey, path) == key;
            LeafBelow(n, k, path, inner[key], parentKey);
          } else {
            assert key in before;
          }
        }
      } else {
        items := items[newKey := n.entries[k].data];
        LeafBelow(n, k, [], n.entries[k].data, parentKey);
      }
      forall path, v | IsLeaf(n, path, v) && path[0] == k ensures Dotted(parentKey, path) in items {
        assert path == [k] + path[1..];
        assert IsLeaf(n.entries[k], path[1..], v);
      }
      todo := todo - {k};
    }
  }

  lemma LeafBelow(n: Node, k: string, path: Path, v: int, parentKey: string)
    requires n.Dict? && k in n.entries && IsLeaf(n.entries[k], path, v)
    ensures IsLeaf(n, [k] + path, v) && Dotted(parentKey, [k] + path) == Dotted(Extend(parentKey, k), path)
  {
    assert ([k] + path)[1..] == path;
  }

  /** `_deep_update`; the keys of the source come in any order. */
  method DeepUpdate(target: Node, source: Node) returns (r: Node)
    requires target.Dict? && source.Dict?
    ensures r == Merge(target, source)
    decreases source
  {
    r := target;
    ghost var goal := Merge(target, source);
    var todo := source.entries.Keys;
    while todo != {}
      invariant r.Dict? && todo <= source.entries.Keys
      invariant forall k :: k in r.entries <==> k in target.entries || (k in source.entries && k !in todo)
      invariant forall k | k in r.entries :: r.entries[k] == if k in todo then target.entries[k] else goal.entries[k]
      decreases todo
    {
      ghost var _ := SomeElement(todo);
      var key :| key in todo;
      MergeEntry(target, source, key);
      var value := source.entries[key];
      if value.Dict? && key in r.entries && r.entries[key].Dict? {
        var inner := DeepUpdate(r.entries[key], value);
        r := Dict(r.entries[key := inner]);
      } else {
        assert key in target.entries ==> Merge(target.entries[key], value) == value;
        r := Dict(r.entries[key := value]);
      }
      todo := todo - {key};
    }
    assert forall k :: k in r.entries <==> k in goal.entries;
  }

  class Store {
    var names: seq<string>
    var layers: seq<Node>

    ghost predicate Valid()
      reads this
    {
      |names| == |layers| && AllDicts(layers)
    }

    /** The four standard layers, lowest priority first. */
    constructor ()
      ensures Valid() && names == ["defaults", "global", "plugin", "runtime"]
      ensures forall i | 0 <= i < |layers| :: layers[i] == Dict(map[])
    {
      names := ["defaults", "global", "plugin", "runtime"];
      layers := [Dict(map[]), Dict(map[]), Dict(map[]), Dict(map[])];
    }

    /** `get_layer`: the first layer of that name. */
    method GetLayer(name: string) returns (i: Option<nat>)
      requires Valid()
      ensures i.None? ==> name !in names
      ensures i.Some? ==> name in names && i.value == FirstIndex(names, name)
    {
      for j := 0 to |names|
        invariant name !in names[..j]
      {
        if names[j] == name {
          FirstIndexUnique(names, name, j);
          return Some(j);
        }
      }
      return None;
    }

    /** `ConfigLayer.get` and `has`: a cursor walks down the layer. */
    static method LayerGet(layer: Node, key: string) returns (r: Option<Node>)
      ensures r == Lookup(layer, Split(key))
    {
      var keys, value := Split(key), layer;
      for i := 0 to |keys|
        invariant Lookup(layer, keys) == Lookup(value, keys[i..])
      {
        assert keys[i..][1..] == keys[i + 1..];
        if !(value.Dict? && keys[i] in value.entries) { return None; }
        value := value.entries[keys[i]];
      }
      return Some(value);
    }

    method Get(key: string) returns (r: Option<Node>)
      requires Valid()
      ensures r == ConfigTree.Get(layers, Split(key))
    {
      var i := |layers|;
      assert layers[..i] == layers;
      while i > 0
        invariant i <= |layers| && ConfigTree.Get(layers, Split(key)) == ConfigTree.Get(layers[..i], Split(key))
      {
        assert layers[..i][..i - 1] == layers[..i - 1];
        i := i - 1;
        r := LayerGet(layers[i], key);
        if r.Some? { return; }
      }
      return None;
    }

    /** `to_dict`. */
    method ToDict() returns (r: Node)
      requires Valid()
      ensures r == Merged(layers)
    {
      r := Dict(map[]);
      for i := 0 to |layers|
        invariant r.Dict? && r == Merged(layers[..i])
      {
        assert layers[..i + 1][..i] == layers[..i];
        r := DeepUpdate(r, layers[i]);
      }
      assert layers[..|layers|] == layers;
    }

    /** `set`; a missing layer is the raised error. */
    method Set(key: string, value: Node, layer: string) returns (ok: bool)
      requires Valid()
      modifies this`layers
      ensures Valid() && ok == (layer in names)
      ensures !ok ==> layers == old(layers)
      ensures ok ==> var i := FirstIndex(names, layer);
                     layers == old(layers)[i := SetPath(old(layers)[i], Split(key), value)]
    {
      var i := GetLayer(layer);
      if i.None? { return false; }
      layers := layers[i.value := SetPath(layers[i.value], Split(key), value)];
      return true;
    }

    /** `update`: flattens the configuration and sets its dotted keys one by one, in any order. It fails only for a
        missing layer, with something to set. */
    method Update(config: Node, layer: string) returns (ok: bool)
      requires Valid() && config.Dict?
      modifies this`layers
      ensures Valid() && (ok <==> layer in names || Leafless(config))
      ensures layer !in names ==> layers == old(layers)
      ensures layer in names ==>
                exists done :: Flattened(config, done)
                  && layers == old(layers)[FirstIndex(names, layer)
                      := SetAll(old(layers)[FirstIndex(names, layer)], done)]
    {
      var items := FlattenDict(config, "");
      ItemsEmpty(config, items);
      var todo := items.Keys;
      ghost var done := [];
      NothingSet(layers, names, layer);
      assert DoneSo(items, todo, done);
      hide *;
      while todo != {}
        invariant Valid() && todo <= items.Keys && DoneSo(items, todo, done)
        invariant SetSo(old(layers), names, layer, layers, done)
        invariant layer !in names ==> todo == items.Keys
        decreases todo
      {
        ghost var _ := SomeElement(todo);
        var key :| key in todo;
        ghost var before := layers;
        ok := Set(key, Scalar(items[key]), layer);
        if !ok { return; }
        OneMoreSet(old(layers), names, layer, before, done, key, items[key]);
        DoneMore(items, todo, done, key);
        done, todo := done + [(key, items[key])], todo - {key};
      }
      AllDone(config, items, done);
      SetResult(old(layers), names, layer, layers, done);
      return true;
    }
  }

  /** `layers` is `was` with the keys set in the named layer. */
  ghost predicate SetSo(was: seq<Node>, names: seq<string>, layer: string, layers: seq<Node>,
                        done: seq<(string, int)>) {
    && |was| == |names| && AllDicts(was)
    && if layer in names
       then layers == was[FirstIndex(names, layer) := SetAll(was[FirstIndex(names, layer)], done)]
       else layers == was
  }

  lemma NothingSet(was: seq<Node>, names: seq<string>, layer: string)
    requires |was| == |names| && AllDicts(was)
    ensures SetSo(was, names, layer, was, [])
  {
  }

  lemma OneMoreSet(was: seq<Node>, names: seq<string>, layer: string, layers: seq<Node>, done: seq<(string, int)>,
                   key: string, v: int)
    requires SetSo(was, names, layer, layers, done) && layer in names
    requires |layers| == |names| && layers[FirstIndex(names, layer)].Dict?
    ensures var i := FirstIndex(names, layer);
            SetSo(was, names, layer, layers[i := SetPath(layers[i], Split(key), Scalar(v))], done + [(key, v)])
  {
    SetOneMore(was[FirstIndex(names, layer)], done, key, v);
    hide SetPath, Split, FirstIndex;
  }

  lemma SetResult(was: seq<Node>, names: seq<string>, layer: string, layers: seq<Node>, done: seq<(string, int)>)
    requires SetSo(was, names, layer, layers, done)
    ensures layer !in names ==> layers == was
    ensures layer in names ==>
              && |was| == |names| && was[FirstIndex(names, layer)].Dict?
              && layers == was[FirstIndex(names, layer) := SetAll(was[FirstIndex(names, layer)], done)]
  {
  }

  /** The keys set so far, in the order they were set. */
  ghost predicate DoneSo(items: map<string, int>, todo: set<string>, done: seq<(string, int)>) {
    && (forall i, j | 0 <= i < j < |done| :: done[i].0 != done[j].0)
    && (forall i | 0 <= i < |done| :: done[i].0 in items && done[i].0 !in todo && done[i].1 == items[done[i].0])
    && (forall k | k in items && k !in todo :: exists i | 0 <= i < |done| :: done[i].0 == k)
  }

  lemma DoneMore(items: map<string, int>, todo: set<string>, done: seq<(string, int)>, key: string)
    requires DoneSo(items, todo, done) && key in todo && key in items
    ensures DoneSo(items, todo - {key}, done + [(key, items[key])])
  {
    var more := done + [(key, items[key])];
    assert more[|done|] == (key, items[key]);
    forall k | k in items && k !in todo ensures exists i | 0 <= i < |more| :: more[i].0 == k {
      var i :| 0 <= i < |done| && done[i].0 == k;
      assert more[i].0 == k;
    }
  }

  ghost predicate IsItem(config: Node, key: string, v: int) {
    exists path :: IsLeaf(config, path, v) && Dotted("", path) == key
  }

  /** The list names the dotted key of every scalar of the configuration once, each with the value of such a scalar. */
  ghost predicate Flattened(config: Node, done: seq<(string, int)>) {
    && (forall i, j | 0 <= i < j < |done| :: done[i].0 != done[j].0)
    && (forall i | 0 <= i < |done| :: IsItem(config, done[i].0, done[i].1))
    && (forall path, v | IsLeaf(config, path, v) :: exists i | 0 <= i < |done| :: done[i].0 == Dotted("", path))
  }

  lemma AllDone(config: Node, items: map<string, int>, done: seq<(string, int)>)
    requires forall key | key in items :: exists path :: IsLeaf(config, path, items[key]) && Dotted("", path) == key
    requires forall path, v | IsLeaf(config, path, v) :: Dotted("", path) in items
    requires DoneSo(items, {}, done)
    ensures Flattened(config, done)
  {
    forall i | 0 <= i < |done| ensures IsItem(config, done[i].0, done[i].1) {
      var path :| IsLeaf(config, path, items[done[i].0]) && Dotted("", path) == done[i].0;
    }
  }

  /** Setting the keys one after the other. */
  ghost function SetAll(n: Node, done: seq<(string, int)>): (r: Node)
    requires n.Dict?
    ensures r.Dict?
  {
    if done == [] then n
    else SetPath(SetAll(n, done[..|done| - 1]), Split(done[|done| - 1].0), Scalar(done[|done| - 1].1))
  }

  lemma SetOneMore(n: Node, done: seq<(string, int)>, key: string, v: int)
    requires n.Dict?
    ensures SetAll(n, done + [(key, v)]) == SetPath(SetAll(n, done), Split(key), Scalar(v))
  {
    assert (done + [(key, v)])[..|done|] == done;
  }

  ghost function KeysFrom(done: seq<(string, int)>, n: nat): set<string> {
    set i | n <= i < |done| :: done[i].0
  }

  /** For good keys the order does not matter: setting them all merges the configuration, without its leafless
      dictionaries, into the layer. */
  lemma SetAllMerges(layer: Node, config: Node, done: seq<(string, int)>)
    requires layer.Dict? && config.Dict? && GoodKeys(config) && Flattened(config, done)
    ensures SetAll(layer, done) == Merge(layer, Prune(config))
  {
    SetSome(layer, config, done, |done|);
    assert done[..|done|] == done;
    assert KeysFrom(done, |done|) == {};
    AllApplied(config, SetAll(Dict(map[]), done));
  }

  /** Setting these keys in the layer is merging what they set; what is left of the configuration is to do. */
  ghost predicate SetAs(layer: Node, config: Node, done: seq<(string, int)>, todo: set<string>)
    requires layer.Dict?
  {
    && Applied(config, SetAll(Dict(map[]), done), todo)
    && SetAll(layer, done) == Merge(layer, SetAll(Dict(map[]), done))
  }

  lemma {:induction false} SetSome(layer: Node, config: Node, done: seq<(string, int)>, n: nat)
    requires layer.Dict? && config.Dict? && GoodKeys(config) && Flattened(config, done) && n <= |done|
    ensures SetAs(layer, config, done[..n], KeysFrom(done, n))
  {
    hide *;
    if n == 0 {
      SetNone(layer, config, done);
    } else {
      SetSome(layer, config, done, n - 1);
      NextItem(config, done, n - 1);
      SetNext(layer, config, done[..n - 1], KeysFrom(done, n - 1), done[n - 1].0, done[n - 1].1);
    }
  }

  lemma SetNone(layer: Node, config: Node, done: seq<(string, int)>)
    requires layer.Dict? && config.Dict? && Flattened(config, done)
    ensures SetAs(layer, config, done[..0], KeysFrom(done, 0))
  {
    MergeEmpty(layer);
    NothingApplied(config, done);
    hide Merge, Applied, Flattened;
    assert done[..0] == [];
  }

  lemma NextItem(config: Node, done: seq<(string, int)>, n: nat)
    requires Flattened(config, done) && n < |done|
    ensures IsItem(config, done[n].0, done[n].1) && done[n].0 in KeysFrom(done, n)
    ensures KeysFrom(done, n + 1) == KeysFrom(done, n) - {done[n].0}
    ensures done[..n + 1] == done[..n] + [(done[n].0, done[n].1)]
  {
    hide IsItem;
  }

  lemma SetNext(layer: Node, config: Node, done: seq<(string, int)>, todo: set<string>, key: string, v: int)
    requires layer.Dict? && config.Dict? && GoodKeys(config) && IsItem(config, key, v) && key in todo
    requires SetAs(layer, config, done, todo)
    ensures SetAs(layer, config, done + [(key, v)], todo - {key})
  {
    var applied := SetAll(Dict(map[]), done);
    SetOneMore(Dict(map[]), done, key, v);
    SetOneMore(layer, done, key, v);
    var path :| IsLeaf(config, path, v) && Dotted("", path) == key;
    hide Applied, SetAll, Merge, SetPath, GoodKeys, IsLeaf, Dotted, Split;
    LeafIsGood(config, path, v);
    ApplyOne(config, applied, todo, path, v);
    SetCommutes(layer, applied, path, v);
  }

  lemma NothingApplied(config: Node, done: seq<(string, int)>)
    requires config.Dict? && Flattened(config, done)
    ensures Applied(config, Dict(map[]), KeysFrom(done, 0))
  {
  }

  lemma {:induction false} SetPathLeaf(n: Node, path: Path, v: int, q: Path, w: int)
    requires n.Dict? && path != [] && IsLeaf(SetPath(n, path, Scalar(v)), q, w)
    ensures q == path || IsLeaf(n, q, w)
    decreases |path|
  {
    if q != [] && q[0] == path[0] {
      assert q == [q[0]] + q[1..] && path == [path[0]] + path[1..];
      if |path| == 1 {
        assert Lookup(Scalar(v), q[1..]) == Some(Scalar(w));
        assert q[1..] == [] == path[1..];
      } else {
        var child := Child(n, path[0]);
        SetPathLeaf(child, path[1..], v, q[1..], w);
      }
    }
  }

  /** What is set on an empty layer: no leafless dictionaries, and every leaf where the parts of a key say. */
  lemma {:induction false} SetOnEmpty(done: seq<(string, int)>)
    ensures Full(SetAll(Dict(map[]), done))
    ensures forall q, w | IsLeaf(SetAll(Dict(map[]), done), q, w) ::
              exists i | 0 <= i < |done| :: q == Split(done[i].0)
  {
    var n := SetAll(Dict(map[]), done);
    if done != [] {
      var before, last := done[..|done| - 1], done[|done| - 1];
      SetOnEmpty(before);
      var n' := SetAll(Dict(map[]), before);
      SetFull(n', Split(last.0), last.1);
      forall q, w | IsLeaf(n, q, w) ensures exists i | 0 <= i < |done| :: q == Split(done[i].0) {
        SetPathLeaf(n', Split(last.0), last.1, q, w);
        if q != Split(last.0) {
          var i :| 0 <= i < |before| && q == Split(before[i].0);
          assert done[i] == before[i];
        }
      }
    }
  }

  /** The parts of a flattened key are a path that flattening keeps, when the keys of its own path have no dots. */
  lemma {:induction false} PartsAreGood(path: Path)
    requires path != [] && forall i | 0 <= i < |path| :: DotFree(path[i])
    ensures GoodPath(Split(Dotted("", path)))
    decreases |path|
  {
    if GoodPath(path) { SplitInvertsDotted(path); } else { PartsAreGood(path[1..]); }
  }

  lemma {:induction false} GoodLeavesDotFree(n: Node)
    requires Full(n) && forall q, w | IsLeaf(n, q, w) :: forall i | 0 <= i < |q| :: DotFree(q[i])
    ensures DotFreeKeys(n)
    decreases n
  {
    if n.Dict? {
      forall k | k in n.entries ensures DotFree(k) && DotFreeKeys(n.entries[k]) {
        var path, v := SomeLeaf(n.entries[k]);
        assert ([k] + path)[1..] == path;
        assert IsLeaf(n, [k] + path, v);
        assert ([k] + path)[0] == k;
        forall q, w | IsLeaf(n.entries[k], q, w) ensures forall i | 0 <= i < |q| :: DotFree(q[i]) {
          assert ([k] + q)[1..] == q;
          assert IsLeaf(n, [k] + q, w);
          assert forall i | 0 <= i < |q| :: q[i] == ([k] + q)[i + 1];
        }
        GoodLeavesDotFree(n.entries[k]);
      }
    }
  }

  lemma GoodLeavesGoodKeys(config: Node)
    requires config.Dict? && Full(config) && forall q, w | IsLeaf(config, q, w) :: GoodPath(q)
    ensures GoodKeys(config)
  {
    GoodLeavesDotFree(config);
    if "" in config.entries && config.entries[""].Dict? {
      var path, v := SomeLeaf(config.entries[""]);
      assert ([""] + path)[1..] == path;
      assert IsLeaf(config, [""] + path, v) && path != [];
    }
  }

  /** A configuration that the empty layer takes over unchanged has good keys and no leafless dictionaries. */
  lemma TakenOverIsGood(config: Node, done: seq<(string, int)>)
    requires config.Dict? && Flattened(config, done) && SetAll(Dict(map[]), done) == config
    ensures GoodKeys(config) && Full(config)
  {
    SetOnEmpty(done);
    forall q, w | IsLeaf(config, q, w) ensures forall i | 0 <= i < |q| :: DotFree(q[i]) {
      var i :| 0 <= i < |done| && q == Split(done[i].0);
      PartsDotFree(done[i].0);
    }
    forall q, w | IsLeaf(config, q, w) ensures GoodPath(q) {
      var i :| 0 <= i < |done| && q == Split(done[i].0);
      assert IsItem(config, done[i].0, done[i].1);
      var path :| IsLeaf(config, path, done[i].1) && Dotted("", path) == done[i].0;
      PartsAreGood(path);
    }
    GoodLeavesGoodKeys(config);
  }

  /** Setting the flattened keys one by one is a deep merge on every layer exactly for configurations with dot-free
      keys, no dictionary below an empty top-level key, and no leafless dictionary. */
  lemma UpdateIsMergeExactly(config: Node, done: seq<(string, int)>)
    requires config.Dict? && Flattened(config, done)
    ensures (forall layer: Node | layer.Dict? :: SetAll(layer, done) == Merge(layer, config))
       <==> GoodKeys(config) && Full(config)
  {
    if GoodKeys(config) && Full(config) {
      forall layer: Node | layer.Dict? ensures SetAll(layer, done) == Merge(layer, config) {
        SetAllMerges(layer, config, done);
        PruneOfFull(config);
      }
    } else if forall layer: Node | layer.Dict? :: SetAll(layer, done) == Merge(layer, config) {
      MergeEmpty(config);
      assert SetAll(Dict(map[]), done) == Merge(Dict(map[]), config);
      TakenOverIsGood(config, done);
    }
  }

  /** For instance, below an empty top-level key `update` sets another path than the merge, though no key has a dot and
      no dictionary is leafless. */
  lemma LostLevel()
    ensures var config := Dict(map["" := Dict(map["b" := Scalar(1)])]);
            && DotFreeKeys(config) && Full(config) && Flattened(config, [("b", 1)])
            && SetAll(Dict(map[]), [("b", 1)]) == Dict(map["b" := Scalar(1)])
            && Merge(Dict(map[]), config) == config != Dict(map["b" := Scalar(1)])
  {
    var inner := Dict(map["b" := Scalar(1)]);
    var config := Dict(map["" := inner]);
    MergeEmpty(config);
    SplitPlain("b");
    assert [("b", 1)][..0] == [];
    assert SetAll(Dict(map[]), []) == Dict(map[]);
    assert SetAll(Dict(map[]), [("b", 1)]) == SetPath(Dict(map[]), ["b"], Scalar(1));
    assert "" in config.entries && "" !in inner.entries;
    assert ["", "b"][1..] == ["b"] && ["b"][1..] == [];
    assert IsLeaf(config, ["", "b"], 1) && Dotted("", ["", "b"]) == "b";
    assert IsItem(config, "b", 1);
    forall path, v | IsLeaf(config, path, v) ensures Dotted("", path) == "b" {
      OnlyKey("", inner, path, v);
      OnlyKey("b", Scalar(1), path[1..], v);
      assert path == ["", "b"];
    }
  }

  lemma OnlyKey(k: string, n: Node, path: Path, v: int)
    requires IsLeaf(Dict(map[k := n]), path, v)
    ensures path != [] && path[0] == k && IsLeaf(n, path[1..], v)
    ensures n.Scalar? ==> path == [k]
  {
  }

  lemma ItemsEmpty(config: Node, items: map<string, int>)
    requires forall key | key in items :: exists path :: IsLeaf(config, path, items[key]) && Dotted("", path) == key
    requires forall path, v | IsLeaf(config, path, v) :: Dotted("", path) in items
    ensures items.Keys == {} <==> Leafless(config)
  {
    if Leafless(config) {
      forall path, v ensures !IsLeaf(config, path, v) { NoLeaf(config, path, v); }
    } else {
      var path, v := SomeLeaf(config);
    }
  }

  ghost function FirstIndex(names: seq<string>, name: string): (i: nat)
    requires name in names
    ensures i < |names| && names[i] == name && name !in names[..i]
  {
    if names[0] == name then 0 else 1 + FirstIndex(names[1..], name)
  }

  lemma {:induction false} FirstIndexUnique(names: seq<string>, name: string, i: nat)
    requires i < |names| && names[i] == name && name !in names[..i]
    ensures FirstIndex(names, name) == i
  {
    if i > 0 {
      assert names[..i][0] == names[0] && names[1..][..i - 1] == names[..i][1..];
      FirstIndexUnique(names[1..], name, i - 1);
    }
  }

  /** `applied` holds exactly the leaves of the configuration whose keys are no longer to do. */
  ghost predicate Applied(config: Node, applied: Node, todo: set<string>) {
    && applied.Dict? && Full(applied)
    && forall path, v :: IsLeaf(applied, path, v) <==> IsLeaf(config, path, v) && Dotted("", path) !in todo
  }

  /** Nothing stands in the way of the next key. */
  lemma ApplyOne(config: Node, applied: Node, todo: set<string>, path: Path, v: int)
    requires config.Dict? && GoodKeys(config) && Applied(config, applied, todo)
    requires IsLeaf(config, path, v) && Dotted("", path) in todo
    ensures path != [] && !Blocks(applied, path)
    ensures Applied(config, SetPath(applied, path, Scalar(v)), todo - {Dotted("", path)})
  {
    if Blocks(applied, path) {
      var q, w := BlockingLeaf(applied, path);
      LeafEnds(config, q, w, path, v);
    }
    if Lookup(applied, path).Some? && Lookup(applied, path).value.Dict? {
      var q, w := LeafUnder(applied, path);
      LeafEnds(config, path, v, q, w);
    }
    SetFull(applied, path, v);
    var next := SetPath(applied, path, Scalar(v));
    forall q, w ensures IsLeaf(next, q, w) <==> IsLeaf(config, q, w) && Dotted("", q) !in todo - {Dotted("", path)} {
      SetLeaf(applied, path, v, q, w);
      if IsLeaf(config, q, w) && Dotted("", q) == Dotted("", path) {
        LeafIsGood(config, q, w);
        LeafIsGood(config, path, v);
      }
    }
  }

  lemma AllApplied(config: Node, applied: Node)
    requires config.Dict? && Applied(config, applied, {})
    ensures applied == Prune(config)
  {
    PruneFull(config);
    forall path, v ensures IsLeaf(applied, path, v) <==> IsLeaf(Prune(config), path, v) {
      PruneLeaf(config, path, v);
    }
    LeavesDetermine(applied, Prune(config));
  }

  lemma {:induction false} BlockingLeaf(n: Node, path: Path) returns (q: Path, w: int)
    requires Blocks(n, path)
    ensures IsLeaf(n, q, w) && |q| < |path| && q == path[..|q|]
    decreases |path|
  {
    if n.Scalar? {
      q, w := [], n.data;
    } else {
      q, w := BlockingLeaf(n.entries[path[0]], path[1..]);
      assert ([path[0]] + q)[1..] == q;
      q := [path[0]] + q;
    }
  }

  lemma {:induction false} LeafUnder(n: Node, path: Path) returns (q: Path, w: int)
    requires n.Dict? && Full(n) && path != [] && Lookup(n, path).Some? && Lookup(n, path).value.Dict?
    ensures IsLeaf(n, q, w) && |path| < |q| && path == q[..|path|]
    decreases |path|
  {
    var m := n.entries[path[0]];
    if |path| == 1 {
      q, w := SomeLeaf(m);
    } else {
      q, w := LeafUnder(m, path[1..]);
    }
    assert ([path[0]] + q)[1..] == q;
    q := [path[0]] + q;
  }

  /** No leaf lies beyond another. */
  lemma {:induction false} LeafEnds(n: Node, q: Path, w: int, path: Path, v: int)
    requires IsLeaf(n, q, w) && IsLeaf(n, path, v) && |q| <= |path| && q == path[..|q|]
    ensures q == path
    decreases |q|
  {
    if q != [] {
      assert q[0] == path[0] && q[1..] == path[1..][..|q| - 1];
      LeafEnds(n.entries[q[0]], q[1..], w, path[1..], v);
      assert q == [q[0]] + q[1..] && path == [path[0]] + path[1..];
    }
  }

  /** So for good keys `update` leaves what a deep merge of the configuration would leave, in any key order, exactly
      when the layer already has a dictionary wherever the configuration has one without scalars. */
  lemma UpdateIsMerge(layer: Node, config: Node)
    requires layer.Dict? && config.Dict?
    ensures Merge(layer, Prune(config)) == Merge(layer, config) <==> Covered(layer, config)
    ensures Full(config) ==> Merge(layer, Prune(config)) == Merge(layer, config)
  {
    PrunedMerge(layer, config);
    if Full(config) { PruneOfFull(config); }
  }
}
