/** Dotted keys: flattening a configuration, and applying it key by key instead of merging it. */
module ConfigFlatten {
  import opened Prelude
  import opened ConfigTree

  // ---------------------------------------------------------------------------------------------
  // Dotted keys

  predicate DotFree(key: string) {
    '.' !in key
  }

  /** `key.split(".")`. */
  function Split(key: string): (parts: Path)
    ensures parts != []
  {
    if key == "" then [""]
    else
      var rest := Split(key[1..]);
      if key[0] == '.' then [""] + rest else [[key[0]] + rest[0]] + rest[1..]
  }

  /** The key `_flatten_dict` gives a path below a parent; an empty parent adds no dot. */
  function Dotted(parent: string, path: Path): string
    decreases |path|
  {
    if path == [] then parent else Dotted(Extend(parent, path[0]), path[1..])
  }

  function Extend(parent: string, key: string): string {
    if parent != "" then parent + "." + key else key
  }

  lemma {:induction false} SplitAppend(parent: string, key: string)
    requires DotFree(key)
    ensures Split(key) == [key]
    ensures Split(parent + "." + key) == Split(parent) + [key]
  {
    SplitPlain(key);
    var s := parent + "." + key;
    if parent == "" {
      assert s == "." + key && s[1..] == key;
    } else {
      SplitAppend(parent[1..], key);
      assert s[1..] == parent[1..] + "." + key;
    }
  }

  lemma {:induction false} SplitPlain(key: string)
    requires DotFree(key)
    ensures Split(key) == [key]
  {
    if key != "" {
      SplitPlain(key[1..]);
      assert [key[0]] + key[1..] == key;
      assert key[0] != '.' && Split(key[1..]) == [key[1..]];
      assert Split(key[1..])[1..] == [];
    }
  }

  /** Keys without dots whose top level is not the empty string: a dotted key splits back into its path. */
  predicate GoodPath(path: Path) {
    path != [] && (|path| == 1 || path[0] != "") && forall i | 0 <= i < |path| :: DotFree(path[i])
  }

  lemma {:induction false} SplitDotted(parent: string, path: Path)
    requires parent != "" && forall i | 0 <= i < |path| :: DotFree(path[i])
    ensures Split(Dotted(parent, path)) == Split(parent) + path
    decreases |path|
  {
    if path != [] {
      SplitAppend(parent, path[0]);
      SplitDotted(parent + "." + path[0], path[1..]);
      assert Split(parent) + [path[0]] + path[1..] == Split(parent) + path;
    }
  }

  lemma GoodPathSplits(path: Path)
    requires GoodPath(path)
    ensures Split(Dotted("", path)) == path
  {
    SplitPlain(path[0]);
    if |path| > 1 {
      SplitDotted(path[0], path[1..]);
    } else {
      assert path[1..] == [];
    }
    assert [path[0]] + path[1..] == path;
  }

  lemma {:induction false} PartsDotFree(key: string)
    ensures forall i | 0 <= i < |Split(key)| :: DotFree(Split(key)[i])
  {
    if key != "" { PartsDotFree(key[1..]); }
  }

  /** A dotted key has no more parts than the path it was built from. */
  lemma {:induction false} NoMoreParts(path: Path)
    requires path != [] && forall i | 0 <= i < |path| :: DotFree(path[i])
    ensures |Split(Dotted("", path))| <= |path|
    decreases |path|
  {
    if GoodPath(path) { GoodPathSplits(path); } else { NoMoreParts(path[1..]); }
  }

  /** Splitting undoes dotting exactly for dot-free keys that are not below an empty top-level key. */
  lemma SplitInvertsDotted(path: Path)
    ensures Split(Dotted("", path)) == path <==> GoodPath(path)
  {
    if GoodPath(path) {
      GoodPathSplits(path);
    } else if Split(Dotted("", path)) == path {
      PartsDotFree(Dotted("", path));
      NoMoreParts(path[1..]);
    }
  }

  /** For instance, below an empty top-level key the level is lost. */
  lemma EmptyTopKeyIsLost()
    ensures Split(Dotted("", ["", "b"])) == ["b"]
  {
    assert ["", "b"][1..] == ["b"] && ["b"][1..] == [];
    SplitPlain("b");
  }

  // ---------------------------------------------------------------------------------------------
  // Leaves

  ghost predicate IsLeaf(n: Node, path: Path, v: int) {
    Lookup(n, path) == Some(Scalar(v))
  }

  ghost predicate SameLeaves(a: Node, b: Node) {
    forall path, v :: IsLeaf(a, path, v) <==> IsLeaf(b, path, v)
  }

  /** A dictionary with no scalar anywhere inside. */
  predicate Leafless(n: Node) {
    n.Dict? && forall k | k in n.entries :: Leafless(n.entries[k])
  }

  /** The tree without its leafless sub-dictionaries. */
  function Prune(n: Node): Node {
    if n.Dict? then Dict(map k | k in n.entries && !Leafless(n.entries[k]) :: Prune(n.entries[k])) else n
  }

  /** No sub-dictionary is leafless. */
  predicate Full(n: Node) {
    n.Dict? ==> forall k | k in n.entries :: !Leafless(n.entries[k]) && Full(n.entries[k])
  }

  lemma {:induction false} SomeLeaf(n: Node) returns (path: Path, v: int)
    requires !Leafless(n)
    ensures IsLeaf(n, path, v)
  {
    if n.Scalar? {
      path, v := [], n.data;
    } else {
      var k :| k in n.entries && !Leafless(n.entries[k]);
      path, v := SomeLeaf(n.entries[k]);
      assert ([k] + path)[1..] == path;
      path := [k] + path;
    }
  }

  lemma {:induction false} NoLeaf(n: Node, path: Path, v: int)
    requires Leafless(n)
    ensures !IsLeaf(n, path, v)
    decreases |path|
  {
    if path != [] && path[0] in n.entries { NoLeaf(n.entries[path[0]], path[1..], v); }
  }

  lemma ChildLeaves(a: Node, b: Node, k: string)
    requires SameLeaves(a, b) && a.Dict? && b.Dict? && k in a.entries && k in b.entries
    ensures SameLeaves(a.entries[k], b.entries[k])
  {
    forall path, v ensures IsLeaf(a.entries[k], path, v) <==> IsLeaf(b.entries[k], path, v) {
      assert ([k] + path)[1..] == path;
      assert IsLeaf(a, [k] + path, v) <==> IsLeaf(b, [k] + path, v);
    }
  }

  /** Full trees are determined by their leaves. */
  lemma {:induction false} LeavesDetermine(a: Node, b: Node)
    requires Full(a) && Full(b) && SameLeaves(a, b) && a.Dict? == b.Dict?
    ensures a == b
    decreases a
  {
    if a.Scalar? {
      assert IsLeaf(a, [], a.data);
    } else {
      SameKeys(a, b);
      SameKeys(b, a);
      forall k | k in a.entries ensures a.entries[k] == b.entries[k] {
        ChildLeaves(a, b, k);
        var x, y := a.entries[k], b.entries[k];
        assert IsLeaf(x, [], if x.Scalar? then x.data else 0) <==> IsLeaf(y, [], if x.Scalar? then x.data else 0);
        assert IsLeaf(x, [], if y.Scalar? then y.data else 0) <==> IsLeaf(y, [], if y.Scalar? then y.data else 0);
        LeavesDetermine(x, y);
      }
    }
  }

  lemma SameKeys(a: Node, b: Node)
    requires a.Dict? && b.Dict? && Full(a) && SameLeaves(a, b)
    ensures a.entries.Keys <= b.entries.Keys
  {
    forall k | k in a.entries ensures k in b.entries {
      var path, v := SomeLeaf(a.entries[k]);
      assert ([k] + path)[1..] == path;
      assert IsLeaf(a, [k] + path, v);
      assert IsLeaf(b, [k] + path, v);
    }
  }

  lemma {:induction false} PruneLeaf(n: Node, path: Path, v: int)
    ensures IsLeaf(Prune(n), path, v) <==> IsLeaf(n, path, v)
    decreases |path|
  {
    if path != [] && n.Dict? && path[0] in n.entries {
      PruneLeaf(n.entries[path[0]], path[1..], v);
      if Leafless(n.entries[path[0]]) { NoLeaf(n.entries[path[0]], path[1..], v); }
    }
  }

  lemma {:induction false} PruneFull(n: Node)
    ensures Full(Prune(n))
    ensures !Leafless(n) ==> !Leafless(Prune(n))
  {
    if n.Dict? {
      forall k | k in n.entries
        ensures Full(Prune(n.entries[k])) && (!Leafless(n.entries[k]) ==> !Leafless(Prune(n.entries[k])))
      {
        PruneFull(n.entries[k]);
      }
      if !Leafless(n) {
        var k :| k in n.entries && !Leafless(n.entries[k]);
        assert k in Prune(n).entries;
      }
    }
  }

  lemma {:induction false} PruneOfFull(n: Node)
    requires Full(n)
    ensures Prune(n) == n
  {
    if n.Dict? {
      forall k | k in n.entries ensures Prune(n.entries[k]) == n.entries[k] { PruneOfFull(n.entries[k]); }
    }
  }

  // ---------------------------------------------------------------------------------------------
  // Setting one path

  lemma {:induction false} SetLeaf(n: Node, path: Path, v: int, q: Path, w: int)
    requires n.Dict? && path != [] && !Blocks(n, path)
    requires Lookup(n, path).Some? ==> Lookup(n, path).value.Scalar?
    ensures IsLeaf(SetPath(n, path, Scalar(v)), q, w) <==> if q == path then w == v else IsLeaf(n, q, w)
    decreases |path|
  {
    if q != [] && |path| > 1 {
      assert path == [path[0]] + path[1..] && q == [q[0]] + q[1..];
      if q[0] == path[0] {
        SetLeaf(Child(n, path[0]), path[1..], v, q[1..], w);
      }
    } else if |path| == 1 && q != [] {
      var k := path[0];
      assert q == [q[0]] + q[1..] && path == [k] && path[1..] == [];
      var r := SetPath(n, path, Scalar(v));
      if q[0] == k {
        assert Lookup(r, q) == Lookup(Scalar(v), q[1..]);
        if k in n.entries {
          assert Lookup(n, path) == Lookup(n.entries[k], path[1..]) == Some(n.entries[k]);
          assert Lookup(n, q) == Lookup(n.entries[k], q[1..]);
        }
        if q[1..] == [] {
          assert q == path;
        } else {
          assert q != path && Lookup(Scalar(v), q[1..]) == None;
        }
      } else {
        assert Lookup(r, q) == Lookup(n, q);
      }
    }
  }

  lemma {:induction false} SetFull(n: Node, path: Path, v: int)
    requires n.Dict? && path != [] && Full(n)
    ensures Full(SetPath(n, path, Scalar(v))) && !Leafless(SetPath(n, path, Scalar(v)))
    decreases |path|
  {
    if |path| > 1 {
      SetFull(Child(n, path[0]), path[1..], v);
    }
    var r := SetPath(n, path, Scalar(v));
    assert !Leafless(r.entries[path[0]]);
  }

  lemma MergeEmpty(n: Node)
    requires n.Dict?
    ensures Merge(Dict(map[]), n) == n && Merge(n, Dict(map[])) == n
  {
    var a, b := Merge(Dict(map[]), n), Merge(n, Dict(map[]));
    assert a.Dict? && b.Dict? && a.entries.Keys == b.entries.Keys == n.entries.Keys;
    forall k | k in n.entries ensures a.entries[k] == n.entries[k] == b.entries[k] {
      MergeEntry(Dict(map[]), n, k);
      MergeEntry(n, Dict(map[]), k);
    }
    hide Merge;
  }

  lemma MergeEntry(t: Node, n: Node, x: string)
    requires t.Dict? && n.Dict?
    ensures x in Merge(t, n).entries <==> x in t.entries || x in n.entries
    ensures x in t.entries && x !in n.entries ==> Merge(t, n).entries[x] == t.entries[x]
    ensures x in n.entries && x !in t.entries ==> Merge(t, n).entries[x] == n.entries[x]
    ensures x in n.entries && x in t.entries ==> Merge(t, n).entries[x] == Merge(t.entries[x], n.entries[x])
  {
  }

  lemma ChildOfMerge(t: Node, n: Node, k: string)
    requires t.Dict? && n.Dict? && (k in n.entries ==> n.entries[k].Dict?)
    ensures Child(Merge(t, n), k) == Merge(Child(t, k), Child(n, k))
  {
    MergeEmpty(Child(t, k));
    MergeEmpty(Child(n, k));
  }

  lemma EntryOfMerge(t: Node, n: Node, k: string, d: Node)
    requires t.Dict? && n.Dict? && d.Dict?
    ensures Merge(t, Dict(n.entries[k := d])) == Dict(Merge(t, n).entries[k := Merge(Child(t, k), d)])
  {
    hide Merge;
    SameEntries(t, n, k, d);
    var n' := Dict(n.entries[k := d]);
    var a, b := Merge(t, n'), Dict(Merge(t, n).entries[k := Merge(Child(t, k), d)]);
    MergeEmpty(d);
    MergeEntry(t, n', k);
    assert a.entries[k] == b.entries[k] by { MergeWithScalar(t, k, d); }
    assert a.entries == b.entries;
  }

  lemma MergeWithScalar(t: Node, k: string, d: Node)
    requires t.Dict? && d.Dict?
    ensures k in t.entries && t.entries[k].Scalar? ==> Merge(t.entries[k], d) == d
    ensures k in t.entries && t.entries[k].Dict? ==> Child(t, k) == t.entries[k]
    ensures !(k in t.entries && t.entries[k].Dict?) ==> Child(t, k) == Dict(map[])
  {
  }

  /** Changing one entry of the upper tree changes that entry of the merge only. */
  lemma SameEntries(t: Node, n: Node, k: string, d: Node)
    requires t.Dict? && n.Dict?
    ensures var a, b := Merge(t, Dict(n.entries[k := d])), Merge(t, n);
            && a.Dict? && b.Dict? && a.entries.Keys == b.entries.Keys + {k}
            && forall x | x in a.entries && x != k :: a.entries[x] == b.entries[x]
  {
    var a, b := Merge(t, Dict(n.entries[k := d])), Merge(t, n);
    forall x ensures x in a.entries <==> x == k || x in b.entries
      ensures x in a.entries && x != k ==> a.entries[x] == b.entries[x]
    {
      MergeEntry(t, Dict(n.entries[k := d]), x);
      MergeEntry(t, n, x);
    }
  }

  /** Setting a path after merging is merging after setting it, unless a scalar of the merged tree stands on the way. */
  lemma {:induction false} SetCommutes(t: Node, n: Node, path: Path, v: int)
    requires t.Dict? && n.Dict? && path != [] && !Blocks(n, path)
    ensures SetPath(Merge(t, n), path, Scalar(v)) == Merge(t, SetPath(n, path, Scalar(v)))
    decreases |path|
  {
    var k := path[0];
    if |path| > 1 {
      ChildOfMerge(t, n, k);
      SetCommutes(Child(t, k), Child(n, k), path[1..], v);
      EntryOfMerge(t, n, k, SetPath(Child(n, k), path[1..], Scalar(v)));
    } else {
      SameEntries(t, n, k, Scalar(v));
      MergeEntry(t, Dict(n.entries[k := Scalar(v)]), k);
      assert SetPath(Merge(t, n), path, Scalar(v)).entries == Merge(t, SetPath(n, path, Scalar(v))).entries;
    }
  }

  // ---------------------------------------------------------------------------------------------
  // Setting every leaf against merging

  function Below(t: Node, k: string): Node {
    if t.Dict? && k in t.entries then t.entries[k] else Scalar(0)
  }

  /** Every leafless dictionary of `c` already stands as a dictionary in `t`. */
  predicate Covered(t: Node, c: Node)
    decreases c, 1
  {
    c.Dict? ==> forall k | k in c.entries :: CoveredAt(t, c, k)
  }

  predicate CoveredAt(t: Node, c: Node, k: string)
    requires c.Dict? && k in c.entries
    decreases c, 0
  {
    (Leafless(c.entries[k]) ==> Below(t, k).Dict?) && Covered(Below(t, k), c.entries[k])
  }

  lemma PruneLeafless(n: Node)
    requires Leafless(n)
    ensures Prune(n) == Dict(map[])
  {
  }

  /** The two merges agree at one key. */
  lemma EntryCovered(t: Node, c: Node, k: string)
    requires t.Dict? && c.Dict? && k in c.entries
    requires Merge(Below(t, k), Prune(c.entries[k])) == Merge(Below(t, k), c.entries[k])
        <==> Covered(Below(t, k), c.entries[k])
    ensures var a, b := Merge(t, Prune(c)).entries, Merge(t, c).entries;
            k in b && ((k in a && a[k] == b[k]) <==> CoveredAt(t, c, k))
  {
    MergeEntry(t, Prune(c), k);
    MergeEntry(t, c, k);
    if Leafless(c.entries[k]) {
      PruneLeafless(c.entries[k]);
      if k in t.entries && t.entries[k].Dict? { MergeEmpty(t.entries[k]); }
    }
    MergeOver(Scalar(0), Prune(c.entries[k]));
    MergeOver(Scalar(0), c.entries[k]);
    if k in t.entries && t.entries[k].Scalar? { MergeOver(t.entries[k], c.entries[k]); }
    hide Merge, Covered, Leafless;
  }

  lemma MergeOver(t: Node, n: Node)
    requires t.Scalar?
    ensures Merge(t, n) == n
  {
  }

  lemma EqualMaps<K(!new), V>(a: map<K, V>, b: map<K, V>, keys: set<K>)
    requires forall k | k in keys :: k in b
    requires forall k | k !in keys :: (k in a <==> k in b) && (k in a ==> a[k] == b[k])
    ensures a == b <==> forall k | k in keys :: k in a && a[k] == b[k]
  {
    if forall k | k in keys :: k in a && a[k] == b[k] {
      assert forall k :: k in a <==> k in b;
    }
  }

  /** Merging the pruned tree is merging the tree exactly when the target covers its leafless dictionaries. */
  lemma {:induction false} PrunedMerge(t: Node, c: Node)
    ensures Merge(t, Prune(c)) == Merge(t, c) <==> Covered(t, c)
    decreases c
  {
    if c.Dict? {
      forall k | k in c.entries
        ensures Merge(Below(t, k), Prune(c.entries[k])) == Merge(Below(t, k), c.entries[k])
            <==> Covered(Below(t, k), c.entries[k])
      {
        PrunedMerge(Below(t, k), c.entries[k]);
      }
      if t.Dict? {
        PrunedMergeDict(t, c);
      } else {
        PrunedSame(t, c);
      }
    }
  }

  lemma PrunedMergeDict(t: Node, c: Node)
    requires t.Dict? && c.Dict?
    requires forall k | k in c.entries ::
               ((Merge(Below(t, k), Prune(c.entries[k])) == Merge(Below(t, k), c.entries[k]))
                == Covered(Below(t, k), c.entries[k]))
    ensures Merge(t, Prune(c)) == Merge(t, c) <==> Covered(t, c)
  {
    var a, b := Merge(t, Prune(c)).entries, Merge(t, c).entries;
    forall k | k in c.entries
      ensures k in b && ((k in a && a[k] == b[k]) <==> CoveredAt(t, c, k))
    {
      EntryCovered(t, c, k);
    }
    forall k | k !in c.entries ensures k in a <==> k in b ensures k in a ==> a[k] == b[k] {
      MergeEntry(t, Prune(c), k);
      MergeEntry(t, c, k);
    }
    hide Merge, Leafless, Prune, CoveredAt;
    EqualMaps(a, b, c.entries.Keys);
  }

  lemma PrunedSame(t: Node, c: Node)
    requires t.Scalar? && c.Dict?
    requires forall k | k in c.entries ::
               ((Merge(Below(t, k), Prune(c.entries[k])) == Merge(Below(t, k), c.entries[k]))
                == Covered(Below(t, k), c.entries[k]))
    ensures Merge(t, Prune(c)) == Merge(t, c) <==> Covered(t, c)
  {
    forall k | k in c.entries
      ensures CoveredAt(t, c, k) <==> k in Prune(c).entries && Prune(c).entries[k] == c.entries[k]
    {
      MergeOver(Scalar(0), Prune(c.entries[k]));
      MergeOver(Scalar(0), c.entries[k]);
    }
    EqualMaps(Prune(c).entries, c.entries, c.entries.Keys);
    MergeOver(t, Prune(c));
    MergeOver(t, c);
  }
}
