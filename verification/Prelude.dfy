/** Small datatypes and sequence facts shared by the component models. */
module Prelude {
  datatype Option<+T> = None | Some(value: T)

  ghost predicate NoDup<T>(s: seq<T>) {
    forall i, j | 0 <= i < j < |s| :: s[i] != s[j]
  }

  /** The elements of a sequence, as a set. */
  function Elems<T>(s: seq<T>): set<T> {
    set x | x in s
  }

  lemma {:induction false} ElemsBound<T>(s: seq<T>)
    ensures |Elems(s)| <= |s|
    ensures |Elems(s)| == |s| <==> NoDup(s)
  {
    if s != [] {
      var t, x := s[..|s| - 1], s[|s| - 1];
      ElemsBound(t);
      assert s == t + [x];
      ElemsSnoc(t, x);
      if x in t {
        var i :| 0 <= i < |t| && t[i] == x;
        assert s[i] == s[|s| - 1];
        assert Elems(s) == Elems(t);
      } else {
        assert NoDup(t) ==> NoDup(s);
        assert NoDup(s) ==> NoDup(t) by {
          if NoDup(s) { assert forall i | 0 <= i < |t| :: t[i] == s[i]; }
        }
      }
    }
  }

  lemma SubsetSize<T>(a: set<T>, b: set<T>)
    requires a < b
    ensures |a| < |b|
  {
    assert b == a + (b - a);
  }

  /** A list without repetition and no longer than a set, with an element outside it, misses an element of it. */
  lemma SomeMissing<T>(a: set<T>, s: seq<T>, f: T) returns (x: T)
    requires NoDup(s) && |s| <= |a| && f in s && f !in a
    ensures x in a && x !in s
  {
    ElemsBound(s);
    if a <= Elems(s) {
      assert f in Elems(s);
      SubsetSize(a, Elems(s));
    }
    x :| x in a && x !in Elems(s);
  }

  /** A list without repetition of elements of a set no larger than it lists them all. */
  lemma AllListed<T>(a: set<T>, s: seq<T>)
    requires NoDup(s) && |a| <= |s| && forall y | y in s :: y in a
    ensures forall x | x in a :: x in s
  {
    ElemsBound(s);
    forall x | x in a ensures x in s {
      if x !in s {
        assert Elems(s) <= a && x !in Elems(s);
        SubsetSize(Elems(s), a);
      }
    }
  }

  lemma ElemsSnoc<T>(s: seq<T>, x: T)
    ensures Elems(s + [x]) == Elems(s) + {x}
  {
  }

  lemma InElems<T>(s: seq<T>, x: T)
    ensures x in Elems(s) <==> x in s
  {
  }

  lemma ElemsEmpty<T>()
    ensures Elems<T>([]) == {}
  {
  }

  lemma SomeElement<T>(s: set<T>) returns (x: T)
    requires s != {}
    ensures x in s
  {
    x :| x in s;
  }

  /** `text` stands in the input at this position. */
  predicate StartsWith(input: string, pos: nat, text: string) {
    pos + |text| <= |input| && input[pos..pos + |text|] == text
  }
}
