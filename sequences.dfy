/** `Array.prototype.filter`, the absence of repeated elements, and sorting by a key. */
module Sequences {
  import opened StableSort

  /** The elements of `s` that satisfy `p`, in their order in `s`. */
  function Filter<T(!new)>(s: seq<T>, p: T -> bool): (r: seq<T>)
    ensures |r| <= |s|
    ensures forall x :: x in r <==> x in s && p(x)
  {
    if s == [] then []
    else
      var q := s[..|s| - 1];
      var y := s[|s| - 1];
      assert forall x :: x in s <==> x in q || x == y by {
        assert s == q + [y];
      }
      Filter(q, p) + (if p(y) then [y] else [])
  }

  predicate NoRepeats<T(==)>(s: seq<T>)
  {
    forall i, j :: 0 <= i < j < |s| ==> s[i] != s[j]
  }

  /** Filtering keeps the elements pairwise different. */
  lemma {:induction false} FilterNoRepeats<T(!new)>(s: seq<T>, p: T -> bool)
    requires NoRepeats(s)
    ensures NoRepeats(Filter(s, p))
  {
    if s != [] {
      var q := s[..|s| - 1];
      var y := s[|s| - 1];
      assert NoRepeats(q);
      FilterNoRepeats(q, p);
      assert y !in q;
    }
  }

  lemma {:induction false} InsertNoRepeats<T>(x: T, s: seq<T>, le: (T, T) -> bool)
    requires NoRepeats(s) && x !in s
    ensures NoRepeats(Insert(x, s, le))
  {
    if s != [] && !le(s[|s| - 1], x) {
      var q := s[..|s| - 1];
      var y := s[|s| - 1];
      assert s == q + [y];
      assert NoRepeats(q);
      InsertNoRepeats(x, q, le);
      InsertPermutes(x, q, le);
      assert y !in multiset(q) + multiset{x};
    }
  }

  /** Sorting keeps the elements pairwise different. */
  lemma {:induction false} SortNoRepeats<T>(s: seq<T>, le: (T, T) -> bool)
    requires NoRepeats(s)
    ensures NoRepeats(Sort(s, le))
  {
    if s != [] {
      var q := s[..|s| - 1];
      var y := s[|s| - 1];
      assert s == q + [y];
      assert NoRepeats(q);
      SortNoRepeats(q, le);
      SortPermutes(q, le);
      assert y !in multiset(q);
      InsertNoRepeats(y, Sort(q, le), le);
    }
  }

  /** Sorting keeps the set of elements. */
  lemma SortMembership<T>(s: seq<T>, le: (T, T) -> bool)
    ensures forall x :: x in Sort(s, le) <==> x in s
  {
    SortPermutes(s, le);
    forall x ensures x in Sort(s, le) <==> x in s {
      assert x in Sort(s, le) <==> x in multiset(Sort(s, le));
    }
  }

  /** Sorting with a comparator that compares one real key of the elements gives a non-decreasing key. */
  lemma SortByKey<T>(s: seq<T>, le: (T, T) -> bool, key: T -> real)
    requires forall x, y {:trigger le(x, y)} :: x in s && y in s ==> (le(x, y) <==> key(x) <= key(y))
    ensures forall i, j :: 0 <= i < j < |Sort(s, le)| ==> key(Sort(s, le)[i]) <= key(Sort(s, le)[j])
  {
    assert PreorderOn(s, le);
    SortSorted(s, le);
    SortMembership(s, le);
    var r := Sort(s, le);
    assert Sorted(r, le);
    forall i, j | 0 <= i < j < |r| ensures key(r[i]) <= key(r[j]) {
      assert r[i] in s && r[j] in s;
      assert le(r[i], r[j]) <==> key(r[i]) <= key(r[j]);
    }
  }
}
