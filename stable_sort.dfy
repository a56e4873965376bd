/**
  `Array.prototype.sort(compare)` of the JavaScript runtime. The language
  requires the sort to be stable; for a comparator that is a total preorder
  every stable sort returns the same sequence, so the runtime's sort is
  modelled by the stable insertion sort below. `le(a, b)` stands for
  "`compare(a, b)` is not positive", with a `NaN` comparison counted as 0.
  Such a comparison can make the comparator inconsistent; the language then
  leaves the order implementation-defined, and this sort is one admissible
  choice. The lemmas about sortedness assume a total preorder.
*/
module StableSort {

  /** Insert `x` after the last element of `s` that may precede it, scanning from the right. */
  function Insert<T>(x: T, s: seq<T>, le: (T, T) -> bool): (r: seq<T>)
    ensures |r| == |s| + 1
  {
    if s == [] then [x]
    else if le(s[|s| - 1], x) then s + [x]
    else
      Insert(x, s[..|s| - 1], le) + [s[|s| - 1]]
  }

  /** The stable sort of `s`: each element is inserted into the sorted prefix before it. */
  function Sort<T>(s: seq<T>, le: (T, T) -> bool): (r: seq<T>)
    ensures |r| == |s|
  {
    if s == [] then [] else Insert(s[|s| - 1], Sort(s[..|s| - 1], le), le)
  }

  lemma {:induction false} InsertPermutes<T>(x: T, s: seq<T>, le: (T, T) -> bool)
    ensures multiset(Insert(x, s, le)) == multiset(s) + multiset{x}
  {
    if s != [] && !le(s[|s| - 1], x) {
      var p := s[..|s| - 1];
      assert s == p + [s[|s| - 1]];
      InsertPermutes(x, p, le);
    }
  }

  /** The sort returns a permutation of its input. */
  lemma {:induction false} SortPermutes<T>(s: seq<T>, le: (T, T) -> bool)
    ensures multiset(Sort(s, le)) == multiset(s)
  {
    if s != [] {
      var p := s[..|s| - 1];
      assert s == p + [s[|s| - 1]];
      SortPermutes(p, le);
      InsertPermutes(s[|s| - 1], Sort(p, le), le);
    }
  }

  lemma SortSnoc<T>(s: seq<T>, x: T, le: (T, T) -> bool)
    ensures Sort(s + [x], le) == Insert(x, Sort(s, le), le)
  {
    assert (s + [x])[..|s|] == s;
  }

  predicate Sorted<T>(s: seq<T>, le: (T, T) -> bool)
  {
    forall i, j :: 0 <= i < j < |s| ==> le(s[i], s[j])
  }

  /** `le` is total and transitive on the elements of `u`. */
  ghost predicate PreorderOn<T>(u: seq<T>, le: (T, T) -> bool)
  {
    && (forall x, y :: x in u && y in u ==> le(x, y) || le(y, x))
    && (forall x, y, z :: x in u && y in u && z in u && le(x, y) && le(y, z) ==> le(x, z))
  }

  /** The elements of `s` equivalent to `e` under `le`, in their order in `s`. */
  function Equivalents<T>(s: seq<T>, le: (T, T) -> bool, e: T): seq<T>
  {
    if s == [] then []
    else
      var y := s[|s| - 1];
      Equivalents(s[..|s| - 1], le, e) + (if le(y, e) && le(e, y) then [y] else [])
  }

  lemma PreorderOnSubset<T>(u: seq<T>, v: seq<T>, le: (T, T) -> bool)
    requires PreorderOn(u, le)
    requires forall y :: y in v ==> y in u
    ensures PreorderOn(v, le)
  {
  }

  lemma {:induction false} InsertSorted<T>(x: T, s: seq<T>, le: (T, T) -> bool, u: seq<T>)
    requires PreorderOn(u, le)
    requires x in u && forall y :: y in s ==> y in u
    requires Sorted(s, le)
    ensures Sorted(Insert(x, s, le), le)
  {
    if s == [] {
    } else if le(s[|s| - 1], x) {
      var r := s + [x];
      forall i, j | 0 <= i < j < |r| ensures le(r[i], r[j]) {
        if j == |s| {
          assert s[|s| - 1] in u && s[i] in u;
          if i < |s| - 1 {
            assert le(s[i], s[|s| - 1]);
          }
        }
      }
    } else {
      var p := s[..|s| - 1];
      var last := s[|s| - 1];
      assert last in s;
      assert le(x, last);
      forall y | y in p ensures y in u {
        assert y in s;
      }
      InsertSorted(x, p, le, u);
      var q := Insert(x, p, le);
      InsertPermutes(x, p, le);
      var r := q + [last];
      forall i, j | 0 <= i < j < |r| ensures le(r[i], r[j]) {
        if j == |q| {
          assert r[i] in multiset(q);
          assert r[i] == x || r[i] in multiset(p);
          if r[i] != x {
            assert r[i] in p;
            var k :| 0 <= k < |p| && p[k] == r[i];
            assert le(s[k], s[|s| - 1]);
          }
        }
      }
    }
  }

  /** Under a total preorder the result is sorted. */
  lemma {:induction false} SortSorted<T>(s: seq<T>, le: (T, T) -> bool)
    requires PreorderOn(s, le)
    ensures Sorted(Sort(s, le), le)
  {
    if s != [] {
      var p := s[..|s| - 1];
      forall y | y in p ensures y in s { }
      PreorderOnSubset(s, p, le);
      SortSorted(p, le);
      var t := Sort(p, le);
      SortPermutes(p, le);
      forall y | y in t ensures y in s {
        assert y in multiset(p);
      }
      InsertSorted(s[|s| - 1], t, le, s);
    }
  }

  lemma {:induction false} EquivalentsAppend<T>(s: seq<T>, y: T, le: (T, T) -> bool, e: T)
    ensures Equivalents(s + [y], le, e) == Equivalents(s, le, e) + (if le(y, e) && le(e, y) then [y] else [])
  {
    assert (s + [y])[..|s|] == s;
  }

  lemma {:induction false} InsertEquivalents<T>(x: T, s: seq<T>, le: (T, T) -> bool, e: T, u: seq<T>)
    requires PreorderOn(u, le)
    requires x in u && e in u && forall y :: y in s ==> y in u
    ensures Equivalents(Insert(x, s, le), le, e)
         == Equivalents(s, le, e) + (if le(x, e) && le(e, x) then [x] else [])
  {
    if s == [] {
      assert Equivalents([x], le, e) == Equivalents([] + [x], le, e);
      EquivalentsAppend([], x, le, e);
    } else if le(s[|s| - 1], x) {
      EquivalentsAppend(s, x, le, e);
    } else {
      var p := s[..|s| - 1];
      var last := s[|s| - 1];
      assert last in s;
      forall y | y in p ensures y in u {
        assert y in s;
      }
      InsertEquivalents(x, p, le, e, u);
      EquivalentsAppend(Insert(x, p, le), last, le, e);
      assert s == p + [last];
      EquivalentsAppend(p, last, le, e);
      // x and last cannot both be equivalent to e, or le(last, x) would hold
      assert !(le(x, e) && le(e, x) && le(last, e) && le(e, last));
    }
  }

  /** The sort draws its elements from its input. */
  lemma SortMembers<T>(p: seq<T>, le: (T, T) -> bool, u: seq<T>)
    requires forall y :: y in p ==> y in u
    ensures forall y :: y in Sort(p, le) ==> y in u
  {
    SortPermutes(p, le);
    forall y | y in Sort(p, le) ensures y in u {
      assert y in multiset(Sort(p, le));
    }
  }

  /** Stability: elements that compare equal keep their relative order. */
  lemma {:induction false} SortStable<T>(s: seq<T>, le: (T, T) -> bool, e: T)
    requires PreorderOn(s + [e], le)
    ensures Equivalents(Sort(s, le), le, e) == Equivalents(s, le, e)
  {
    if s != [] {
      var p := s[..|s| - 1];
      var last := s[|s| - 1];
      var u := s + [e];
      assert s == p + [last];
      assert forall y :: y in p + [e] ==> y in u;
      PreorderOnSubset(u, p + [e], le);
      SortStable(p, le, e);
      SortMembers(p, le, u);
      InsertEquivalents(last, Sort(p, le), le, e, u);
      EquivalentsAppend(p, last, le, e);
    }
  }

  lemma InsertPastGreater<T>(x: T, t: seq<T>, j: nat, le: (T, T) -> bool)
    requires 0 < j <= |t| && !le(t[j - 1], x)
    ensures Insert(x, t[..j], le) + t[j..] == Insert(x, t[..j - 1], le) + t[j - 1..]
  {
    assert t[..j][..j - 1] == t[..j - 1];
    assert t[j - 1..] == [t[j - 1]] + t[j..];
  }

  lemma InsertAfter<T>(x: T, t: seq<T>, j: nat, le: (T, T) -> bool)
    requires j <= |t| && (j == 0 || le(t[j - 1], x))
    ensures Insert(x, t[..j], le) == t[..j] + [x]
  {
  }

  /** The pieces one insertion step of the in-place sort reads and writes. */
  lemma SortStep<T>(s: seq<T>, i: nat, le: (T, T) -> bool)
    requires i < |s|
    ensures var c := Sort(s[..i], le) + s[i..];
      && c[..i] == Sort(s[..i], le) && c[i] == s[i] && c[i + 1..] == s[i + 1..]
      && Insert(s[i], Sort(s[..i], le), le) + s[i + 1..] == Sort(s[..i + 1], le) + s[i + 1..]
  {
    assert s[..i + 1] == s[..i] + [s[i]];
    SortSnoc(s[..i], s[i], le);
  }

  /** Swapping `x` with its left neighbour moves it one place left in the middle of the array. */
  lemma SwapLeft<T>(t: seq<T>, x: T, j: nat, rest: seq<T>)
    requires 0 < j <= |t|
    ensures (t[..j] + [x] + t[j..] + rest)[j - 1 := x][j := t[j - 1]] == t[..j - 1] + [x] + t[j - 1..] + rest
  {
    var u := (t[..j] + [x] + t[j..] + rest)[j - 1 := x][j := t[j - 1]];
    var v := t[..j - 1] + [x] + t[j - 1..] + rest;
    assert |u| == |v|;
    forall k | 0 <= k < |u| ensures u[k] == v[k] {
      if k < j - 1 {
      } else if k == j - 1 {
      } else if k == j {
      } else if k <= |t| {
        assert u[k] == t[k - 1];
      } else {
        assert u[k] == rest[k - |t| - 1];
      }
    }
  }

  /** One insertion step: `a[i]` moves left past every greater element of the sorted prefix. */
  method InsertInPlace<T>(a: array<T>, i: nat, le: (T, T) -> bool)
    requires i < a.Length
    modifies a
    ensures a[..] == Insert(old(a[i]), old(a[..i]), le) + old(a[i + 1..])
  {
    ghost var t := a[..i];
    ghost var x := a[i];
    ghost var rest := a[i + 1..];
    var j := i;
    assert t[..j] == t && t[j..] == [];
    assert a[..] == t[..j] + [x] + t[j..] + rest;
    while j > 0 && !le(a[j - 1], a[j])
      invariant 0 <= j <= i
      invariant a[..] == t[..j] + [x] + t[j..] + rest
      invariant Insert(x, t, le) == Insert(x, t[..j], le) + t[j..]
    {
      ghost var prev := a[..];
      assert prev[j - 1] == t[j - 1] && prev[j] == x;
      InsertPastGreater(x, t, j, le);
      a[j - 1], a[j] := a[j], a[j - 1];
      assert a[..] == prev[j - 1 := x][j := t[j - 1]];
      SwapLeft(t, x, j, rest);
      j := j - 1;
    }
    assert j > 0 ==> a[j - 1] == t[j - 1] && a[j] == x;
    InsertAfter(x, t, j, le);
  }

  /** The runtime's in-place sort: afterwards the array holds the stable sort of its old contents. */
  method SortInPlace<T>(a: array<T>, le: (T, T) -> bool)
    modifies a
    ensures a[..] == Sort(old(a[..]), le)
  {
    ghost var s0 := a[..];
    var i := 0;
    assert s0[..0] == [] && s0[0..] == s0;
    while i < a.Length
      invariant 0 <= i <= a.Length
      invariant a[..] == Sort(s0[..i], le) + s0[i..]
    {
      SortStep(s0, i, le);
      InsertInPlace(a, i, le);
      i := i + 1;
    }
    assert s0[..a.Length] == s0;
    assert a[..] == Sort(s0, le) + [];
  }
}
