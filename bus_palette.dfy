/**
  First-seen ordering of bus ids and the colour each bus gets from the
  seven-entry palette: the k-th distinct bus takes `busColors[k % 7]`.
  Both the block graph and the route table colour their buses this way.
*/
module BusPalette {
  import opened BusTracker

  predicate NoDuplicates(s: seq<string>)
  {
    forall i, j :: 0 <= i < j < |s| ==> s[i] != s[j]
  }

  /** The distinct elements of `s`, each at the place it first appears. */
  function FirstSeen(s: seq<string>): (r: seq<string>)
    ensures NoDuplicates(r)
    ensures forall x :: x in r <==> x in s
    ensures |r| <= |s|
  {
    if s == [] then []
    else
      var p := FirstSeen(s[..|s| - 1]);
      if s[|s| - 1] in p then p else p + [s[|s| - 1]]
  }

  /** One more element extends the first-seen list exactly when it is new. */
  lemma FirstSeenSnoc(s: seq<string>, x: string)
    ensures FirstSeen(s + [x]) == if x in FirstSeen(s) then FirstSeen(s) else FirstSeen(s) + [x]
  {
    assert (s + [x])[..|s|] == s;
  }

  /** The position at which `x` first occurs in `s`. */
  function FirstIndex(s: seq<string>, x: string): (i: nat)
    requires x in s
    ensures i < |s| && s[i] == x && x !in s[..i]
  {
    if s[0] == x then 0
    else
      assert x in s[1..];
      1 + FirstIndex(s[1..], x)
  }

  lemma FirstIndexPrefix(s: seq<string>, x: string)
    requires |s| > 0 && x in s[..|s| - 1]
    ensures FirstIndex(s, x) == FirstIndex(s[..|s| - 1], x)
  {
  }

  /** `FirstSeen` lists the buses in the order of their first appearance. */
  lemma {:induction false} FirstSeenOrder(s: seq<string>)
    ensures forall i, j :: 0 <= i < j < |FirstSeen(s)| ==> FirstIndex(s, FirstSeen(s)[i]) < FirstIndex(s, FirstSeen(s)[j])
  {
    if s != [] {
      var p := s[..|s| - 1];
      var q := FirstSeen(p);
      FirstSeenOrder(p);
      forall x | x in q
        ensures FirstIndex(s, x) == FirstIndex(p, x) < |p|
      {
        FirstIndexPrefix(s, x);
      }
      var r := FirstSeen(s);
      var x := s[|s| - 1];
      forall i, j | 0 <= i < j < |q|
        ensures FirstIndex(s, q[i]) < FirstIndex(s, q[j])
      {
        assert q[i] in q && q[j] in q;
        assert FirstIndex(p, q[i]) < FirstIndex(p, q[j]);
      }
      if x !in q {
        assert r == q + [x];
        assert FirstIndex(s, x) == |p| by {
          assert x !in p;
          assert s[..|p|] == p;
        }
        forall i | 0 <= i < |q|
          ensures FirstIndex(s, q[i]) < FirstIndex(s, x)
        {
          assert q[i] in q;
        }
      }
    }
  }

  /** The colour map built by walking `order` and giving its k-th element `ColorFor(k)`. */
  function ColoursOf(order: seq<string>): (m: map<string, string>)
    ensures m.Keys == set x | x in order
  {
    if order == [] then map[]
    else ColoursOf(order[..|order| - 1])[order[|order| - 1] := ColorFor(|order| - 1)]
  }

  /** With no repeated bus, the k-th bus of `order` has colour `busColors[k % 7]`. */
  lemma {:induction false} ColoursOfAt(order: seq<string>)
    requires NoDuplicates(order)
    ensures forall k :: 0 <= k < |order| ==> ColoursOf(order)[order[k]] == BusColors[k % 7]
  {
    if order != [] {
      var p := order[..|order| - 1];
      assert NoDuplicates(p);
      ColoursOfAt(p);
      forall k | 0 <= k < |order|
        ensures ColoursOf(order)[order[k]] == BusColors[k % 7]
      {
        if k < |p| {
          assert order[k] == p[k] != order[|order| - 1];
        }
      }
    }
  }
}
