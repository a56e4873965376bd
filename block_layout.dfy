/**
  Grid layout of the block graph (`generateNodePositions`,
  `generateNextNodePositionsInternal` and `getStartTimeInSecondsForTarget`
  in src/app/tracker/blocks/page.client.tsx). Every block gets an integer
  (column, row). Blocks that no other block hands a bus to are laid out in
  column 0; the blocks a placed block hands off to go one column further
  right, below every row already used there. A closing sweep places the
  blocks that are still missing.

  The `blockOrder` dictionary that the source fills in place is threaded
  through the methods as a map value: each method returns the dictionary as
  it leaves it.
*/
module BlockLayout {
  import opened Wrappers
  import opened TimeCodec
  import opened StableSort
  import opened Sequences
  import opened BusTracker
  import opened BlockEdges

  /** A `NodePosition`: column `x`, row `y`. */
  datatype Pos = Pos(x: int, y: int)

  type Positions = map<string, Pos>

  /** `Object.keys(blocks)`, in `for...in` order. */
  function Keys(blocks: AllBlocks): (r: seq<string>)
    ensures |r| == |blocks|
    ensures forall i :: 0 <= i < |blocks| ==> r[i] == blocks[i].blockId
  {
    seq(|blocks|, i requires 0 <= i < |blocks| => blocks[i].blockId)
  }

  function KeySet(blocks: AllBlocks): set<string>
  {
    set k | k in Keys(blocks)
  }

  /** The keys of a JavaScript record are pairwise different. */
  predicate UniqueBlockIds(blocks: AllBlocks)
  {
    forall i, j :: 0 <= i < j < |blocks| ==> blocks[i].blockId != blocks[j].blockId
  }

  // ---------------------------------------------------------------- start times

  predicate TripsWellFormed(trips: seq<Trip>)
  {
    forall j :: 0 <= j < |trips| ==> WellFormed(trips[j].scheduledStartTime)
  }

  /** `startTimes` after the inner loop has visited `trips`, starting from `m`. */
  function TripStarts(m: map<string, int>, trips: seq<Trip>): map<string, int>
    requires TripsWellFormed(trips)
  {
    if trips == [] then m
    else
      var t := trips[|trips| - 1];
      TripStarts(m, trips[..|trips| - 1])[t.tripId := ToSeconds(t.scheduledStartTime)]
  }

  /** `startTimes`: each trip id mapped to its scheduled start in seconds (a later trip with the same id wins). */
  function StartTimes(blocks: AllBlocks): map<string, int>
    requires StartsWellFormed(blocks)
  {
    if blocks == [] then map[]
    else
      var p := blocks[..|blocks| - 1];
      assert StartsWellFormed(p) by {
        forall i, j | 0 <= i < |p| && 0 <= j < |p[i].trips|
          ensures WellFormed(p[i].trips[j].scheduledStartTime)
        {
          assert p[i] == blocks[i];
        }
      }
      var last := blocks[|blocks| - 1].trips;
      assert TripsWellFormed(last) by {
        forall j | 0 <= j < |last| ensures WellFormed(last[j].scheduledStartTime) {
          assert last[j] == blocks[|blocks| - 1].trips[j];
        }
      }
      TripStarts(StartTimes(p), last)
  }

  predicate TripHasStart(blocks: AllBlocks, id: string, v: int)
    requires StartsWellFormed(blocks)
  {
    exists i, j :: 0 <= i < |blocks| && 0 <= j < |blocks[i].trips|
      && blocks[i].trips[j].tripId == id
      && v == ToSeconds(blocks[i].trips[j].scheduledStartTime)
  }

  lemma {:induction false} TripStartsEntries(m: map<string, int>, trips: seq<Trip>, id: string)
    requires TripsWellFormed(trips)
    ensures id in TripStarts(m, trips) <==> id in m || exists j :: 0 <= j < |trips| && trips[j].tripId == id
    ensures id in TripStarts(m, trips) ==>
      (id in m && TripStarts(m, trips)[id] == m[id])
      || exists j :: 0 <= j < |trips| && trips[j].tripId == id && TripStarts(m, trips)[id] == ToSeconds(trips[j].scheduledStartTime)
  {
    if trips != [] {
      var q := trips[..|trips| - 1];
      assert forall j :: 0 <= j < |q| ==> q[j] == trips[j];
      TripStartsEntries(m, q, id);
    }
  }

  /** The keys of `startTimes` are the trip ids, each mapped to the start of a trip with that id. */
  lemma {:induction false} StartTimesEntries(blocks: AllBlocks, id: string)
    requires StartsWellFormed(blocks)
    ensures id in StartTimes(blocks) <==> exists i, j :: 0 <= i < |blocks| && 0 <= j < |blocks[i].trips| && blocks[i].trips[j].tripId == id
    ensures id in StartTimes(blocks) ==> TripHasStart(blocks, id, StartTimes(blocks)[id])
  {
    if blocks != [] {
      var p := blocks[..|blocks| - 1];
      var last := blocks[|blocks| - 1];
      assert forall i :: 0 <= i < |p| ==> p[i] == blocks[i];
      StartTimesEntries(p, id);
      TripStartsEntries(StartTimes(p), last.trips, id);
      if id in StartTimes(blocks) {
        var v := StartTimes(blocks)[id];
        if id in StartTimes(p) && v == StartTimes(p)[id] {
          var i, j :| 0 <= i < |p| && 0 <= j < |p[i].trips| && p[i].trips[j].tripId == id
            && StartTimes(p)[id] == ToSeconds(p[i].trips[j].scheduledStartTime);
          assert blocks[i] == p[i];
        } else {
          var j :| 0 <= j < |last.trips| && last.trips[j].tripId == id && v == ToSeconds(last.trips[j].scheduledStartTime);
          assert blocks[|blocks| - 1].trips[j].tripId == id;
        }
      }
    }
  }

  lemma StartTimesStep(blocks: AllBlocks, i: nat)
    requires StartsWellFormed(blocks) && i < |blocks|
    ensures StartsWellFormed(blocks[..i]) && StartsWellFormed(blocks[..i + 1]) && TripsWellFormed(blocks[i].trips)
    ensures StartTimes(blocks[..i + 1]) == TripStarts(StartTimes(blocks[..i]), blocks[i].trips)
  {
    assert StartsWellFormed(blocks[..i]) by {
      forall a, b | 0 <= a < |blocks[..i]| && 0 <= b < |blocks[..i][a].trips|
        ensures WellFormed(blocks[..i][a].trips[b].scheduledStartTime)
      {
        assert blocks[..i][a] == blocks[a];
      }
    }
    var q := blocks[..i + 1];
    assert StartsWellFormed(q) by {
      forall a, b | 0 <= a < |q| && 0 <= b < |q[a].trips|
        ensures WellFormed(q[a].trips[b].scheduledStartTime)
      {
        assert q[a] == blocks[a];
      }
    }
    assert blocks[..i + 1][..i] == blocks[..i];
    assert TripsWellFormed(blocks[i].trips) by {
      forall b | 0 <= b < |blocks[i].trips| ensures WellFormed(blocks[i].trips[b].scheduledStartTime) {
      }
    }
  }

  /** The nested loop that fills `startTimes`. */
  method ComputeStartTimes(blocks: AllBlocks) returns (startTimes: map<string, int>)
    requires StartsWellFormed(blocks)
    ensures startTimes == StartTimes(blocks)
  {
    startTimes := map[];
    assert blocks[..0] == [];
    for i := 0 to |blocks|
      invariant StartsWellFormed(blocks[..i])
      invariant startTimes == StartTimes(blocks[..i])
    {
      StartTimesStep(blocks, i);
      var trips := blocks[i].trips;
      ghost var before := startTimes;
      assert trips[..0] == [];
      for j := 0 to |trips|
        invariant TripsWellFormed(trips[..j])
        invariant startTimes == TripStarts(before, trips[..j])
      {
        assert trips[..j + 1][..j] == trips[..j];
        ghost var done := trips[..j + 1];
        assert TripsWellFormed(done) by {
          forall b | 0 <= b < |done| ensures WellFormed(done[b].scheduledStartTime) {
            assert done[b] == trips[b];
          }
        }
        startTimes := startTimes[trips[j].tripId := ToSeconds(trips[j].scheduledStartTime)];
      }
      assert trips[..|trips|] == trips;
    }
    assert blocks[..|blocks|] == blocks;
  }

  // ---------------------------------------------------------------- sort key

  /** `handle.slice(0, -1)`: the handle without its side letter. */
  function TripOf(handle: string): string
  {
    if handle == "" then "" else handle[..|handle| - 1]
  }

  /** A record lookup; `None` stands for `undefined`. */
  function Lookup(m: map<string, int>, k: string): Option<int>
  {
    if k in m then Some(m[k]) else None
  }

  /**
    "`a - b` is not positive" for numbers that may be `undefined`: a
    difference with `undefined` is `NaN`, which the sort reads as 0.
  */
  predicate KeyLe(a: Option<int>, b: Option<int>)
  {
    a.None? || b.None? || a.value <= b.value
  }

  /** The edges that leave `target` for another block and name a target handle. */
  function Targeted(edges: seq<Edge>, target: string): seq<Edge>
  {
    Filter(edges, (e: Edge) => e.source == target && e.target != target && e.targetHandle != "")
  }

  function HandleLe(startTimes: map<string, int>): (Edge, Edge) -> bool
  {
    (a: Edge, b: Edge) => KeyLe(Lookup(startTimes, TripOf(a.targetHandle)), Lookup(startTimes, TripOf(b.targetHandle)))
  }

  /** `getStartTimeInSecondsForTarget`; `None` stands for `undefined`. */
  function StartKey(edges: seq<Edge>, startTimes: map<string, int>, target: string): Option<int>
  {
    var sorted := Sort(Targeted(edges, target), HandleLe(startTimes));
    if sorted == [] then Some(0) else Lookup(startTimes, TripOf(sorted[0].targetHandle))
  }

  /**
    With every target trip known, the key is the earliest start of a trip
    the block hands off to in another block, or 0 when it hands off nowhere.
  */
  lemma StartKeyIsMinimum(edges: seq<Edge>, startTimes: map<string, int>, target: string)
    requires forall e :: e in Targeted(edges, target) ==> TripOf(e.targetHandle) in startTimes
    ensures Targeted(edges, target) == [] ==> StartKey(edges, startTimes, target) == Some(0)
    ensures Targeted(edges, target) != [] ==>
      && StartKey(edges, startTimes, target).Some?
      && (exists e :: e in Targeted(edges, target) && StartKey(edges, startTimes, target).value == startTimes[TripOf(e.targetHandle)])
      && (forall e :: e in Targeted(edges, target) ==> StartKey(edges, startTimes, target).value <= startTimes[TripOf(e.targetHandle)])
  {
    var t := Targeted(edges, target);
    var le := HandleLe(startTimes);
    var sorted := Sort(t, le);
    SortMembership(t, le);
    if t != [] {
      assert PreorderOn(t, le);
      SortSorted(t, le);
      assert sorted[0] in t;
      forall e | e in t ensures StartKey(edges, startTimes, target).value <= startTimes[TripOf(e.targetHandle)] {
        var j :| 0 <= j < |sorted| && sorted[j] == e;
        if j > 0 {
          assert le(sorted[0], sorted[j]);
        }
      }
    }
  }

  function BlockLe(edges: seq<Edge>, startTimes: map<string, int>): (string, string) -> bool
  {
    (a: string, b: string) => KeyLe(StartKey(edges, startTimes, a), StartKey(edges, startTimes, b))
  }

  // ---------------------------------------------------------------- block orders

  /** Some edge goes from block `p` to block `k`. */
  predicate Links(edges: seq<Edge>, p: string, k: string)
  {
    exists i :: 0 <= i < |edges| && edges[i].source == p && edges[i].target == k
  }

  /** Some edge from a different block targets `k`. */
  predicate TargetedByOther(edges: seq<Edge>, k: string)
  {
    exists i :: 0 <= i < |edges| && edges[i].target == k && edges[i].source != k
  }

  /** The blocks no other block hands off to, in key order. */
  function Roots(blocks: AllBlocks, edges: seq<Edge>): seq<string>
  {
    Filter(Keys(blocks), (k: string) => !TargetedByOther(edges, k))
  }

  /** `firstBlocks`: the roots sorted by their key, or the default block alone when there is none. */
  function FirstBlocks(blocks: AllBlocks, edges: seq<Edge>, startTimes: map<string, int>, defaultBlockId: string): seq<string>
  {
    var roots := Sort(Roots(blocks, edges), BlockLe(edges, startTimes));
    if roots == [] then [defaultBlockId] else roots
  }

  /** `nextNodes`: the blocks that `current` hands off to, sorted by their key. */
  function NextNodes(blocks: AllBlocks, edges: seq<Edge>, startTimes: map<string, int>, current: string): seq<string>
  {
    Sort(Filter(Keys(blocks), (k: string) => Links(edges, current, k)), BlockLe(edges, startTimes))
  }

  /** `nextBlocks` of the sweep: the blocks not yet placed, sorted by their key. */
  function SweepOrder(blocks: AllBlocks, edges: seq<Edge>, startTimes: map<string, int>, placed: Positions): seq<string>
  {
    Sort(Filter(Keys(blocks), (k: string) => k !in placed), BlockLe(edges, startTimes))
  }

  /** The first blocks are the roots (or the default block), each once. */
  lemma FirstBlocksFacts(blocks: AllBlocks, edges: seq<Edge>, startTimes: map<string, int>, defaultBlockId: string)
    requires UniqueBlockIds(blocks)
    ensures var first := FirstBlocks(blocks, edges, startTimes, defaultBlockId);
      && NoRepeats(first)
      && (first == [defaultBlockId] || forall k :: k in first <==> k in Keys(blocks) && !TargetedByOther(edges, k))
      && forall k :: k in first ==> k in KeySet(blocks) + {defaultBlockId}
  {
    var roots := Roots(blocks, edges);
    assert NoRepeats(Keys(blocks));
    FilterNoRepeats(Keys(blocks), (k: string) => !TargetedByOther(edges, k));
    SortNoRepeats(roots, BlockLe(edges, startTimes));
    SortMembership(roots, BlockLe(edges, startTimes));
  }

  /** With every key defined, the roots appear in non-decreasing key order. */
  lemma RootsSortedByKey(blocks: AllBlocks, edges: seq<Edge>, startTimes: map<string, int>)
    requires forall k :: k in Roots(blocks, edges) ==> StartKey(edges, startTimes, k).Some?
    ensures var roots := Sort(Roots(blocks, edges), BlockLe(edges, startTimes));
      forall i, j :: 0 <= i < j < |roots| ==>
        && StartKey(edges, startTimes, roots[i]).Some?
        && StartKey(edges, startTimes, roots[j]).Some?
        && StartKey(edges, startTimes, roots[i]).value <= StartKey(edges, startTimes, roots[j]).value
  {
    var le := BlockLe(edges, startTimes);
    var roots := Roots(blocks, edges);
    BlockLePreorder(edges, startTimes, roots);
    SortSorted(roots, le);
    SortMembership(roots, le);
    var sorted := Sort(roots, le);
    forall i, j | 0 <= i < j < |sorted|
      ensures StartKey(edges, startTimes, sorted[i]).Some? && StartKey(edges, startTimes, sorted[j]).Some?
      ensures StartKey(edges, startTimes, sorted[i]).value <= StartKey(edges, startTimes, sorted[j]).value
    {
      assert sorted[i] in roots && sorted[j] in roots;
      assert le(sorted[i], sorted[j]);
    }
  }

  /** Where every key is defined, the key order is a total preorder. */
  lemma BlockLePreorder(edges: seq<Edge>, startTimes: map<string, int>, u: seq<string>)
    requires forall k :: k in u ==> StartKey(edges, startTimes, k).Some?
    ensures PreorderOn(u, BlockLe(edges, startTimes))
  {
  }

  lemma NextNodesFacts(blocks: AllBlocks, edges: seq<Edge>, startTimes: map<string, int>, current: string)
    ensures forall k :: k in NextNodes(blocks, edges, startTimes, current) ==> k in KeySet(blocks) && Links(edges, current, k)
  {
    SortMembership(Filter(Keys(blocks), (k: string) => Links(edges, current, k)), BlockLe(edges, startTimes));
  }

  lemma SweepOrderFacts(blocks: AllBlocks, edges: seq<Edge>, startTimes: map<string, int>, placed: Positions)
    ensures forall k :: k in SweepOrder(blocks, edges, startTimes, placed) <==> k in KeySet(blocks) && k !in placed
  {
    SortMembership(Filter(Keys(blocks), (k: string) => k !in placed), BlockLe(edges, startTimes));
  }

  // ---------------------------------------------------------------- rows of a column

  /** The rows used in column `c`. */
  function ColumnRows(m: Positions, c: int): set<int>
  {
    set k | k in m && m[k].x == c :: m[k].y
  }

  predicate IsMax(s: set<int>, r: int)
  {
    r in s && forall z :: z in s ==> z <= r
  }

  lemma {:induction false} MaxExists(s: set<int>)
    requires exists w :: w in s
    ensures exists r :: IsMax(s, r)
  {
    var x :| x in s;
    var t := s - {x};
    if exists z :: z in t {
      MaxExists(t);
      var r :| IsMax(t, r);
      var m := if x > r then x else r;
      forall z | z in s ensures z <= m {
        if z != x {
          assert z in t;
        }
      }
      assert IsMax(s, m);
    } else {
      forall z | z in s ensures z <= x {
        assert z !in t;
      }
      assert IsMax(s, x);
    }
  }

  /** The largest element of a non-empty set. */
  function MaxRow(s: set<int>): (r: int)
    requires exists w :: w in s
    ensures IsMax(s, r)
  {
    MaxExists(s);
    var r :| IsMax(s, r);
    r
  }

  /**
    `startY`: one past the largest row used in column `c` (the first entry
    of the column's positions sorted by descending row), or 0 for an empty
    column.
  */
  function NextRow(m: Positions, c: int): (r: int)
    ensures forall k :: k in m && m[k].x == c ==> m[k].y < r
    ensures (exists k :: k in m && m[k].x == c) ==> exists k :: k in m && m[k].x == c && m[k].y == r - 1
    ensures (forall k :: k in m ==> m[k].x != c) ==> r == 0
  {
    if forall k :: k in m ==> m[k].x != c then 0
    else
      var rows := ColumnRows(m, c);
      assert forall k :: k in m && m[k].x == c ==> m[k].y in rows;
      MaxRow(rows) + 1
  }

  // ---------------------------------------------------------------- invariants of the layout

  /** `b` keeps every position of `a`: nothing is overwritten. */
  predicate Grows(a: Positions, b: Positions)
  {
    forall k :: k in a ==> k in b && b[k] == a[k]
  }

  /** The blocks `b` adds to `a` lie in column `c` or further right. */
  predicate NewFrom(a: Positions, b: Positions, c: int)
  {
    forall k :: k in b && k !in a ==> b[k].x >= c
  }

  /** Block `k` is targeted by an edge from a block one column to its left. */
  predicate HasParent(edges: seq<Edge>, m: Positions, k: string)
    requires k in m
  {
    exists p :: p in m && m[p].x == m[k].x - 1 && Links(edges, p, k)
  }

  /** Every block `b` adds to `a` has a parent. */
  predicate Parented(edges: seq<Edge>, a: Positions, b: Positions)
  {
    forall k :: k in b && k !in a ==> HasParent(edges, b, k)
  }

  /** No two blocks share a cell. */
  predicate Injective(m: Positions)
  {
    forall a, b :: a in m && b in m && a != b ==> m[a] != m[b]
  }

  /** Every row used in column `c` is below `r`. */
  predicate RowsBelow(m: Positions, c: int, r: int)
  {
    forall k :: k in m && m[k].x == c ==> m[k].y < r
  }

  predicate OnGrid(m: Positions)
  {
    forall k :: k in m ==> m[k].x >= 0 && m[k].y >= 0
  }

  lemma GrowsTrans(a: Positions, b: Positions, c: Positions)
    requires Grows(a, b) && Grows(b, c)
    ensures Grows(a, c)
  {
  }

  lemma HasParentGrows(edges: seq<Edge>, a: Positions, b: Positions, k: string)
    requires k in a && HasParent(edges, a, k) && Grows(a, b)
    ensures k in b && HasParent(edges, b, k)
  {
    var p :| p in a && a[p].x == a[k].x - 1 && Links(edges, p, k);
    assert p in b && b[p].x == b[k].x - 1;
  }

  /** Placing `node` in a fresh cell of column `x` above the column's rows keeps the cells distinct. */
  lemma PlaceInjective(m: Positions, node: string, x: int, y: int)
    requires node !in m && Injective(m) && RowsBelow(m, x, y)
    ensures Injective(m[node := Pos(x, y)]) && RowsBelow(m[node := Pos(x, y)], x, y + 1)
  {
  }

  /** Rows of column `c` stay below `r` when the blocks added lie further right. */
  lemma RowsBelowKept(a: Positions, b: Positions, c: int, r: int)
    requires RowsBelow(a, c, r) && Grows(a, b) && NewFrom(a, b, c + 1)
    ensures RowsBelow(b, c, r)
  {
    forall k | k in b && b[k].x == c ensures b[k].y < r {
      if k in a {
        assert a[k] == b[k];
      }
    }
  }

  lemma OnGridPlace(m: Positions, node: string, x: int, y: int)
    requires OnGrid(m) && x >= 0 && y >= 0
    ensures OnGrid(m[node := Pos(x, y)]) && NextRow(m[node := Pos(x, y)], x + 1) >= 0
  {
    var placed := m[node := Pos(x, y)];
    if exists k :: k in placed && placed[k].x == x + 1 {
      var k :| k in placed && placed[k].x == x + 1 && placed[k].y == NextRow(placed, x + 1) - 1;
    }
  }

  /** The blocks `b` adds to `a` in column `c` sit in row `r` or below. */
  predicate NewRowsFrom(a: Positions, b: Positions, c: int, r: int)
  {
    forall k :: k in b && k !in a && b[k].x == c ==> b[k].y >= r
  }

  /** A successor placed at row `y` of column `x`, below `startY`, keeps the other successors' rows from `startY` on. */
  lemma NewRowsStep(orderIn: Positions, before: Positions, after: Positions, node: string, x: int, y: int, startY: int)
    requires NewRowsFrom(orderIn, before, x, startY) && y >= startY
    requires node !in before && Grows(before[node := Pos(x, y)], after)
    requires forall k :: k in after && k !in before && after[k].x == x ==> k == node && after[k].y == y
    ensures NewRowsFrom(orderIn, after, x, startY)
  {
  }

  /** The invariants of the successor loop survive one placed successor. */
  lemma SuccessorStep(
    edges: seq<Edge>, orderIn: Positions, before: Positions, after: Positions,
    current: string, node: string, x: int, y: int)
    requires Grows(orderIn, before) && NewFrom(orderIn, before, x)
    requires node !in before
    requires Grows(before[node := Pos(x, y)], after) && NewFrom(before[node := Pos(x, y)], after, x + 1)
    requires Parented(edges, before[node := Pos(x, y)], after)
    requires current in orderIn && orderIn[current].x == x - 1 && Links(edges, current, node)
      ==> Parented(edges, orderIn, before)
    ensures Grows(orderIn, after) && NewFrom(orderIn, after, x)
    ensures current in orderIn && orderIn[current].x == x - 1 && Links(edges, current, node)
      ==> Parented(edges, orderIn, after)
  {
    var placed := before[node := Pos(x, y)];
    GrowsTrans(before, placed, after);
    GrowsTrans(orderIn, before, after);
    forall k | k in after && k !in orderIn ensures after[k].x >= x {
      if k in before {
        assert after[k] == before[k];
      } else if k == node {
        assert after[k] == placed[k];
      }
    }
    if current in orderIn && orderIn[current].x == x - 1 && Links(edges, current, node) {
      forall k | k in after && k !in orderIn ensures HasParent(edges, after, k) {
        if k in before {
          HasParentGrows(edges, before, after, k);
        } else if k == node {
          assert after[node] == Pos(x, y) && after[current] == orderIn[current];
        }
      }
    }
  }

  // ---------------------------------------------------------------- placement

  /**
    The body of the "not yet placed" branch: put `node` at (x, y), then lay
    out what it hands off to from column x + 1, starting below the rows
    already used there.
  */
  method PlaceOne(
    blocks: AllBlocks, edges: seq<Edge>, startTimes: map<string, int>,
    orderIn: Positions, node: string, x: int, y: int)
    returns (order: Positions)
    requires node !in orderIn
    decreases KeySet(blocks) - orderIn.Keys, if node in KeySet(blocks) then 0 else 2
    ensures Grows(orderIn[node := Pos(x, y)], order)
    ensures order.Keys <= orderIn.Keys + {node} + KeySet(blocks)
    ensures NewFrom(orderIn[node := Pos(x, y)], order, x + 1)
    ensures forall k :: k in order && k !in orderIn && order[k].x == x ==> k == node && order[k].y == y
    ensures Parented(edges, orderIn[node := Pos(x, y)], order)
    ensures Injective(orderIn) && RowsBelow(orderIn, x, y) ==> Injective(order) && RowsBelow(order, x, y + 1)
    ensures OnGrid(orderIn) && x >= 0 && y >= 0 ==> OnGrid(order)
  {
    var placed := orderIn[node := Pos(x, y)];
    var startY := NextRow(placed, x + 1);
    if node in KeySet(blocks) {
      assert node in KeySet(blocks) - orderIn.Keys && node !in KeySet(blocks) - placed.Keys;
    } else {
      assert KeySet(blocks) - placed.Keys == KeySet(blocks) - orderIn.Keys;
    }
    order := PlaceSuccessors(blocks, edges, startTimes, placed, node, x + 1, startY);
    if Injective(orderIn) && RowsBelow(orderIn, x, y) {
      PlaceInjective(orderIn, node, x, y);
      RowsBelowKept(placed, order, x, y + 1);
    }
    if OnGrid(orderIn) && x >= 0 && y >= 0 {
      OnGridPlace(orderIn, node, x, y);
    }
  }

  /** `generateNextNodePositionsInternal`: lay out the blocks `current` hands off to, in column `x` from row `startY`. */
  method PlaceSuccessors(
    blocks: AllBlocks, edges: seq<Edge>, startTimes: map<string, int>,
    orderIn: Positions, current: string, x: int, startY: int)
    returns (order: Positions)
    decreases KeySet(blocks) - orderIn.Keys, 1
    ensures Grows(orderIn, order)
    ensures order.Keys <= orderIn.Keys + KeySet(blocks)
    ensures NewFrom(orderIn, order, x)
    ensures NewRowsFrom(orderIn, order, x, startY)
    ensures current in orderIn && orderIn[current].x == x - 1 ==> Parented(edges, orderIn, order)
    ensures Injective(orderIn) && RowsBelow(orderIn, x, startY) ==> Injective(order)
    ensures OnGrid(orderIn) && x >= 0 && startY >= 0 ==> OnGrid(order)
  {
    var nextNodes := NextNodes(blocks, edges, startTimes, current);
    NextNodesFacts(blocks, edges, startTimes, current);
    order := orderIn;
    var heightCursor := startY;
    for i := 0 to |nextNodes|
      invariant Grows(orderIn, order)
      invariant order.Keys <= orderIn.Keys + KeySet(blocks)
      invariant NewFrom(orderIn, order, x)
      invariant NewRowsFrom(orderIn, order, x, startY)
      invariant current in orderIn && orderIn[current].x == x - 1 ==> Parented(edges, orderIn, order)
      invariant Injective(orderIn) && RowsBelow(orderIn, x, startY) ==> Injective(order) && RowsBelow(order, x, heightCursor)
      invariant heightCursor >= startY
      invariant OnGrid(orderIn) && x >= 0 && startY >= 0 ==> OnGrid(order)
    {
      var node := nextNodes[i];
      if node !in order {
        ghost var before := order;
        assert node in KeySet(blocks) && Links(edges, current, node);
        order := PlaceOne(blocks, edges, startTimes, order, node, x, heightCursor);
        SuccessorStep(edges, orderIn, before, order, current, node, x, heightCursor);
        NewRowsStep(orderIn, before, order, node, x, heightCursor, startY);
        heightCursor := heightCursor + 1;
      }
    }
  }

  /** Every block placed without a parent sits in column 0. */
  predicate RootedOrParented(edges: seq<Edge>, m: Positions)
  {
    forall k :: k in m && m[k].x != 0 ==> HasParent(edges, m, k)
  }

  /** The layout invariants of the two top-level loops. */
  predicate TopInvariant(blocks: AllBlocks, edges: seq<Edge>, defaultBlockId: string, m: Positions, cursor: int)
  {
    && m.Keys <= KeySet(blocks) + {defaultBlockId}
    && Injective(m)
    && OnGrid(m)
    && RowsBelow(m, 0, cursor)
    && cursor >= 0
    && RootedOrParented(edges, m)
  }

  lemma RootedStep(edges: seq<Edge>, m: Positions, node: string, cursor: int, after: Positions)
    requires RootedOrParented(edges, m) && node !in m
    requires Grows(m[node := Pos(0, cursor)], after) && Parented(edges, m[node := Pos(0, cursor)], after)
    ensures RootedOrParented(edges, after)
  {
    var placed := m[node := Pos(0, cursor)];
    assert node in placed && after[node] == Pos(0, cursor);
    forall k | k in after && after[k].x != 0 ensures HasParent(edges, after, k) {
      if k in m {
        assert after[k] == m[k];
        HasParentGrows(edges, m, after, k);
      }
    }
  }

  lemma PlacedGrows(m: Positions, node: string, p: Pos, after: Positions)
    requires node !in m && Grows(m[node := p], after)
    ensures Grows(m, after) && node in after && after[node] == p
  {
    assert node in m[node := p];
  }

  /** One block placed at (0, cursor) keeps the top-level invariant. */
  lemma TopStep(
    blocks: AllBlocks, edges: seq<Edge>, defaultBlockId: string,
    m: Positions, block: string, cursor: int, after: Positions)
    requires block !in m && block in KeySet(blocks) + {defaultBlockId}
    requires TopInvariant(blocks, edges, defaultBlockId, m, cursor)
    requires Grows(m[block := Pos(0, cursor)], after)
    requires after.Keys <= m.Keys + {block} + KeySet(blocks)
    requires Parented(edges, m[block := Pos(0, cursor)], after)
    requires Injective(after) && RowsBelow(after, 0, cursor + 1) && OnGrid(after)
    ensures TopInvariant(blocks, edges, defaultBlockId, after, cursor + 1)
  {
    RootedStep(edges, m, block, cursor, after);
  }

  /** The repeated top-level body: unless `block` is placed, put it at (0, cursor) and lay out what follows it. */
  method PlaceRoot(
    blocks: AllBlocks, edges: seq<Edge>, startTimes: map<string, int>, defaultBlockId: string,
    orderIn: Positions, block: string, cursor: int)
    returns (order: Positions, nextCursor: int)
    requires block in KeySet(blocks) + {defaultBlockId}
    ensures Grows(orderIn, order) && block in order
    ensures block in orderIn ==> order == orderIn && nextCursor == cursor
    ensures block !in orderIn ==> order[block] == Pos(0, cursor) && nextCursor == cursor + 1
    ensures block !in orderIn ==> Parented(edges, orderIn[block := Pos(0, cursor)], order)
    ensures TopInvariant(blocks, edges, defaultBlockId, orderIn, cursor) ==> TopInvariant(blocks, edges, defaultBlockId, order, nextCursor)
  {
    if block !in orderIn {
      order := PlaceOne(blocks, edges, startTimes, orderIn, block, 0, cursor);
      nextCursor := cursor + 1;
      PlacedGrows(orderIn, block, Pos(0, cursor), order);
      if TopInvariant(blocks, edges, defaultBlockId, orderIn, cursor) {
        TopStep(blocks, edges, defaultBlockId, orderIn, block, cursor, order);
      }
    } else {
      order, nextCursor := orderIn, cursor;
    }
  }

  /** The roots loop keeps the roots placed so far at (0, 0), (0, 1), ... */
  predicate RootsAt(first: seq<string>, i: int, m: Positions)
    requires 0 <= i <= |first|
  {
    forall k :: 0 <= k < i ==> first[k] in m && m[first[k]] == Pos(0, k)
  }

  /** Every block placed is one of the first `i` first blocks or has a parent. */
  predicate FromRoots(edges: seq<Edge>, first: seq<string>, i: int, m: Positions)
    requires 0 <= i <= |first|
  {
    forall k :: k in m ==> k in first[..i] || HasParent(edges, m, k)
  }

  /** A block with a parent is targeted by an edge from another block. */
  lemma ParentTargets(edges: seq<Edge>, m: Positions, k: string)
    requires k in m && HasParent(edges, m, k)
    ensures TargetedByOther(edges, k)
  {
    var p :| p in m && m[p].x == m[k].x - 1 && Links(edges, p, k);
    var e :| 0 <= e < |edges| && edges[e].source == p && edges[e].target == k;
    assert edges[e].source != k;
  }

  /** No first block has been placed before the roots loop reaches it. */
  lemma RootUnplaced(first: seq<string>, edges: seq<Edge>, defaultBlockId: string, i: int, m: Positions)
    requires NoRepeats(first)
    requires first == [defaultBlockId] || forall k :: k in first ==> !TargetedByOther(edges, k)
    requires 0 <= i < |first| && FromRoots(edges, first, i, m)
    requires i == 0 ==> m == map[]
    ensures first[i] !in m
  {
    var block := first[i];
    if block in m {
      if block !in first[..i] {
        ParentTargets(edges, m, block);
      }
      assert false;
    }
  }

  lemma RootStep(
    edges: seq<Edge>, first: seq<string>, i: int, m: Positions, after: Positions, cursor: int)
    requires 0 <= i < |first| && first[i] !in m && cursor == i
    requires RootsAt(first, i, m) && FromRoots(edges, first, i, m)
    requires Grows(m, after) && first[i] in after && after[first[i]] == Pos(0, cursor)
    requires Parented(edges, m[first[i] := Pos(0, cursor)], after)
    ensures RootsAt(first, i + 1, after) && FromRoots(edges, first, i + 1, after)
  {
    var placed := m[first[i] := Pos(0, cursor)];
    assert first[..i + 1] == first[..i] + [first[i]];
    forall k | 0 <= k < i + 1 ensures first[k] in after && after[first[k]] == Pos(0, k) {
      if k < i {
        assert first[k] in m && after[first[k]] == m[first[k]];
      }
    }
    forall k | k in after ensures k in first[..i + 1] || HasParent(edges, after, k) {
      if k in m {
        if k !in first[..i] {
          HasParentGrows(edges, m, after, k);
        }
      } else if k != first[i] {
        assert k !in placed;
      }
    }
  }

  lemma RootsAtGrows(first: seq<string>, a: Positions, b: Positions)
    requires RootsAt(first, |first|, a) && Grows(a, b)
    ensures RootsAt(first, |first|, b)
  {
  }

  /** The loop over `firstBlocks`: each root is placed at (0, its index). */
  method PlaceFirstBlocks(
    blocks: AllBlocks, edges: seq<Edge>, startTimes: map<string, int>, defaultBlockId: string,
    firstBlocks: seq<string>)
    returns (blockOrder: Positions, firstTierCursor: int)
    requires NoRepeats(firstBlocks)
    requires firstBlocks == [defaultBlockId] || forall k :: k in firstBlocks ==> !TargetedByOther(edges, k)
    requires forall k :: k in firstBlocks ==> k in KeySet(blocks) + {defaultBlockId}
    ensures TopInvariant(blocks, edges, defaultBlockId, blockOrder, firstTierCursor)
    ensures RootsAt(firstBlocks, |firstBlocks|, blockOrder)
  {
    blockOrder := map[];
    firstTierCursor := 0;
    for i := 0 to |firstBlocks|
      invariant TopInvariant(blocks, edges, defaultBlockId, blockOrder, firstTierCursor)
      invariant firstTierCursor == i
      invariant RootsAt(firstBlocks, i, blockOrder) && FromRoots(edges, firstBlocks, i, blockOrder)
      invariant i == 0 ==> blockOrder == map[]
    {
      var block := firstBlocks[i];
      RootUnplaced(firstBlocks, edges, defaultBlockId, i, blockOrder);
      ghost var before := blockOrder;
      blockOrder, firstTierCursor := PlaceRoot(blocks, edges, startTimes, defaultBlockId, blockOrder, block, firstTierCursor);
      RootStep(edges, firstBlocks, i, before, blockOrder, i);
    }
  }

  /** One pass of the sweep's `for` loop over `nextBlocks`: at least the first of them gets placed. */
  method SweepPass(
    blocks: AllBlocks, edges: seq<Edge>, startTimes: map<string, int>, defaultBlockId: string,
    orderIn: Positions, cursorIn: int, nextBlocks: seq<string>)
    returns (blockOrder: Positions, firstTierCursor: int)
    requires |nextBlocks| > 0
    requires forall k :: k in nextBlocks ==> k in KeySet(blocks)
    requires TopInvariant(blocks, edges, defaultBlockId, orderIn, cursorIn)
    ensures TopInvariant(blocks, edges, defaultBlockId, blockOrder, firstTierCursor)
    ensures Grows(orderIn, blockOrder) && nextBlocks[0] in blockOrder
  {
    blockOrder, firstTierCursor := orderIn, cursorIn;
    for j := 0 to |nextBlocks|
      invariant TopInvariant(blocks, edges, defaultBlockId, blockOrder, firstTierCursor)
      invariant Grows(orderIn, blockOrder)
      invariant j > 0 ==> nextBlocks[0] in blockOrder
    {
      ghost var before := blockOrder;
      blockOrder, firstTierCursor := PlaceRoot(blocks, edges, startTimes, defaultBlockId, blockOrder, nextBlocks[j], firstTierCursor);
      GrowsTrans(orderIn, before, blockOrder);
    }
  }

  /** The closing `while` loop: sweep until every block has a position. */
  method Sweep(
    blocks: AllBlocks, edges: seq<Edge>, startTimes: map<string, int>, defaultBlockId: string,
    orderIn: Positions, cursorIn: int)
    returns (blockOrder: Positions)
    requires TopInvariant(blocks, edges, defaultBlockId, orderIn, cursorIn)
    ensures Grows(orderIn, blockOrder)
    ensures exists cursor :: TopInvariant(blocks, edges, defaultBlockId, blockOrder, cursor)
    ensures forall k :: k in KeySet(blocks) ==> k in blockOrder
  {
    blockOrder := orderIn;
    var firstTierCursor := cursorIn;
    SweepOrderFacts(blocks, edges, startTimes, blockOrder);
    while |SweepOrder(blocks, edges, startTimes, blockOrder)| > 0
      invariant TopInvariant(blocks, edges, defaultBlockId, blockOrder, firstTierCursor)
      invariant Grows(orderIn, blockOrder)
      invariant forall k :: k in SweepOrder(blocks, edges, startTimes, blockOrder) <==> k in KeySet(blocks) && k !in blockOrder
      decreases KeySet(blocks) - blockOrder.Keys
    {
      var nextBlocks := SweepOrder(blocks, edges, startTimes, blockOrder);
      ghost var start := blockOrder;
      blockOrder, firstTierCursor := SweepPass(blocks, edges, startTimes, defaultBlockId, blockOrder, firstTierCursor, nextBlocks);
      assert nextBlocks[0] in KeySet(blocks) - start.Keys;
      GrowsTrans(orderIn, start, blockOrder);
      SweepOrderFacts(blocks, edges, startTimes, blockOrder);
    }
    assert SweepOrder(blocks, edges, startTimes, blockOrder) == [];
  }

  /** `generateNodePositions`. */
  method GenerateNodePositions(blocks: AllBlocks, edges: seq<Edge>, defaultBlockId: string)
    returns (blockOrder: Positions)
    requires StartsWellFormed(blocks)
    requires UniqueBlockIds(blocks)
    ensures forall i :: 0 <= i < |blocks| ==> blocks[i].blockId in blockOrder
    ensures blockOrder.Keys <= KeySet(blocks) + {defaultBlockId}
    ensures Injective(blockOrder) && OnGrid(blockOrder)
    ensures forall k :: k in blockOrder && blockOrder[k].x != 0 ==> HasParent(edges, blockOrder, k)
    ensures var first := FirstBlocks(blocks, edges, StartTimes(blocks), defaultBlockId);
      forall k :: 0 <= k < |first| ==> first[k] in blockOrder && blockOrder[first[k]] == Pos(0, k)
  {
    var startTimes := ComputeStartTimes(blocks);
    var firstBlocks := FirstBlocks(blocks, edges, startTimes, defaultBlockId);
    FirstBlocksFacts(blocks, edges, startTimes, defaultBlockId);
    var placed, cursor := PlaceFirstBlocks(blocks, edges, startTimes, defaultBlockId, firstBlocks);
    blockOrder := Sweep(blocks, edges, startTimes, defaultBlockId, placed, cursor);
    RootsAtGrows(firstBlocks, placed, blockOrder);
    forall i | 0 <= i < |blocks| ensures blocks[i].blockId in blockOrder {
      assert blocks[i].blockId in KeySet(blocks);
    }
  }
}
