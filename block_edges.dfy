/**
  Hand-off edges of the block graph (`generateEdges` in
  src/app/tracker/blocks/page.client.tsx): every bus is walked through its
  trips in start-time order with `getNextTrip`, and each step that is not a
  plain "next trip in the same block" becomes an edge from the earlier
  trip's block to the later one's.
*/
module BlockEdges {
  import opened Wrappers
  import opened TimeCodec
  import opened BusTracker
  import opened BusPalette

  /**
    The edge fields the graph uses. `color` stands for the arrow-head and
    stroke colour, `edgeLabel` is `label` (a reserved word here) and
    `smoothstep` is `type === "smoothstep"`.
  */
  datatype Edge = Edge(
    id: string,
    sourceHandle: string,
    targetHandle: string,
    source: string,
    target: string,
    edgeLabel: string,
    color: string,
    smoothstep: bool)

  /** The truthy bus ids of a block's trips, in list order. */
  function TripBusIds(trips: seq<Trip>): (r: seq<string>)
    ensures forall x :: x in r <==> exists j :: 0 <= j < |trips| && trips[j].busId == Some(x) && x != ""
  {
    if trips == [] then []
    else
      var p := trips[..|trips| - 1];
      var t := trips[|trips| - 1];
      assert forall j :: 0 <= j < |p| ==> p[j] == trips[j];
      TripBusIds(p) + (if Truthy(t.busId) then [t.busId.value] else [])
  }

  /** The truthy bus ids of all trips, blocks in `for...in` order. */
  function BlockBusIds(blocks: AllBlocks): seq<string>
  {
    if blocks == [] then []
    else BlockBusIds(blocks[..|blocks| - 1]) + TripBusIds(blocks[|blocks| - 1].trips)
  }

  /** The `buses` set, in insertion order. */
  function Buses(blocks: AllBlocks): seq<string>
  {
    FirstSeen(BlockBusIds(blocks))
  }

  /** The edge pushed for the hand-off from trip `a` to trip `b`. */
  function MakeEdge(a: TripAt, b: TripAt, color: string): Edge
  {
    var cross := a.blockId != b.blockId;
    Edge(
      a.trip.tripId + "->" + b.trip.tripId,
      a.trip.tripId + "R",
      b.trip.tripId + (if cross then "L" else "R"),
      a.blockId,
      b.blockId,
      if cross then a.trip.busId.GetOr("") else "",
      color,
      !cross)
  }

  /** The trips the walk of `bus` visits from `cur` on: `cur`, then each next trip in turn. */
  function Visits(blocks: AllBlocks, bus: string, cur: TripAt): seq<TripAt>
    requires StartsWellFormed(blocks) && WellFormed(cur.trip.scheduledStartTime)
    decreases RankBound - Rank(cur.trip.scheduledStartTime)
  {
    var next := NextTrip(blocks, bus, Some(cur.trip.scheduledStartTime));
    if next.None? then [cur]
    else
      NextTripIsStrictlyLater(blocks, bus, cur.trip.scheduledStartTime);
      [cur] + Visits(blocks, bus, next.value)
  }

  /** The edges the `while` loop pushes for `bus`, starting from `cur`. */
  function Walk(blocks: AllBlocks, bus: string, cur: TripAt, color: string): seq<Edge>
    requires StartsWellFormed(blocks) && WellFormed(cur.trip.scheduledStartTime)
    decreases RankBound - Rank(cur.trip.scheduledStartTime)
  {
    var next := NextTrip(blocks, bus, Some(cur.trip.scheduledStartTime));
    if next.None? then []
    else
      NextTripIsStrictlyLater(blocks, bus, cur.trip.scheduledStartTime);
      HandOff(cur, next.value, color) + Walk(blocks, bus, next.value, color)
  }

  /** All edges of one bus: the walk from its earliest trip. */
  function BusEdges(blocks: AllBlocks, bus: string, color: string): seq<Edge>
    requires StartsWellFormed(blocks)
  {
    match NextTrip(blocks, bus, None)
    case None => []
    case Some(first) => Walk(blocks, bus, first, color)
  }

  /** The edges of the buses of `order`, the k-th walked with colour `ColorFor(k)`. */
  function AllEdges(blocks: AllBlocks, order: seq<string>): seq<Edge>
    requires StartsWellFormed(blocks)
  {
    if order == [] then []
    else AllEdges(blocks, order[..|order| - 1]) + BusEdges(blocks, order[|order| - 1], ColorFor(|order| - 1))
  }

  // ---------------------------------------------------------------------
  // The methods

  /** The inner loop collecting bus ids: one block's trips, added to the set collected so far. */
  method AddBlockBuses(ghost seen: seq<string>, trips: seq<Trip>, busesIn: seq<string>) returns (buses: seq<string>)
    requires busesIn == FirstSeen(seen)
    ensures buses == FirstSeen(seen + TripBusIds(trips))
  {
    buses := busesIn;
    assert seen + TripBusIds(trips[..0]) == seen;
    for j := 0 to |trips|
      invariant buses == FirstSeen(seen + TripBusIds(trips[..j]))
    {
      var data := trips[j];
      TripBusIdsSnoc(seen, trips, j);
      if data.busId.Some? && data.busId.value != "" {
        FirstSeenSnoc(seen + TripBusIds(trips[..j]), data.busId.value);
        if data.busId.value !in buses {
          buses := buses + [data.busId.value];
        }
      }
    }
    assert trips[..|trips|] == trips;
  }

  lemma TripBusIdsSnoc(seen: seq<string>, trips: seq<Trip>, j: nat)
    requires j < |trips|
    ensures Truthy(trips[j].busId) ==> seen + TripBusIds(trips[..j + 1]) == seen + TripBusIds(trips[..j]) + [trips[j].busId.value]
    ensures !Truthy(trips[j].busId) ==> seen + TripBusIds(trips[..j + 1]) == seen + TripBusIds(trips[..j])
  {
    assert trips[..j + 1][..j] == trips[..j];
  }

  /** The first loop of `generateEdges`: the `buses` set. */
  method CollectBuses(blocks: AllBlocks) returns (buses: seq<string>)
    ensures buses == Buses(blocks)
  {
    buses := [];
    for i := 0 to |blocks|
      invariant buses == FirstSeen(BlockBusIds(blocks[..i]))
    {
      assert blocks[..i + 1][..i] == blocks[..i];
      buses := AddBlockBuses(BlockBusIds(blocks[..i]), blocks[i].trips, buses);
    }
    assert blocks[..|blocks|] == blocks;
  }

  /** The `while (firstTrip && nextTrip)` loop for one bus, pushing onto `edgesIn`. */
  method WalkBus(blocks: AllBlocks, bus: string, first: TripAt, next: Option<TripAt>, color: string, edgesIn: seq<Edge>)
    returns (edges: seq<Edge>)
    requires StartsWellFormed(blocks) && WellFormed(first.trip.scheduledStartTime)
    requires next == NextTrip(blocks, bus, Some(first.trip.scheduledStartTime))
    ensures edges == edgesIn + Walk(blocks, bus, first, color)
  {
    edges := edgesIn;
    var firstTrip := first;
    var nextTrip := next;
    while nextTrip.Some?
      invariant WellFormed(firstTrip.trip.scheduledStartTime)
      invariant nextTrip == NextTrip(blocks, bus, Some(firstTrip.trip.scheduledStartTime))
      invariant edges + Walk(blocks, bus, firstTrip, color) == edgesIn + Walk(blocks, bus, first, color)
      decreases RankBound - Rank(firstTrip.trip.scheduledStartTime)
    {
      WalkStep(blocks, bus, firstTrip, color);
      edges := PushHandOff(blocks, bus, firstTrip, nextTrip.value, color, edges);
      firstTrip := nextTrip.value;
      nextTrip := GetNextTrip(blocks, bus, Some(firstTrip.trip.scheduledStartTime));
    }
  }

  /** The loop body's `if`: push the edge from `firstTrip` to `nextTrip` unless `nextTrip` directly follows it in its block. */
  method PushHandOff(blocks: AllBlocks, bus: string, firstTrip: TripAt, nextTrip: TripAt, color: string, edgesIn: seq<Edge>)
    returns (edges: seq<Edge>)
    requires StartsWellFormed(blocks) && WellFormed(firstTrip.trip.scheduledStartTime)
    requires NextTrip(blocks, bus, Some(firstTrip.trip.scheduledStartTime)) == Some(nextTrip)
    ensures WellFormed(nextTrip.trip.scheduledStartTime)
    ensures edges + Walk(blocks, bus, nextTrip, color) == edgesIn + Walk(blocks, bus, firstTrip, color)
  {
    WalkStep(blocks, bus, firstTrip, color);
    edges := edgesIn;
    if nextTrip.lastTripId != Some(firstTrip.trip.tripId) {
      edges := edges + [MakeEdge(firstTrip, nextTrip, color)];
      assert edges + Walk(blocks, bus, nextTrip, color) == edgesIn + ([MakeEdge(firstTrip, nextTrip, color)] + Walk(blocks, bus, nextTrip, color));
    } else {
      assert [] + Walk(blocks, bus, nextTrip, color) == Walk(blocks, bus, nextTrip, color);
    }
  }

  /** One step of the walk: the next trip starts strictly later, and the walk from `cur` is its hand-off edge, if kept, then the walk from there. */
  lemma WalkStep(blocks: AllBlocks, bus: string, cur: TripAt, color: string)
    requires StartsWellFormed(blocks) && WellFormed(cur.trip.scheduledStartTime)
    requires NextTrip(blocks, bus, Some(cur.trip.scheduledStartTime)).Some?
    ensures var next := NextTrip(blocks, bus, Some(cur.trip.scheduledStartTime)).value;
      && WellFormed(next.trip.scheduledStartTime)
      && Rank(cur.trip.scheduledStartTime) < Rank(next.trip.scheduledStartTime)
      && Walk(blocks, bus, cur, color)
         == HandOff(cur, next, color) + Walk(blocks, bus, next, color)
  {
    NextTripIsStrictlyLater(blocks, bus, cur.trip.scheduledStartTime);
  }

  /**
    `generateEdges`: the edges of every bus in set order and the colour map.
    `if (!firstTrip) continue;` is written as a guard around the rest of the
    body; it never skips, because every bus in the set has a trip.
  */
  method GenerateEdges(blocks: AllBlocks) returns (edges: seq<Edge>, colorPerBus: map<string, string>)
    requires StartsWellFormed(blocks)
    ensures edges == AllEdges(blocks, Buses(blocks))
    ensures colorPerBus == ColoursOf(Buses(blocks))
  {
    var buses := CollectBuses(blocks);
    edges := [];
    colorPerBus := map[];
    var colorIndex := 0;
    for k := 0 to |buses|
      invariant colorIndex == k
      invariant edges == AllEdges(blocks, buses[..k])
      invariant colorPerBus == ColoursOf(buses[..k])
    {
      var bus := buses[k];
      var firstTrip := GetNextTrip(blocks, bus, None);
      BusHasTrip(blocks, bus);
      if firstTrip.Some? {
        var nextTrip := GetNextTrip(blocks, bus, Some(firstTrip.value.trip.scheduledStartTime));
        var color := BusColors[colorIndex % |BusColors|];
        colorPerBus := colorPerBus[bus := color];
        OuterEdgeStep(blocks, buses, k);
        edges := WalkBus(blocks, bus, firstTrip.value, nextTrip, color, edges);
        colorIndex := colorIndex + 1;
      }
    }
    assert buses[..|buses|] == buses;
  }

  /** One pass of the loop over the buses extends the edges by the walk of the k-th bus, in colour k. */
  lemma OuterEdgeStep(blocks: AllBlocks, buses: seq<string>, k: nat)
    requires StartsWellFormed(blocks) && k < |buses|
    requires NextTrip(blocks, buses[k], None).Some?
    ensures WellFormed(NextTrip(blocks, buses[k], None).value.trip.scheduledStartTime)
    ensures AllEdges(blocks, buses[..k + 1])
         == AllEdges(blocks, buses[..k]) + Walk(blocks, buses[k], NextTrip(blocks, buses[k], None).value, ColorFor(k))
    ensures ColoursOf(buses[..k + 1]) == ColoursOf(buses[..k])[buses[k] := ColorFor(k)]
  {
    assert buses[..k + 1][..k] == buses[..k];
  }

  // ---------------------------------------------------------------------
  // Properties

  lemma {:induction false} BlockBusIdsMember(blocks: AllBlocks, x: string)
    requires x in BlockBusIds(blocks)
    ensures exists i, j :: 0 <= i < |blocks| && 0 <= j < |blocks[i].trips| && blocks[i].trips[j].busId == Some(x)
  {
    var p := blocks[..|blocks| - 1];
    if x in BlockBusIds(p) {
      BlockBusIdsMember(p, x);
      var i, j :| 0 <= i < |p| && 0 <= j < |p[i].trips| && p[i].trips[j].busId == Some(x);
      assert blocks[i] == p[i];
    } else {
      var j :| 0 <= j < |blocks[|blocks| - 1].trips| && blocks[|blocks| - 1].trips[j].busId == Some(x) && x != "";
    }
  }

  /** Every bus in the set has a first trip, so the `continue` never fires. */
  lemma BusHasTrip(blocks: AllBlocks, bus: string)
    requires StartsWellFormed(blocks) && bus in Buses(blocks)
    ensures NextTrip(blocks, bus, None).Some?
  {
    BlockBusIdsMember(blocks, bus);
    NextTripSpec(blocks, bus, None);
  }

  /** A trip the walk reaches from `cur` is a trip of `bus` listed in the blocks. */
  predicate OnBus(blocks: AllBlocks, bus: string, t: TripAt)
  {
    t in Extras(blocks) && t.trip.busId == Some(bus)
  }

  /** The trip after the `k`-th visit of `v` is the next trip of `bus` after it. */
  predicate NextAt(blocks: AllBlocks, bus: string, v: seq<TripAt>, k: int)
    requires StartsWellFormed(blocks) && 0 <= k < |v| - 1 && WellFormed(v[k].trip.scheduledStartTime)
  {
    NextTrip(blocks, bus, Some(v[k].trip.scheduledStartTime)) == Some(v[k + 1])
  }

  /**
    `v` is a walk of `bus`: its trips can be read, each one after the first
    is a trip of `bus`, and each is followed by the next trip after it.
  */
  predicate Chain(blocks: AllBlocks, bus: string, v: seq<TripAt>)
    requires StartsWellFormed(blocks)
  {
    && |v| >= 1
    && (forall k :: 0 <= k < |v| ==> WellFormed(v[k].trip.scheduledStartTime))
    && (forall k :: 1 <= k < |v| ==> OnBus(blocks, bus, v[k]))
    && (forall k :: 0 <= k < |v| - 1 ==> NextAt(blocks, bus, v, k))
  }

  lemma ConsChain(blocks: AllBlocks, bus: string, cur: TripAt, w: seq<TripAt>)
    requires StartsWellFormed(blocks) && WellFormed(cur.trip.scheduledStartTime)
    requires Chain(blocks, bus, w) && OnBus(blocks, bus, w[0])
    requires NextTrip(blocks, bus, Some(cur.trip.scheduledStartTime)) == Some(w[0])
    ensures Chain(blocks, bus, [cur] + w)
  {
    var v := [cur] + w;
    ConsNextAt(blocks, bus, cur, w);
    forall k | 1 <= k < |v| ensures OnBus(blocks, bus, v[k]) {
      assert v[k] == w[k - 1];
    }
  }

  lemma ConsNextAt(blocks: AllBlocks, bus: string, cur: TripAt, w: seq<TripAt>)
    requires StartsWellFormed(blocks) && WellFormed(cur.trip.scheduledStartTime) && |w| > 0
    requires forall k :: 0 <= k < |w| ==> WellFormed(w[k].trip.scheduledStartTime)
    requires forall k :: 0 <= k < |w| - 1 ==> NextAt(blocks, bus, w, k)
    requires NextTrip(blocks, bus, Some(cur.trip.scheduledStartTime)) == Some(w[0])
    ensures forall k :: 0 <= k < |w| ==> NextAt(blocks, bus, [cur] + w, k)
  {
    var v := [cur] + w;
    forall k | 0 <= k < |v| - 1 ensures NextAt(blocks, bus, v, k) {
      if k > 0 {
        assert v[k] == w[k - 1] && v[k + 1] == w[k] && NextAt(blocks, bus, w, k - 1);
      }
    }
  }

  /** The walk from `cur` visits `cur` and then each next trip in turn, until there is none. */
  lemma {:induction false} VisitsChain(blocks: AllBlocks, bus: string, cur: TripAt)
    requires StartsWellFormed(blocks) && WellFormed(cur.trip.scheduledStartTime)
    decreases RankBound - Rank(cur.trip.scheduledStartTime)
    ensures Visits(blocks, bus, cur)[0] == cur
    ensures Chain(blocks, bus, Visits(blocks, bus, cur))
  {
    var next := NextTrip(blocks, bus, Some(cur.trip.scheduledStartTime));
    if next.Some? {
      NextTripIsStrictlyLater(blocks, bus, cur.trip.scheduledStartTime);
      NextTripSpec(blocks, bus, Some(cur.trip.scheduledStartTime));
      VisitsChain(blocks, bus, next.value);
      assert OnBus(blocks, bus, next.value);
      ConsChain(blocks, bus, cur, Visits(blocks, bus, next.value));
    }
  }

  /** The walk stops at a trip after which `bus` has no later trip. */
  lemma {:induction false} VisitsEnd(blocks: AllBlocks, bus: string, cur: TripAt)
    requires StartsWellFormed(blocks) && WellFormed(cur.trip.scheduledStartTime)
    decreases RankBound - Rank(cur.trip.scheduledStartTime)
    ensures var v := Visits(blocks, bus, cur);
      WellFormed(v[|v| - 1].trip.scheduledStartTime) && NextTrip(blocks, bus, Some(v[|v| - 1].trip.scheduledStartTime)).None?
  {
    var next := NextTrip(blocks, bus, Some(cur.trip.scheduledStartTime));
    if next.Some? {
      NextTripIsStrictlyLater(blocks, bus, cur.trip.scheduledStartTime);
      VisitsEnd(blocks, bus, next.value);
      var v, w := Visits(blocks, bus, cur), Visits(blocks, bus, next.value);
      assert v == [cur] + w && v[|v| - 1] == w[|w| - 1];
    }
  }

  /** Each trip of `v` starts strictly later than the one before it. */
  predicate StrictlyLater(v: seq<TripAt>)
  {
    && (forall k :: 0 <= k < |v| ==> WellFormed(v[k].trip.scheduledStartTime))
    && (forall i, j :: 0 <= i < j < |v| ==> StartRank(v[i]) < StartRank(v[j]))
  }

  lemma ConsStrictlyLater(cur: TripAt, w: seq<TripAt>)
    requires StrictlyLater(w) && |w| > 0 && WellFormed(cur.trip.scheduledStartTime)
    requires StartRank(cur) < StartRank(w[0])
    ensures StrictlyLater([cur] + w)
  {
    var v := [cur] + w;
    forall i, j | 0 <= i < j < |v|
      ensures StartRank(v[i]) < StartRank(v[j])
    {
      assert v[j] == w[j - 1];
      if i > 0 {
        assert v[i] == w[i - 1];
      }
    }
  }

  /** The visited trips start strictly later one after the other, so the walk ends. */
  lemma {:induction false} VisitsIncreasing(blocks: AllBlocks, bus: string, cur: TripAt)
    requires StartsWellFormed(blocks) && WellFormed(cur.trip.scheduledStartTime)
    decreases RankBound - Rank(cur.trip.scheduledStartTime)
    ensures StrictlyLater(Visits(blocks, bus, cur))
  {
    var next := NextTrip(blocks, bus, Some(cur.trip.scheduledStartTime));
    if next.Some? {
      NextTripIsStrictlyLater(blocks, bus, cur.trip.scheduledStartTime);
      VisitsIncreasing(blocks, bus, next.value);
      VisitsHead(blocks, bus, next.value);
      ConsStrictlyLater(cur, Visits(blocks, bus, next.value));
    }
  }

  lemma VisitsHead(blocks: AllBlocks, bus: string, cur: TripAt)
    requires StartsWellFormed(blocks) && WellFormed(cur.trip.scheduledStartTime)
    ensures |Visits(blocks, bus, cur)| >= 1 && Visits(blocks, bus, cur)[0] == cur
  {
  }

  /** The `k`-th hand-off of `v` is kept: the later trip does not directly follow the earlier one in its block. */
  predicate Kept(v: seq<TripAt>, k: int)
    requires 0 <= k < |v| - 1
  {
    v[k + 1].lastTripId != Some(v[k].trip.tripId)
  }

  /** The edge for the `k`-th hand-off of `v`. */
  function EdgeAt(v: seq<TripAt>, k: int, color: string): Edge
    requires 0 <= k < |v| - 1
  {
    MakeEdge(v[k], v[k + 1], color)
  }

  /** In order, the visits `v` are joined by the edges `w`: a consecutive pair gives an edge exactly when its hand-off is kept. */
  predicate HandOffs(v: seq<TripAt>, w: seq<Edge>, color: string)
  {
    && |w| <= |v| - 1
    && (forall e :: e in w ==> exists k :: 0 <= k < |v| - 1 && Kept(v, k) && e == EdgeAt(v, k, color))
    && (forall k :: 0 <= k < |v| - 1 && Kept(v, k) ==> EdgeAt(v, k, color) in w)
  }

  /** The edge, if any, for the hand-off from `a` to `b`. */
  function HandOff(a: TripAt, b: TripAt, color: string): seq<Edge>
  {
    if b.lastTripId != Some(a.trip.tripId) then [MakeEdge(a, b, color)] else []
  }

  lemma ConsHandOffs(cur: TripAt, v: seq<TripAt>, w: seq<Edge>, color: string)
    requires |v| > 0 && HandOffs(v, w, color)
    ensures HandOffs([cur] + v, HandOff(cur, v[0], color) + w, color)
  {
    ConsHandOffsSound(cur, v, w, color);
    ConsHandOffsComplete(cur, v, w, color);
  }

  lemma ConsHandOffsSound(cur: TripAt, v: seq<TripAt>, w: seq<Edge>, color: string)
    requires |v| > 0 && HandOffs(v, w, color)
    ensures var v', w' := [cur] + v, HandOff(cur, v[0], color) + w;
      forall e :: e in w' ==> exists k :: 0 <= k < |v'| - 1 && Kept(v', k) && e == EdgeAt(v', k, color)
  {
    var v', w' := [cur] + v, HandOff(cur, v[0], color) + w;
    forall e | e in w'
      ensures exists k :: 0 <= k < |v'| - 1 && Kept(v', k) && e == EdgeAt(v', k, color)
    {
      if e in HandOff(cur, v[0], color) {
        assert v'[0] == cur && v'[1] == v[0];
        assert Kept(v', 0) && e == EdgeAt(v', 0, color);
      } else {
        assert e in w;
        var k :| 0 <= k < |v| - 1 && Kept(v, k) && e == EdgeAt(v, k, color);
        assert v'[k + 1] == v[k] && v'[k + 2] == v[k + 1];
        assert Kept(v', k + 1) && e == EdgeAt(v', k + 1, color);
      }
    }
  }

  lemma ConsHandOffsComplete(cur: TripAt, v: seq<TripAt>, w: seq<Edge>, color: string)
    requires |v| > 0 && HandOffs(v, w, color)
    ensures var v', w' := [cur] + v, HandOff(cur, v[0], color) + w;
      forall k :: 0 <= k < |v'| - 1 && Kept(v', k) ==> EdgeAt(v', k, color) in w'
  {
    var v', w' := [cur] + v, HandOff(cur, v[0], color) + w;
    forall k | 0 <= k < |v'| - 1 && Kept(v', k)
      ensures EdgeAt(v', k, color) in w'
    {
      if k > 0 {
        assert v'[k] == v[k - 1] && v'[k + 1] == v[k];
        assert Kept(v, k - 1) && EdgeAt(v', k, color) == EdgeAt(v, k - 1, color);
      } else {
        assert v'[1] == v[0];
      }
    }
  }

  /**
    An edge of the walk is the hand-off between two consecutive visits whose
    later trip does not directly follow the earlier one in its block, and
    every such hand-off is an edge; so a walk has fewer edges than visits.
  */
  lemma {:induction false} WalkEdges(blocks: AllBlocks, bus: string, cur: TripAt, color: string)
    requires StartsWellFormed(blocks) && WellFormed(cur.trip.scheduledStartTime)
    decreases RankBound - Rank(cur.trip.scheduledStartTime)
    ensures HandOffs(Visits(blocks, bus, cur), Walk(blocks, bus, cur, color), color)
  {
    var next := NextTrip(blocks, bus, Some(cur.trip.scheduledStartTime));
    if next.Some? {
      WalkStep(blocks, bus, cur, color);
      WalkEdges(blocks, bus, next.value, color);
      VisitsHead(blocks, bus, next.value);
      ConsHandOffs(cur, Visits(blocks, bus, next.value), Walk(blocks, bus, next.value, color), color);
    }
  }

  /**
    A hand-off from `a` is left out exactly when the next trip's entry sits
    directly after an entry with `a`'s trip id in the next trip's own block.
  */
  lemma OmittedMeansFollows(blocks: AllBlocks, bus: string, a: TripAt)
    requires StartsWellFormed(blocks) && WellFormed(a.trip.scheduledStartTime)
    requires NextTrip(blocks, bus, Some(a.trip.scheduledStartTime)).Some?
    ensures var b := NextTrip(blocks, bus, Some(a.trip.scheduledStartTime)).value;
      exists i, j :: 0 <= i < |blocks| && 0 <= j < |blocks[i].trips|
        && b == TripAt(blocks[i].trips[j], blocks[i].blockId, LastTripIdAt(blocks[i].trips, j))
        && (b.lastTripId == Some(a.trip.tripId) <==> j > 0 && blocks[i].trips[j - 1].tripId == a.trip.tripId)
  {
    NextTripSpec(blocks, bus, Some(a.trip.scheduledStartTime));
  }

  /** A first trip of a bus found with no lower bound is a trip of that bus. */
  lemma FirstTripOnBus(blocks: AllBlocks, bus: string)
    requires StartsWellFormed(blocks) && NextTrip(blocks, bus, None).Some?
    ensures OnBus(blocks, bus, NextTrip(blocks, bus, None).value)
    ensures WellFormed(NextTrip(blocks, bus, None).value.trip.scheduledStartTime)
  {
    NextTripSpec(blocks, bus, None);
  }

  /**
    `e` is the edge for the hand-off of `bus` from `a` to `b`: both are trips
    of `bus`, `b` is the next trip after `a` and does not directly follow it
    in its block; source and target are their blocks, the label is the bus
    id across blocks and empty within one, the target handle is `b`'s trip
    id followed by "L" across blocks and "R" within one, and the colour is
    the bus's.
  */
  predicate IsHandOffEdge(blocks: AllBlocks, bus: string, color: string, e: Edge, a: TripAt, b: TripAt)
    requires StartsWellFormed(blocks)
  {
    && OnBus(blocks, bus, a) && OnBus(blocks, bus, b)
    && WellFormed(a.trip.scheduledStartTime)
    && NextTrip(blocks, bus, Some(a.trip.scheduledStartTime)) == Some(b)
    && b.lastTripId != Some(a.trip.tripId)
    && EdgeShape(bus, color, e, a, b)
  }

  /** The fields of the edge from `a` to `b` of bus `bus`. */
  predicate EdgeShape(bus: string, color: string, e: Edge, a: TripAt, b: TripAt)
  {
    && e.id == a.trip.tripId + "->" + b.trip.tripId
    && e.source == a.blockId && e.target == b.blockId
    && e.sourceHandle == a.trip.tripId + "R"
    && e.targetHandle == b.trip.tripId + (if a.blockId != b.blockId then "L" else "R")
    && e.edgeLabel == (if a.blockId != b.blockId then bus else "")
    && e.color == color
    && (e.smoothstep <==> e.source == e.target)
  }

  lemma MakeEdgeShape(bus: string, color: string, a: TripAt, b: TripAt)
    requires a.trip.busId == Some(bus)
    ensures EdgeShape(bus, color, MakeEdge(a, b, color), a, b)
  {
  }

  lemma HandOffEdgeAt(blocks: AllBlocks, bus: string, color: string, a: TripAt, b: TripAt)
    requires StartsWellFormed(blocks) && OnBus(blocks, bus, a) && OnBus(blocks, bus, b)
    requires WellFormed(a.trip.scheduledStartTime) && NextTrip(blocks, bus, Some(a.trip.scheduledStartTime)) == Some(b)
    requires b.lastTripId != Some(a.trip.tripId)
    ensures IsHandOffEdge(blocks, bus, color, MakeEdge(a, b, color), a, b)
  {
    MakeEdgeShape(bus, color, a, b);
  }

  /** Every edge of a bus is the edge of one of its hand-offs. */
  lemma BusEdgeShape(blocks: AllBlocks, bus: string, color: string, e: Edge)
    requires StartsWellFormed(blocks) && e in BusEdges(blocks, bus, color)
    ensures exists a, b :: IsHandOffEdge(blocks, bus, color, e, a, b)
  {
    FirstTripOnBus(blocks, bus);
    var first := NextTrip(blocks, bus, None).value;
    WalkEdges(blocks, bus, first, color);
    VisitsChain(blocks, bus, first);
    var v := Visits(blocks, bus, first);
    var k :| 0 <= k < |v| - 1 && Kept(v, k) && e == EdgeAt(v, k, color);
    assert OnBus(blocks, bus, v[k]) && OnBus(blocks, bus, v[k + 1]) && NextAt(blocks, bus, v, k);
    HandOffEdgeAt(blocks, bus, color, v[k], v[k + 1]);
  }

  /** `n` distinct values make a set of `n` elements. */
  lemma {:induction false} DistinctCard(v: seq<TripAt>)
    requires forall i, j :: 0 <= i < j < |v| ==> v[i] != v[j]
    ensures |set x | x in v| == |v|
  {
    if v != [] {
      var p := v[..|v| - 1];
      DistinctCard(p);
      assert (set x | x in v) == (set x | x in p) + {v[|v| - 1]};
    }
  }

  /** The trips of `bus`, each with its block and predecessor. */
  function BusTripSet(blocks: AllBlocks, bus: string): set<TripAt>
  {
    set x | x in Extras(blocks) && x.trip.busId == Some(bus)
  }

  /** A walk from a trip of `bus` visits no more trips than the bus has. */
  lemma VisitsBound(blocks: AllBlocks, bus: string, first: TripAt)
    requires StartsWellFormed(blocks) && WellFormed(first.trip.scheduledStartTime) && OnBus(blocks, bus, first)
    ensures |Visits(blocks, bus, first)| <= |BusTripSet(blocks, bus)|
  {
    VisitsChain(blocks, bus, first);
    VisitsIncreasing(blocks, bus, first);
    var v := Visits(blocks, bus, first);
    assert forall i, j :: 0 <= i < j < |v| ==> StartRank(v[i]) < StartRank(v[j]);
    DistinctCard(v);
    forall x | x in v ensures x in BusTripSet(blocks, bus) {
      var k :| 0 <= k < |v| && v[k] == x;
      assert OnBus(blocks, bus, v[k]);
    }
    SubsetCard((set x | x in v), BusTripSet(blocks, bus));
  }

  /** A bus with no trip has no first trip. */
  lemma NoTripNoFirst(blocks: AllBlocks, bus: string)
    requires StartsWellFormed(blocks) && NextTrip(blocks, bus, None).None?
    ensures BusTripSet(blocks, bus) == {}
  {
    NextTripSpec(blocks, bus, None);
    forall x | x in Extras(blocks) ensures x.trip.busId != Some(bus) {
      var m :| 0 <= m < |Extras(blocks)| && Extras(blocks)[m] == x;
      ExtrasCover(blocks, m);
    }
  }

  /** A bus gets fewer edges than it has trips, and none when it has no trip. */
  lemma BusEdgesBound(blocks: AllBlocks, bus: string, color: string)
    requires StartsWellFormed(blocks)
    ensures BusTripSet(blocks, bus) == {} ==> BusEdges(blocks, bus, color) == []
    ensures BusTripSet(blocks, bus) != {} ==> |BusEdges(blocks, bus, color)| <= |BusTripSet(blocks, bus)| - 1
  {
    if NextTrip(blocks, bus, None).Some? {
      FirstTripOnBus(blocks, bus);
      var first := NextTrip(blocks, bus, None).value;
      WalkEdges(blocks, bus, first, color);
      VisitsBound(blocks, bus, first);
    } else {
      NoTripNoFirst(blocks, bus);
    }
  }

  lemma SubsetCard(a: set<TripAt>, b: set<TripAt>)
    requires a <= b
    ensures |a| <= |b|
  {
    assert b == a + (b - a);
  }

  /** Every edge comes from the walk of one bus of `order`, walked in that bus's colour. */
  lemma {:induction false} AllEdgesOrigin(blocks: AllBlocks, order: seq<string>, e: Edge)
    requires StartsWellFormed(blocks) && e in AllEdges(blocks, order)
    ensures exists k :: 0 <= k < |order| && e in BusEdges(blocks, order[k], ColorFor(k))
  {
    var p := order[..|order| - 1];
    if e in AllEdges(blocks, p) {
      AllEdgesOrigin(blocks, p, e);
      var k :| 0 <= k < |p| && e in BusEdges(blocks, p[k], ColorFor(k));
      assert order[k] == p[k];
    }
  }

  /** The colour map's keys are exactly the non-empty bus ids of the trips. */
  lemma ColourKeys(blocks: AllBlocks)
    ensures forall x :: x in ColoursOf(Buses(blocks)) <==> x != "" && exists i, j :: 0 <= i < |blocks| && 0 <= j < |blocks[i].trips| && blocks[i].trips[j].busId == Some(x)
  {
    var order := Buses(blocks);
    forall x ensures x in ColoursOf(order) <==> x != "" && exists i, j :: 0 <= i < |blocks| && 0 <= j < |blocks[i].trips| && blocks[i].trips[j].busId == Some(x)
    {
      if x in ColoursOf(order) {
        BlockBusIdsMember(blocks, x);
        BlockBusIdsTruthy(blocks, x);
      }
      if x != "" && exists i, j :: 0 <= i < |blocks| && 0 <= j < |blocks[i].trips| && blocks[i].trips[j].busId == Some(x) {
        var i, j :| 0 <= i < |blocks| && 0 <= j < |blocks[i].trips| && blocks[i].trips[j].busId == Some(x);
        BlockBusIdsComplete(blocks, x, i, j);
      }
    }
  }

  lemma {:induction false} BlockBusIdsComplete(blocks: AllBlocks, x: string, i: nat, j: nat)
    requires i < |blocks| && j < |blocks[i].trips| && blocks[i].trips[j].busId == Some(x) && x != ""
    ensures x in BlockBusIds(blocks)
  {
    var p := blocks[..|blocks| - 1];
    if i < |p| {
      assert p[i] == blocks[i];
      BlockBusIdsComplete(p, x, i, j);
    } else {
      assert x in TripBusIds(blocks[i].trips);
    }
  }

  /** The k-th bus in first-seen order gets palette entry k modulo 7. */
  lemma ColourOrder(blocks: AllBlocks)
    ensures forall k :: 0 <= k < |Buses(blocks)| ==> ColoursOf(Buses(blocks))[Buses(blocks)[k]] == BusColors[k % 7]
  {
    ColoursOfAt(Buses(blocks));
  }

  /** Every edge is drawn in the colour the map gives its bus. */
  lemma EdgeColours(blocks: AllBlocks)
    requires StartsWellFormed(blocks)
    ensures forall e :: e in AllEdges(blocks, Buses(blocks)) ==> exists k :: 0 <= k < |Buses(blocks)| && e.color == ColoursOf(Buses(blocks))[Buses(blocks)[k]]
  {
    var order := Buses(blocks);
    ColoursOfAt(order);
    forall e | e in AllEdges(blocks, order)
      ensures exists k :: 0 <= k < |order| && e.color == ColoursOf(order)[order[k]]
    {
      AllEdgesOrigin(blocks, order, e);
      var k :| 0 <= k < |order| && e in BusEdges(blocks, order[k], ColorFor(k));
      BusEdgeShape(blocks, order[k], ColorFor(k), e);
    }
  }

  lemma {:induction false} BlockBusIdsTruthy(blocks: AllBlocks, x: string)
    requires x in BlockBusIds(blocks)
    ensures x != ""
  {
    if !(x in BlockBusIds(blocks[..|blocks| - 1])) {
      var j :| 0 <= j < |blocks[|blocks| - 1].trips| && blocks[|blocks| - 1].trips[j].busId == Some(x) && x != "";
    } else {
      BlockBusIdsTruthy(blocks[..|blocks| - 1], x);
    }
  }
}
