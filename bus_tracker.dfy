/**
  Trips of a service day grouped by block, and `getNextTrip`, which finds the
  trip a bus drives next (src/utils/busTracker.ts).
*/
module BusTracker {
  import opened Wrappers
  import opened TimeCodec

  /** `BlockData`: one scheduled trip of a block, with what the feed observed of it. */
  datatype Trip = Trip(
    tripId: string,
    routeId: string,
    headSign: string,
    routeDirection: int,
    scheduledStartTime: string,
    scheduledEndTime: string,
    actualStartTime: Option<string>,
    actualEndTime: Option<string>,
    delay: Option<int>,
    canceled: Option<int>,
    busId: Option<string>)

  /** One property of `AllBlocks`: a block id and its trips in schedule order. */
  datatype BlockEntry = BlockEntry(blockId: string, trips: seq<Trip>)

  /** `AllBlocks`, listed in the order `for...in` visits its keys. */
  type AllBlocks = seq<BlockEntry>

  /** `BlockDataExtra`: a trip with the block it belongs to and the id of the trip listed before it there. */
  datatype TripAt = TripAt(trip: Trip, blockId: string, lastTripId: Option<string>)

  /** `busColors`: the palette handed out to buses in turn. */
  const BusColors: seq<string> := ["#0f8c77ff", "#78B9B5", "#3d78a2ff", "#a38ec0ff", "#872341", "#BE3144", "#E17564"]

  /** The colour the `k`-th bus gets: `busColors[k % busColors.length]`. */
  function ColorFor(k: nat): (c: string)
    ensures c in BusColors
  {
    BusColors[k % |BusColors|]
  }

  /** Every scheduled start time can be read by `parseInt` part by part. */
  predicate StartsWellFormed(blocks: AllBlocks)
  {
    forall i, j :: 0 <= i < |blocks| && 0 <= j < |blocks[i].trips| ==> WellFormed(blocks[i].trips[j].scheduledStartTime)
  }

  predicate TripsStartWellFormed(xs: seq<TripAt>)
  {
    forall k :: 0 <= k < |xs| ==> WellFormed(xs[k].trip.scheduledStartTime)
  }

  /** The `lastTripId` variable when the inner loop reaches index `j`. */
  function LastTripIdAt(trips: seq<Trip>, j: nat): Option<string>
    requires j <= |trips|
  {
    if j == 0 then None else Some(trips[j - 1].tripId)
  }

  /** The trips of one block, each annotated as `getNextTrip` annotates a match. */
  function BlockExtras(blockId: string, trips: seq<Trip>): (r: seq<TripAt>)
    ensures |r| == |trips|
    ensures forall j {:trigger r[j]} :: 0 <= j < |trips| ==> r[j] == TripAt(trips[j], blockId, LastTripIdAt(trips, j))
  {
    seq(|trips|, j requires 0 <= j < |trips| => TripAt(trips[j], blockId, LastTripIdAt(trips, j)))
  }

  /** All trips in the order the two loops of `getNextTrip` visit them. */
  function Extras(blocks: AllBlocks): (r: seq<TripAt>)
    ensures StartsWellFormed(blocks) ==> TripsStartWellFormed(r)
  {
    if blocks == [] then []
    else
      var p := blocks[..|blocks| - 1];
      assert StartsWellFormed(blocks) ==> StartsWellFormed(p) by {
        if StartsWellFormed(blocks) {
          forall i, j | 0 <= i < |p| && 0 <= j < |p[i].trips|
            ensures WellFormed(p[i].trips[j].scheduledStartTime)
          {
            assert p[i] == blocks[i];
          }
        }
      }
      Extras(p) + BlockExtras(blocks[|blocks| - 1].blockId, blocks[|blocks| - 1].trips)
  }

  lemma StartsWellFormedPrefix(blocks: AllBlocks, i: nat)
    requires StartsWellFormed(blocks) && i <= |blocks|
    ensures StartsWellFormed(blocks[..i])
  {
    assert forall a :: 0 <= a < i ==> blocks[..i][a] == blocks[a];
  }

  lemma ExtrasSnoc(blocks: AllBlocks, i: nat)
    requires i < |blocks|
    ensures Extras(blocks[..i + 1]) == Extras(blocks[..i]) + BlockExtras(blocks[i].blockId, blocks[i].trips)
  {
    assert blocks[..i + 1][..i] == blocks[..i];
  }

  /** The trips of the first `i` blocks come first in the visiting order. */
  lemma {:induction false} ExtrasPrefix(blocks: AllBlocks, i: nat)
    requires i <= |blocks|
    ensures Extras(blocks[..i]) <= Extras(blocks)
  {
    if i < |blocks| {
      var p := blocks[..|blocks| - 1];
      ExtrasPrefix(p, i);
      assert p[..i] == blocks[..i];
    } else {
      assert blocks[..i] == blocks;
    }
  }

  /** A trip of bus `busId` that starts strictly after `lastTripTime` (any start when it is null). */
  predicate Qualifies(t: Trip, busId: string, lastTripTime: Option<string>)
    requires WellFormed(t.scheduledStartTime)
    requires lastTripTime.Some? ==> WellFormed(lastTripTime.value)
  {
    t.busId == Some(busId) && (lastTripTime.None? || IsOlder(lastTripTime.value, t.scheduledStartTime))
  }

  /** One iteration of the inner loop body: take `e` when it qualifies and starts strictly earlier than the best so far. */
  function Step(best: Option<TripAt>, e: TripAt, busId: string, lastTripTime: Option<string>): Option<TripAt>
    requires best.Some? ==> WellFormed(best.value.trip.scheduledStartTime)
    requires WellFormed(e.trip.scheduledStartTime)
    requires lastTripTime.Some? ==> WellFormed(lastTripTime.value)
  {
    if Qualifies(e.trip, busId, lastTripTime)
       && (best.None? || IsOlder(e.trip.scheduledStartTime, best.value.trip.scheduledStartTime))
    then Some(e) else best
  }

  /** `bestOption` after the loop body has run on each of `xs` in turn, starting from `best`. */
  function Fold(best: Option<TripAt>, xs: seq<TripAt>, busId: string, lastTripTime: Option<string>): (r: Option<TripAt>)
    requires best.Some? ==> WellFormed(best.value.trip.scheduledStartTime)
    requires TripsStartWellFormed(xs)
    requires lastTripTime.Some? ==> WellFormed(lastTripTime.value)
    ensures r.Some? ==> r == best || r.value in xs
    ensures r.Some? ==> WellFormed(r.value.trip.scheduledStartTime)
  {
    if xs == [] then best
    else Step(Fold(best, xs[..|xs| - 1], busId, lastTripTime), xs[|xs| - 1], busId, lastTripTime)
  }

  /** `bestOption` after the loop body has run on each of `xs` in turn, starting from null. */
  function Best(xs: seq<TripAt>, busId: string, lastTripTime: Option<string>): (r: Option<TripAt>)
    requires TripsStartWellFormed(xs)
    requires lastTripTime.Some? ==> WellFormed(lastTripTime.value)
    ensures r.Some? ==> r.value in xs && WellFormed(r.value.trip.scheduledStartTime)
  {
    Fold(None, xs, busId, lastTripTime)
  }

  /** Running the loop body over `xs + ys` is running it over `xs`, then over `ys`. */
  lemma {:induction false} FoldAppend(best: Option<TripAt>, xs: seq<TripAt>, ys: seq<TripAt>, busId: string, lastTripTime: Option<string>)
    requires best.Some? ==> WellFormed(best.value.trip.scheduledStartTime)
    requires TripsStartWellFormed(xs) && TripsStartWellFormed(ys)
    requires lastTripTime.Some? ==> WellFormed(lastTripTime.value)
    ensures TripsStartWellFormed(xs + ys)
    ensures Fold(best, xs + ys, busId, lastTripTime) == Fold(Fold(best, xs, busId, lastTripTime), ys, busId, lastTripTime)
  {
    if ys == [] {
      assert xs + ys == xs;
    } else {
      var q := ys[..|ys| - 1];
      FoldAppend(best, xs, q, busId, lastTripTime);
      assert (xs + ys)[..|xs + ys| - 1] == xs + q;
    }
  }

  lemma FoldPrefix(best: Option<TripAt>, xs: seq<TripAt>, k: nat, busId: string, lastTripTime: Option<string>)
    requires best.Some? ==> WellFormed(best.value.trip.scheduledStartTime)
    requires TripsStartWellFormed(xs) && k < |xs|
    requires lastTripTime.Some? ==> WellFormed(lastTripTime.value)
    ensures Fold(best, xs[..k + 1], busId, lastTripTime) == Step(Fold(best, xs[..k], busId, lastTripTime), xs[k], busId, lastTripTime)
  {
    assert xs[..k + 1][..k] == xs[..k];
  }

  /** What `getNextTrip(blocks, busId, lastTripTime)` returns. */
  function NextTrip(blocks: AllBlocks, busId: string, lastTripTime: Option<string>): Option<TripAt>
    requires StartsWellFormed(blocks)
    requires lastTripTime.Some? ==> WellFormed(lastTripTime.value)
  {
    Best(Extras(blocks), busId, lastTripTime)
  }

  /**
    The `j`-th trip of the `i`-th block sits in the visiting order right after
    the trips of the blocks before it, carrying its block id and the id of the
    trip before it in its block.
  */
  lemma {:induction false} ExtrasAt(blocks: AllBlocks, i: nat, j: nat)
    requires i < |blocks| && j < |blocks[i].trips|
    ensures |Extras(blocks[..i])| + j < |Extras(blocks)|
    ensures Extras(blocks)[|Extras(blocks[..i])| + j]
         == TripAt(blocks[i].trips[j], blocks[i].blockId, LastTripIdAt(blocks[i].trips, j))
  {
    if i == |blocks| - 1 {
      ExtrasAtLast(blocks, j);
    } else {
      var p := blocks[..|blocks| - 1];
      assert p[..i] == blocks[..i] && p[i] == blocks[i];
      ExtrasAt(p, i, j);
      ExtrasAtEarlier(blocks, i, j);
    }
  }

  lemma ExtrasAtEarlier(blocks: AllBlocks, i: nat, j: nat)
    requires |blocks| > 0 && i < |blocks| - 1 && j < |blocks[i].trips|
    requires var p := blocks[..|blocks| - 1];
      && |Extras(blocks[..i])| + j < |Extras(p)|
      && Extras(p)[|Extras(blocks[..i])| + j] == TripAt(blocks[i].trips[j], blocks[i].blockId, LastTripIdAt(blocks[i].trips, j))
    ensures |Extras(blocks[..i])| + j < |Extras(blocks)|
    ensures Extras(blocks)[|Extras(blocks[..i])| + j]
         == TripAt(blocks[i].trips[j], blocks[i].blockId, LastTripIdAt(blocks[i].trips, j))
  {
    ExtrasInPrefix(blocks, |Extras(blocks[..i])| + j);
  }

  lemma ExtrasAtLast(blocks: AllBlocks, j: nat)
    requires |blocks| > 0 && j < |blocks[|blocks| - 1].trips|
    ensures |Extras(blocks[..|blocks| - 1])| + j < |Extras(blocks)|
    ensures var b := blocks[|blocks| - 1];
      Extras(blocks)[|Extras(blocks[..|blocks| - 1])| + j] == TripAt(b.trips[j], b.blockId, LastTripIdAt(b.trips, j))
  {
    var e := Extras(blocks[..|blocks| - 1]);
    var b := BlockExtras(blocks[|blocks| - 1].blockId, blocks[|blocks| - 1].trips);
    assert Extras(blocks) == e + b;
    assert (e + b)[|e| + j] == b[j];
  }

  lemma ExtrasInPrefix(blocks: AllBlocks, k: nat)
    requires |blocks| > 0 && k < |Extras(blocks[..|blocks| - 1])|
    ensures k < |Extras(blocks)| && Extras(blocks)[k] == Extras(blocks[..|blocks| - 1])[k]
  {
    var e := Extras(blocks[..|blocks| - 1]);
    var b := BlockExtras(blocks[|blocks| - 1].blockId, blocks[|blocks| - 1].trips);
    assert Extras(blocks) == e + b;
    assert (e + b)[k] == e[k];
  }

  /** Every entry of the visiting order is some trip of some block, annotated as `ExtrasAt` says. */
  lemma {:induction false} ExtrasCover(blocks: AllBlocks, k: nat)
    requires k < |Extras(blocks)|
    ensures exists i, j :: (0 <= i < |blocks| && 0 <= j < |blocks[i].trips|
      && Extras(blocks)[k] == TripAt(blocks[i].trips[j], blocks[i].blockId, LastTripIdAt(blocks[i].trips, j)))
  {
    var n := |blocks|;
    var p := blocks[..n - 1];
    if k < |Extras(p)| {
      ExtrasCover(p, k);
      var i, j :| 0 <= i < |p| && 0 <= j < |p[i].trips|
        && Extras(p)[k] == TripAt(p[i].trips[j], p[i].blockId, LastTripIdAt(p[i].trips, j));
      assert p[i] == blocks[i];
    } else {
      var j := k - |Extras(p)|;
      assert Extras(blocks)[k] == BlockExtras(blocks[n - 1].blockId, blocks[n - 1].trips)[j];
    }
  }

  /** Position of a trip's scheduled start in the order `isTimeStringOlder` decides. */
  function StartRank(e: TripAt): nat
    requires WellFormed(e.trip.scheduledStartTime)
  {
    Rank(e.trip.scheduledStartTime)
  }

  /**
    `xs[i]` qualifies, no qualifying entry starts strictly earlier, and every
    qualifying entry before it starts strictly later: the first of the earliest.
  */
  predicate IsFirstEarliest(xs: seq<TripAt>, i: int, busId: string, lastTripTime: Option<string>)
    requires TripsStartWellFormed(xs)
    requires lastTripTime.Some? ==> WellFormed(lastTripTime.value)
  {
    && 0 <= i < |xs|
    && Qualifies(xs[i].trip, busId, lastTripTime)
    && (forall k :: 0 <= k < |xs| && Qualifies(xs[k].trip, busId, lastTripTime)
          ==> StartRank(xs[i]) <= StartRank(xs[k]))
    && (forall k :: 0 <= k < i && Qualifies(xs[k].trip, busId, lastTripTime)
          ==> StartRank(xs[i]) < StartRank(xs[k]))
  }

  /** The fold finds nothing exactly when nothing qualifies. */
  lemma {:induction false} BestNone(xs: seq<TripAt>, busId: string, lastTripTime: Option<string>)
    requires TripsStartWellFormed(xs)
    requires lastTripTime.Some? ==> WellFormed(lastTripTime.value)
    ensures Best(xs, busId, lastTripTime).None? <==> forall k :: 0 <= k < |xs| ==> !Qualifies(xs[k].trip, busId, lastTripTime)
  {
    if xs != [] {
      var p := xs[..|xs| - 1];
      BestNone(p, busId, lastTripTime);
      assert forall k :: 0 <= k < |p| ==> p[k] == xs[k];
    }
  }

  /** An entry that qualifies and starts strictly before everything qualifying in `p` is the first earliest of `p + [x]`. */
  lemma FirstEarliestNew(p: seq<TripAt>, x: TripAt, busId: string, lastTripTime: Option<string>)
    requires TripsStartWellFormed(p) && WellFormed(x.trip.scheduledStartTime) && TripsStartWellFormed(p + [x])
    requires lastTripTime.Some? ==> WellFormed(lastTripTime.value)
    requires Qualifies(x.trip, busId, lastTripTime)
    requires forall k :: 0 <= k < |p| && Qualifies(p[k].trip, busId, lastTripTime) ==> StartRank(x) < StartRank(p[k])
    ensures IsFirstEarliest(p + [x], |p|, busId, lastTripTime)
  {
    var xs := p + [x];
    assert forall k :: 0 <= k < |p| ==> xs[k] == p[k];
  }

  /** The first earliest of `p` stays so in `p + [x]` unless `x` qualifies and starts strictly before it. */
  lemma FirstEarliestOld(p: seq<TripAt>, x: TripAt, i: int, busId: string, lastTripTime: Option<string>)
    requires TripsStartWellFormed(p) && WellFormed(x.trip.scheduledStartTime) && TripsStartWellFormed(p + [x])
    requires lastTripTime.Some? ==> WellFormed(lastTripTime.value)
    requires IsFirstEarliest(p, i, busId, lastTripTime)
    requires Qualifies(x.trip, busId, lastTripTime) ==> StartRank(p[i]) <= StartRank(x)
    ensures IsFirstEarliest(p + [x], i, busId, lastTripTime)
  {
    var xs := p + [x];
    assert forall k :: 0 <= k < |p| ==> xs[k] == p[k];
  }

  /** Otherwise the fold finds the first of the earliest qualifying entries. */
  lemma {:induction false} BestIsFirstEarliest(xs: seq<TripAt>, busId: string, lastTripTime: Option<string>)
    requires TripsStartWellFormed(xs)
    requires lastTripTime.Some? ==> WellFormed(lastTripTime.value)
    requires Best(xs, busId, lastTripTime).Some?
    ensures exists i :: IsFirstEarliest(xs, i, busId, lastTripTime) && xs[i] == Best(xs, busId, lastTripTime).value
    decreases |xs|, 1
  {
    var n := |xs|;
    var p := xs[..n - 1];
    var x := xs[n - 1];
    assert xs == p + [x];
    var b := Best(p, busId, lastTripTime);
    assert Best(xs, busId, lastTripTime) == Step(b, x, busId, lastTripTime);
    if Qualifies(x.trip, busId, lastTripTime) && (b.None? || IsOlder(x.trip.scheduledStartTime, b.value.trip.scheduledStartTime)) {
      BestTakes(p, x, busId, lastTripTime);
    } else {
      BestKeeps(p, x, busId, lastTripTime);
    }
  }

  /** The step that takes `x`: it starts strictly before every qualifying entry met so far. */
  lemma {:induction false} BestTakes(p: seq<TripAt>, x: TripAt, busId: string, lastTripTime: Option<string>)
    requires TripsStartWellFormed(p) && WellFormed(x.trip.scheduledStartTime) && TripsStartWellFormed(p + [x])
    requires lastTripTime.Some? ==> WellFormed(lastTripTime.value)
    requires Qualifies(x.trip, busId, lastTripTime)
    requires var b := Best(p, busId, lastTripTime);
      b.None? || IsOlder(x.trip.scheduledStartTime, b.value.trip.scheduledStartTime)
    ensures IsFirstEarliest(p + [x], |p|, busId, lastTripTime)
    decreases |p| + 1, 0
  {
    var b := Best(p, busId, lastTripTime);
    if b.Some? {
      BestIsFirstEarliest(p, busId, lastTripTime);
      var i :| IsFirstEarliest(p, i, busId, lastTripTime) && p[i] == b.value;
      IsOlderIsRankLess(x.trip.scheduledStartTime, b.value.trip.scheduledStartTime);
    } else {
      BestNone(p, busId, lastTripTime);
    }
    FirstEarliestNew(p, x, busId, lastTripTime);
  }

  /** The step that keeps the best so far: `x` does not qualify or does not start strictly before it. */
  lemma {:induction false} BestKeeps(p: seq<TripAt>, x: TripAt, busId: string, lastTripTime: Option<string>)
    requires TripsStartWellFormed(p) && WellFormed(x.trip.scheduledStartTime) && TripsStartWellFormed(p + [x])
    requires lastTripTime.Some? ==> WellFormed(lastTripTime.value)
    requires Best(p, busId, lastTripTime).Some?
    requires !IsOlder(x.trip.scheduledStartTime, Best(p, busId, lastTripTime).value.trip.scheduledStartTime)
             || !Qualifies(x.trip, busId, lastTripTime)
    ensures exists i :: IsFirstEarliest(p + [x], i, busId, lastTripTime) && (p + [x])[i] == Best(p, busId, lastTripTime).value
    decreases |p| + 1, 0
  {
    var b := Best(p, busId, lastTripTime);
    BestIsFirstEarliest(p, busId, lastTripTime);
    var i :| IsFirstEarliest(p, i, busId, lastTripTime) && p[i] == b.value;
    if Qualifies(x.trip, busId, lastTripTime) {
      IsOlderIsRankLess(x.trip.scheduledStartTime, b.value.trip.scheduledStartTime);
    }
    FirstEarliestOld(p, x, i, busId, lastTripTime);
    assert (p + [x])[i] == p[i];
  }

  /**
    `getNextTrip` returns null exactly when no trip of any block qualifies;
    otherwise a qualifying trip that no qualifying trip starts before, with
    its block id and the id of the trip listed before it in that block.
  */
  lemma NextTripSpec(blocks: AllBlocks, busId: string, lastTripTime: Option<string>)
    requires StartsWellFormed(blocks)
    requires lastTripTime.Some? ==> WellFormed(lastTripTime.value)
    ensures NextTrip(blocks, busId, lastTripTime).None? <==>
      forall i, j :: 0 <= i < |blocks| && 0 <= j < |blocks[i].trips| ==> !Qualifies(blocks[i].trips[j], busId, lastTripTime)
    ensures NextTrip(blocks, busId, lastTripTime).Some? ==>
      var r := NextTrip(blocks, busId, lastTripTime).value;
      && Qualifies(r.trip, busId, lastTripTime)
      && (forall i, j :: 0 <= i < |blocks| && 0 <= j < |blocks[i].trips| && Qualifies(blocks[i].trips[j], busId, lastTripTime)
            ==> !IsOlder(blocks[i].trips[j].scheduledStartTime, r.trip.scheduledStartTime))
      && (exists i, j :: (0 <= i < |blocks| && 0 <= j < |blocks[i].trips|
            && r == TripAt(blocks[i].trips[j], blocks[i].blockId, LastTripIdAt(blocks[i].trips, j))))
  {
    var xs := Extras(blocks);
    BestNone(xs, busId, lastTripTime);
    var r := NextTrip(blocks, busId, lastTripTime);
    if r.None? {
      forall i, j | 0 <= i < |blocks| && 0 <= j < |blocks[i].trips|
        ensures !Qualifies(blocks[i].trips[j], busId, lastTripTime)
      {
        ExtrasAt(blocks, i, j);
      }
    } else {
      BestIsFirstEarliest(xs, busId, lastTripTime);
      var m :| IsFirstEarliest(xs, m, busId, lastTripTime) && xs[m] == r.value;
      ExtrasCover(blocks, m);
      forall i, j | 0 <= i < |blocks| && 0 <= j < |blocks[i].trips| && Qualifies(blocks[i].trips[j], busId, lastTripTime)
        ensures !IsOlder(blocks[i].trips[j].scheduledStartTime, r.value.trip.scheduledStartTime)
      {
        ExtrasAt(blocks, i, j);
        IsOlderIsRankLess(blocks[i].trips[j].scheduledStartTime, r.value.trip.scheduledStartTime);
      }
    }
  }

  /** A trip starting exactly at `lastTripTime` is never the answer. */
  lemma NextTripIsStrictlyLater(blocks: AllBlocks, busId: string, t: string)
    requires StartsWellFormed(blocks) && WellFormed(t)
    ensures NextTrip(blocks, busId, Some(t)).Some? ==>
      var s := NextTrip(blocks, busId, Some(t)).value.trip.scheduledStartTime;
      IsOlder(t, s) && Rank(t) < Rank(s) && s != t
  {
    NextTripSpec(blocks, busId, Some(t));
    if NextTrip(blocks, busId, Some(t)).Some? {
      var s := NextTrip(blocks, busId, Some(t)).value.trip.scheduledStartTime;
      IsOlderIsRankLess(t, s);
    }
  }

  /**
    Ties in start time go to the trip met first in visiting order: every
    qualifying trip visited before the answer starts strictly later.
  */
  lemma NextTripKeepsFirstOfTies(blocks: AllBlocks, busId: string, lastTripTime: Option<string>)
    requires StartsWellFormed(blocks)
    requires lastTripTime.Some? ==> WellFormed(lastTripTime.value)
    ensures NextTrip(blocks, busId, lastTripTime).Some? ==>
      exists m :: IsFirstEarliest(Extras(blocks), m, busId, lastTripTime)
                  && Extras(blocks)[m] == NextTrip(blocks, busId, lastTripTime).value
  {
    if NextTrip(blocks, busId, lastTripTime).Some? {
      BestIsFirstEarliest(Extras(blocks), busId, lastTripTime);
    }
  }

  /** One pass of the outer loop continues the fold with the trips of block `i`. */
  lemma OuterStep(blocks: AllBlocks, i: nat, busId: string, lastTripTime: Option<string>)
    requires StartsWellFormed(blocks) && i < |blocks|
    requires lastTripTime.Some? ==> WellFormed(lastTripTime.value)
    ensures StartsWellFormed(blocks[..i]) && StartsWellFormed(blocks[..i + 1])
    ensures TripsStartWellFormed(BlockExtras(blocks[i].blockId, blocks[i].trips))
    ensures Best(Extras(blocks[..i + 1]), busId, lastTripTime)
         == Fold(Best(Extras(blocks[..i]), busId, lastTripTime), BlockExtras(blocks[i].blockId, blocks[i].trips), busId, lastTripTime)
  {
    var visits := BlockExtras(blocks[i].blockId, blocks[i].trips);
    forall j | 0 <= j < |visits| ensures WellFormed(visits[j].trip.scheduledStartTime) {
      assert blocks[i].trips[j] == visits[j].trip;
    }
    StartsWellFormedPrefix(blocks, i);
    StartsWellFormedPrefix(blocks, i + 1);
    ExtrasSnoc(blocks, i);
    FoldAppend(None, Extras(blocks[..i]), visits, busId, lastTripTime);
  }

  /** One pass of the inner loop continues the fold with the `j`-th trip, annotated with the previous trip's id. */
  lemma ScanStep(blockId: string, trips: seq<Trip>, j: nat, busId: string, lastTripTime: Option<string>, bestIn: Option<TripAt>)
    requires bestIn.Some? ==> WellFormed(bestIn.value.trip.scheduledStartTime)
    requires TripsStartWellFormed(BlockExtras(blockId, trips)) && j < |trips|
    requires lastTripTime.Some? ==> WellFormed(lastTripTime.value)
    ensures WellFormed(trips[j].scheduledStartTime)
    ensures var visits := BlockExtras(blockId, trips);
      Fold(bestIn, visits[..j + 1], busId, lastTripTime)
      == Step(Fold(bestIn, visits[..j], busId, lastTripTime), TripAt(trips[j], blockId, LastTripIdAt(trips, j)), busId, lastTripTime)
  {
    var visits := BlockExtras(blockId, trips);
    assert visits[j] == TripAt(trips[j], blockId, LastTripIdAt(trips, j));
    FoldPrefix(bestIn, visits, j, busId, lastTripTime);
  }

  /** The body of the inner loop: keep `block` when it is a trip of `busId` after `lastTripTime` that starts before the best so far. */
  method ConsiderTrip(block: Trip, blockId: string, lastTripId: Option<string>, busId: string, lastTripTime: Option<string>,
                      best: Option<TripAt>) returns (bestOption: Option<TripAt>)
    requires best.Some? ==> WellFormed(best.value.trip.scheduledStartTime)
    requires WellFormed(block.scheduledStartTime)
    requires lastTripTime.Some? ==> WellFormed(lastTripTime.value)
    ensures bestOption == Step(best, TripAt(block, blockId, lastTripId), busId, lastTripTime)
  {
    bestOption := best;
    if block.busId == Some(busId)
       && (lastTripTime.None? || IsOlder(lastTripTime.value, block.scheduledStartTime))
       && (bestOption.None? || IsOlder(block.scheduledStartTime, bestOption.value.trip.scheduledStartTime))
    {
      bestOption := Some(TripAt(block, blockId, lastTripId));
    }
  }

  /** The inner loop of `getNextTrip`, over the trips of block `blockId`, continuing from `bestIn`. */
  method ScanBlock(blockId: string, trips: seq<Trip>, busId: string, lastTripTime: Option<string>, bestIn: Option<TripAt>)
    returns (bestOption: Option<TripAt>)
    requires bestIn.Some? ==> WellFormed(bestIn.value.trip.scheduledStartTime)
    requires TripsStartWellFormed(BlockExtras(blockId, trips))
    requires lastTripTime.Some? ==> WellFormed(lastTripTime.value)
    ensures bestOption == Fold(bestIn, BlockExtras(blockId, trips), busId, lastTripTime)
  {
    ghost var visits := BlockExtras(blockId, trips);
    bestOption := bestIn;
    var lastTripId: Option<string> := None;
    var j := 0;
    while j < |trips|
      invariant 0 <= j <= |trips|
      invariant lastTripId == LastTripIdAt(trips, j)
      invariant bestOption == Fold(bestIn, visits[..j], busId, lastTripTime)
    {
      var block := trips[j];
      ScanStep(blockId, trips, j, busId, lastTripTime, bestIn);
      bestOption := ConsiderTrip(block, blockId, lastTripId, busId, lastTripTime, bestOption);
      lastTripId := Some(block.tripId);
      j := j + 1;
    }
    assert visits[..j] == visits;
  }

  /** `getNextTrip`: the outer loop over the blocks in `for...in` order. */
  method GetNextTrip(blocks: AllBlocks, busId: string, lastTripTime: Option<string>) returns (bestOption: Option<TripAt>)
    requires StartsWellFormed(blocks)
    requires lastTripTime.Some? ==> WellFormed(lastTripTime.value)
    ensures bestOption == NextTrip(blocks, busId, lastTripTime)
  {
    bestOption := None;
    var i := 0;
    while i < |blocks|
      invariant 0 <= i <= |blocks|
      invariant StartsWellFormed(blocks[..i])
      invariant bestOption == Best(Extras(blocks[..i]), busId, lastTripTime)
    {
      OuterStep(blocks, i, busId, lastTripTime);
      bestOption := ScanBlock(blocks[i].blockId, blocks[i].trips, busId, lastTripTime, bestOption);
      i := i + 1;
    }
    assert blocks[..i] == blocks;
  }
}
