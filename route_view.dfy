/**
  The post-fetch part of the route table (`getRouteData` in
  src/app/tracker/route/page.client.tsx): one colour per bus in first-seen
  order, and the split of the trips by direction.
*/
module RouteView {
  import opened Wrappers
  import opened BusTracker
  import opened BusPalette
  import opened TripStatus
  import opened TimeCodec

  /** One row of the route-details response. */
  datatype TripDetails = TripDetails(
    tripId: string,
    headSign: string,
    routeDirection: int,
    scheduledStartTime: string,
    scheduledEndTime: string,
    actualStartTime: Option<string>,
    actualEndTime: Option<string>,
    delay: Option<int>,
    canceled: Option<int>,
    busId: Option<string>,
    blockId: Option<string>)

  /** The truthy bus ids of the rows, in row order. */
  function BusIds(trips: seq<TripDetails>): (r: seq<string>)
    ensures forall x :: x in r <==> exists i :: 0 <= i < |trips| && trips[i].busId == Some(x) && x != ""
  {
    if trips == [] then []
    else
      var t := trips[|trips| - 1];
      var p := trips[..|trips| - 1];
      assert forall i :: 0 <= i < |p| ==> trips[i] == p[i];
      BusIds(p) + (if Truthy(t.busId) then [t.busId.value] else [])
  }

  /** One row of the colour loop: the first-seen list grows exactly when the row brings a new truthy bus id. */
  lemma ColourStep(trips: seq<TripDetails>, i: nat)
    requires i < |trips|
    ensures var q, q' := FirstSeen(BusIds(trips[..i])), FirstSeen(BusIds(trips[..i + 1]));
      var b := trips[i].busId;
      q' == if Truthy(b) && b.value !in q then q + [b.value] else q
  {
    assert trips[..i + 1][..i] == trips[..i];
    var ids := BusIds(trips[..i + 1]);
    if Truthy(trips[i].busId) {
      assert ids[..|ids| - 1] == BusIds(trips[..i]);
    } else {
      assert ids == BusIds(trips[..i]);
    }
  }

  /**
    The colour loop: a row with a truthy bus id not yet coloured gives that
    bus the next palette entry. Palette entries are non-empty, so
    `!colorPerBus[busId]` is "not yet in the map".
  */
  method AssignColours(trips: seq<TripDetails>) returns (colorPerBus: map<string, string>)
    ensures colorPerBus == ColoursOf(FirstSeen(BusIds(trips)))
  {
    colorPerBus := map[];
    var index := 0;
    for i := 0 to |trips|
      invariant colorPerBus == ColoursOf(FirstSeen(BusIds(trips[..i])))
      invariant index == |FirstSeen(BusIds(trips[..i]))|
    {
      var trip := trips[i];
      ColourStep(trips, i);
      if trip.busId.Some? && trip.busId.value != "" && trip.busId.value !in colorPerBus {
        colorPerBus := colorPerBus[trip.busId.value := BusColors[index % |BusColors|]];
        index := index + 1;
      }
    }
    assert trips[..|trips|] == trips;
  }

  /** Every truthy bus id, and no other key, is coloured; the k-th bus to appear gets `busColors[k % 7]`. */
  lemma RouteColours(trips: seq<TripDetails>)
    ensures var m := ColoursOf(FirstSeen(BusIds(trips)));
      forall x :: x in m <==> exists i :: 0 <= i < |trips| && trips[i].busId == Some(x) && x != ""
    ensures var order := FirstSeen(BusIds(trips));
      forall k :: 0 <= k < |order| ==> ColoursOf(order)[order[k]] == BusColors[k % 7]
  {
    ColoursOfAt(FirstSeen(BusIds(trips)));
  }

  /** `trip1`: the rows with `routeDirection === 0`, in order. */
  function Direction0(trips: seq<TripDetails>): seq<TripDetails>
  {
    if trips == [] then []
    else Direction0(trips[..|trips| - 1]) + (if trips[|trips| - 1].routeDirection == 0 then [trips[|trips| - 1]] else [])
  }

  /** `trip2`: every other row, in order. */
  function OtherDirection(trips: seq<TripDetails>): seq<TripDetails>
  {
    if trips == [] then []
    else OtherDirection(trips[..|trips| - 1]) + (if trips[|trips| - 1].routeDirection != 0 then [trips[|trips| - 1]] else [])
  }

  /** The two lists partition the rows: direction 0 on one side, every other direction on the other, nothing lost or added. */
  lemma DirectionSplit(trips: seq<TripDetails>)
    ensures forall t :: t in Direction0(trips) <==> t in trips && t.routeDirection == 0
    ensures forall t :: t in OtherDirection(trips) <==> t in trips && t.routeDirection != 0
    ensures multiset(Direction0(trips)) + multiset(OtherDirection(trips)) == multiset(trips)
  {
    SplitMultiset(trips);
    forall t ensures t in Direction0(trips) <==> t in trips && t.routeDirection == 0 {
      Direction0Members(trips, t);
    }
    forall t ensures t in OtherDirection(trips) <==> t in trips && t.routeDirection != 0 {
      OtherDirectionMembers(trips, t);
    }
  }

  lemma {:induction false} SplitMultiset(trips: seq<TripDetails>)
    ensures multiset(Direction0(trips)) + multiset(OtherDirection(trips)) == multiset(trips)
  {
    if trips != [] {
      var p := trips[..|trips| - 1];
      SplitMultiset(p);
      assert trips == p + [trips[|trips| - 1]];
    }
  }

  lemma {:induction false} Direction0Members(trips: seq<TripDetails>, t: TripDetails)
    ensures t in Direction0(trips) <==> t in trips && t.routeDirection == 0
  {
    if trips != [] {
      var p := trips[..|trips| - 1];
      Direction0Members(p, t);
      assert trips == p + [trips[|trips| - 1]];
    }
  }

  lemma {:induction false} OtherDirectionMembers(trips: seq<TripDetails>, t: TripDetails)
    ensures t in OtherDirection(trips) <==> t in trips && t.routeDirection != 0
  {
    if trips != [] {
      var p := trips[..|trips| - 1];
      OtherDirectionMembers(p, t);
      assert trips == p + [trips[|trips| - 1]];
    }
  }

  /** Each list keeps the rows' original order: splitting a concatenation splits each part. */
  lemma DirectionSplitKeepsOrder(a: seq<TripDetails>, b: seq<TripDetails>)
    ensures Direction0(a + b) == Direction0(a) + Direction0(b)
    ensures OtherDirection(a + b) == OtherDirection(a) + OtherDirection(b)
  {
    Direction0Append(a, b);
    OtherDirectionAppend(a, b);
  }

  lemma {:induction false} Direction0Append(a: seq<TripDetails>, b: seq<TripDetails>)
    ensures Direction0(a + b) == Direction0(a) + Direction0(b)
  {
    if b == [] {
      assert a + b == a;
    } else {
      var c := b[..|b| - 1];
      Direction0Append(a, c);
      assert (a + b)[..|a + b| - 1] == a + c;
    }
  }

  lemma {:induction false} OtherDirectionAppend(a: seq<TripDetails>, b: seq<TripDetails>)
    ensures OtherDirection(a + b) == OtherDirection(a) + OtherDirection(b)
  {
    if b == [] {
      assert a + b == a;
    } else {
      var c := b[..|b| - 1];
      OtherDirectionAppend(a, c);
      assert (a + b)[..|a + b| - 1] == a + c;
    }
  }

  /** The fields of a route row that the classification reads. */
  function Observation(t: TripDetails): (o: Observed)
    ensures o.actualStartTime == t.actualStartTime && o.actualEndTime == t.actualEndTime
    ensures o.canceled == t.canceled && o.delay == t.delay
    ensures o.scheduledStartTime == t.scheduledStartTime && o.scheduledEndTime == t.scheduledEndTime
  {
    Observed(t.scheduledStartTime, t.scheduledEndTime, t.actualStartTime, t.actualEndTime, t.delay, t.canceled)
  }

  function Observations(trips: seq<TripDetails>): (r: seq<Observed>)
    ensures |r| == |trips| && forall i :: 0 <= i < |trips| ==> r[i] == Observation(trips[i])
  {
    seq(|trips|, i requires 0 <= i < |trips| => Observation(trips[i]))
  }

  /** The route table's flags: cancelled exactly when flagged and not started; untracked only when neither. */
  lemma RouteRowFlags(trips: seq<TripDetails>, index: nat, isToday: bool, now: string)
    requires index < |trips| && Readable(Observation(trips[index])) && WellFormed(now)
    ensures Canceled(Observations(trips)[index]) <==> FlagSet(trips[index].canceled) && !Truthy(trips[index].actualStartTime)
    ensures Untracked(Observations(trips), index, isToday, now) ==> !FlagSet(trips[index].canceled) && !Truthy(trips[index].actualStartTime)
  {
    CanceledAndUntrackedExclusive(Observations(trips), index, isToday, now);
  }
}
