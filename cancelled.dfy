/**
  The Cancellations page: the service gap a cancelled trip leaves, its
  colour classes, and the sort orders of the per-route tables.
*/
module Cancelled {
  import opened Wrappers
  import opened NumberText
  import opened TimeCodec
  import opened StableSort
  import opened Sequences
  import opened PageNavigation

  /**
    One cancelled trip. The start times of the trips before and after it on
    the route may be missing (`null` or empty). Headsign, direction and the
    trip's own times are only displayed and are not modelled.
  */
  datatype Cancellation = Cancellation(
    tripId: string, blockId: string,
    lastStartTime: Option<string>, nextStartTime: Option<string>)

  datatype CancellationData = CancellationData(routeId: string, totalTrips: int, cancellations: seq<Cancellation>)

  /** Present times are fixed-width schedule times. */
  predicate TimesWellFormed(c: Cancellation)
  {
    && (Truthy(c.lastStartTime) ==> WellFormed(c.lastStartTime.value))
    && (Truthy(c.nextStartTime) ==> WellFormed(c.nextStartTime.value))
  }

  /**
    The service gap in whole minutes: `Math.abs(Math.floor(diff / 60))` of
    the seconds between the neighbouring trips' start times, or 0 when
    either is missing. (Dafny's `/` by the positive 60 is the floor.)
  */
  function ServiceGap(c: Cancellation): (gap: nat)
    requires TimesWellFormed(c)
    ensures !Truthy(c.lastStartTime) || !Truthy(c.nextStartTime) ==> gap == 0
    ensures Truthy(c.lastStartTime) && Truthy(c.nextStartTime) ==>
      var d := Diff(c.nextStartTime.value, c.lastStartTime.value);
      && (d >= 0 ==> 60 * gap <= d < 60 * gap + 60)
      && (d < 0 ==> 60 * gap - 60 < -d <= 60 * gap)
  {
    if Truthy(c.nextStartTime) && Truthy(c.lastStartTime) then
      Abs(Diff(c.nextStartTime.value, c.lastStartTime.value) / 60)
    else 0
  }

  /** The service gap is the whole minutes between the two start times rounded down, whichever is later. */
  lemma ServiceGapOfOrderedTimes(c: Cancellation)
    requires TimesWellFormed(c) && Truthy(c.lastStartTime) && Truthy(c.nextStartTime)
    requires Valid(c.lastStartTime.value) && Valid(c.nextStartTime.value)
    ensures !IsOlder(c.nextStartTime.value, c.lastStartTime.value) ==>
      ServiceGap(c) == (ToSeconds(c.nextStartTime.value) - ToSeconds(c.lastStartTime.value)) / 60
  {
    IsOlderIffDiffNegative(c.nextStartTime.value, c.lastStartTime.value);
    DiffIsSecondsDifference(c.nextStartTime.value, c.lastStartTime.value);
  }

  /** The class names of the service-gap cell. */
  function GapClass(gap: int): (r: string)
    ensures gap > 45 ==> r == "red-text yellow-text"
    ensures 30 < gap <= 45 ==> r == "yellow-text"
    ensures gap <= 30 ==> r == ""
  {
    (if gap > 45 then "red-text " else "") + (if gap > 30 then "yellow-text" else "")
  }

  /** The red class is there exactly when the gap exceeds 45 minutes, the yellow one when it exceeds 30. */
  lemma GapClassThresholds(gap: int)
    ensures (|GapClass(gap)| > 0 && GapClass(gap)[0] == 'r') <==> gap > 45
    ensures |GapClass(gap)| > 0 <==> gap > 30
  {
  }

  const RouteSort := "route"
  const CancelNumSort := "cancelNum"
  const CancelPercentageSort := "cancelPercentage"

  /** The sort chosen by the `sort` parameter: the route order when it is missing or empty. */
  function SortParam(value: Option<string>): (sort: string)
    ensures sort != ""
    ensures Truthy(value) ==> sort == value.value
    ensures !Truthy(value) ==> sort == RouteSort
  {
    if Truthy(value) then value.value else RouteSort
  }

  /** The new value the sort picker hands to `getPageUrl`: no parameter for the route order. */
  function SortUpdate(v: string): (string, Option<string>)
  {
    ("sort", if v == RouteSort then None else Some(v))
  }

  /**
    Choosing a sort in the picker and reading the parameter back gives that
    sort, whatever the other parameters are; the route order leaves no
    `sort` parameter behind.
  */
  lemma SortPickerRoundTrip(es: seq<Entry>, v: string)
    requires v != ""
    ensures SortParam(Lookup(Apply(es, [SortUpdate(v)]), "sort")) == v
    ensures v == RouteSort <==> Lookup(Apply(es, [SortUpdate(v)]), "sort") == None
  {
    ApplyByKey(es, [SortUpdate(v)], "sort");
  }

  predicate KnownSort(sort: string)
  {
    sort == RouteSort || sort == CancelNumSort || sort == CancelPercentageSort
  }

  /**
    `a / b` of the runtime for a count over a total: a rational, or
    infinite or `NaN` for a zero total.
  */
  datatype Share = Finite(value: real) | Infinite | NotANumber

  function CancelShare(d: CancellationData): Share
  {
    if d.totalTrips != 0 then Finite(|d.cancellations| as real / d.totalTrips as real)
    else if |d.cancellations| == 0 then NotANumber
    else Infinite
  }

  /**
    "`x - y` is not positive" for two shares; a `NaN` difference (either is
    `NaN`, or both are infinite) counts as 0.
  */
  predicate ShareDifferenceNotPositive(x: Share, y: Share)
  {
    match (x, y)
    case (Finite(p), Finite(q)) => p - q <= 0.0
    case (Infinite, Finite(_)) => false
    case _ => true
  }

  /** `parseInt(a.routeId) - parseInt(b.routeId)` is not positive; a `NaN` counts as 0. */
  predicate RouteLe(a: CancellationData, b: CancellationData)
  {
    match (ParseInt(a.routeId), ParseInt(b.routeId))
    case (Some(x), Some(y)) => x - y <= 0
    case _ => true
  }

  /** `b.cancellations.length - a.cancellations.length` is not positive. */
  predicate CancelNumLe(a: CancellationData, b: CancellationData)
  {
    |b.cancellations| - |a.cancellations| <= 0
  }

  /** `b.cancellations.length / b.totalTrips - a.cancellations.length / a.totalTrips` is not positive. */
  predicate CancelPercentageLe(a: CancellationData, b: CancellationData)
  {
    ShareDifferenceNotPositive(CancelShare(b), CancelShare(a))
  }

  function SortLe(sort: string): (CancellationData, CancellationData) -> bool
    requires KnownSort(sort)
  {
    if sort == RouteSort then RouteLe
    else if sort == CancelNumSort then CancelNumLe
    else CancelPercentageLe
  }

  /** The order `sortData` leaves: sorted for the three known options, untouched otherwise (the switch has no default). */
  function SortedView(data: seq<CancellationData>, sort: string): seq<CancellationData>
  {
    if KnownSort(sort) then Sort(data, SortLe(sort)) else data
  }

  /** `sortData`: sorts the array it is given in place and returns that same array. */
  method SortData(data: array<CancellationData>, sort: string) returns (r: array<CancellationData>)
    modifies data
    ensures r == data
    ensures data[..] == SortedView(old(data[..]), sort)
  {
    if sort == RouteSort {
      SortInPlace(data, RouteLe);
    } else if sort == CancelNumSort {
      SortInPlace(data, CancelNumLe);
    } else if sort == CancelPercentageSort {
      SortInPlace(data, CancelPercentageLe);
    }
    r := data;
  }

  /** The effect that shows the tables: `sortData` on a copy, so the unsorted data stay as fetched. */
  method ShowCancellations(unsorted: array<CancellationData>, sort: string) returns (shown: array<CancellationData>)
    ensures fresh(shown)
    ensures unsorted[..] == old(unsorted[..])
    ensures shown[..] == SortedView(unsorted[..], sort)
  {
    var copy := new CancellationData[unsorted.Length](i reads unsorted requires 0 <= i < unsorted.Length => unsorted[i]);
    assert copy[..] == unsorted[..];
    shown := SortData(copy, sort);
  }

  /** Every order is a permutation of the data; an unknown option keeps the data as they are. */
  lemma SortedViewPermutes(data: seq<CancellationData>, sort: string)
    ensures multiset(SortedView(data, sort)) == multiset(data)
    ensures !KnownSort(sort) ==> SortedView(data, sort) == data
  {
    if KnownSort(sort) {
      SortPermutes(data, SortLe(sort));
    }
  }

  predicate NumberedRoute(d: CancellationData)
  {
    ParseInt(d.routeId).Some?
  }

  /** With numeric route ids the route order ascends by route number. */
  lemma RouteSortAscends(data: seq<CancellationData>)
    requires forall d :: d in data ==> NumberedRoute(d)
    ensures var r := SortedView(data, RouteSort);
      forall i, j :: 0 <= i < j < |r| ==>
        NumberedRoute(r[i]) && NumberedRoute(r[j]) && ParseInt(r[i].routeId).value <= ParseInt(r[j].routeId).value
  {
    var key := (d: CancellationData) => if NumberedRoute(d) then ParseInt(d.routeId).value as real else 0.0;
    SortByKey(data, RouteLe, key);
    SortMembership(data, RouteLe);
  }

  /** The cancellation-count order never increases down the page. */
  lemma CancelNumDescends(data: seq<CancellationData>)
    ensures var r := SortedView(data, CancelNumSort);
      forall i, j :: 0 <= i < j < |r| ==> |r[i].cancellations| >= |r[j].cancellations|
  {
    SortByKey(data, CancelNumLe, (d: CancellationData) => -(|d.cancellations| as real));
  }

  /**
    With positive totals the cancellation-percentage order never increases
    down the page: compared by cross-multiplication, each route's share is at
    least the next one's.
  */
  lemma CancelPercentageDescends(data: seq<CancellationData>)
    requires forall d :: d in data ==> d.totalTrips > 0
    ensures var r := SortedView(data, CancelPercentageSort);
      forall i, j :: 0 <= i < j < |r| ==>
        |r[i].cancellations| * r[j].totalTrips >= |r[j].cancellations| * r[i].totalTrips
  {
    var key := (d: CancellationData) =>
      if d.totalTrips > 0 then -(|d.cancellations| as real / d.totalTrips as real) else 0.0;
    SortByKey(data, CancelPercentageLe, key);
    SortMembership(data, CancelPercentageLe);
    var r := SortedView(data, CancelPercentageSort);
    forall i, j | 0 <= i < j < |r|
      ensures |r[i].cancellations| * r[j].totalTrips >= |r[j].cancellations| * r[i].totalTrips
    {
      assert r[i] in data && r[j] in data;
      CrossMultiply(|r[i].cancellations|, r[i].totalTrips, |r[j].cancellations|, r[j].totalTrips);
    }
  }

  lemma CrossMultiply(a: int, p: int, b: int, q: int)
    requires p > 0 && q > 0
    requires a as real / p as real >= b as real / q as real
    ensures a * q >= b * p
  {
    var x := a as real / p as real;
    var y := b as real / q as real;
    assert a as real == x * p as real;
    assert b as real == y * q as real;
    assert (a * q) as real == x * (p as real * q as real);
    assert (b * p) as real == y * (p as real * q as real);
  }
}
