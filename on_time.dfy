/**
  The On-Time Performance page: the query-string parsers, the count and
  ratio formatting, the merging of per-direction route statistics and the
  sort orders of the route table.
*/
module OnTime {
  import opened Wrappers
  import opened NumberText
  import opened StableSort
  import opened Sequences

  // ---------------------------------------------------------------------
  // Query-string parameters
  // ---------------------------------------------------------------------

  datatype Metric = AvgObserved | Start

  /** The text of a metric in the query string. */
  function MetricValue(m: Metric): string
  {
    match m
    case AvgObserved => "avgObserved"
    case Start => "start"
  }

  /** `parseMetric`: only the exact text "start" selects the start metric. */
  function ParseMetric(value: Option<string>): (m: Metric)
    ensures m == Start <==> value == Some("start")
  {
    if value == Some("start") then Start else AvgObserved
  }

  /** A metric written by the picker (absent for the default) reads back unchanged. */
  lemma MetricUrlRoundTrip(m: Metric)
    ensures ParseMetric(if m == AvgObserved then None else Some(MetricValue(m))) == m
    ensures ParseMetric(Some(MetricValue(m))) == m
  {
  }

  datatype SortOption = Route | Best | Worst | Canceled

  /** The text of a sort option in the query string. */
  function SortValue(s: SortOption): string
  {
    match s
    case Route => "route"
    case Best => "best"
    case Worst => "worst"
    case Canceled => "canceled"
  }

  /** `parseSort`: the three named orders are recognised, anything else is the route order. */
  function ParseSort(value: Option<string>): (s: SortOption)
    ensures s != Route ==> value == Some(SortValue(s))
    ensures value.Some? && value.value in {"best", "worst", "canceled"} ==> s != Route
  {
    match value
    case Some("best") => Best
    case Some("worst") => Worst
    case Some("canceled") => Canceled
    case _ => Route
  }

  /** A sort written by the picker (absent for the route order) reads back unchanged. */
  lemma SortUrlRoundTrip(s: SortOption)
    ensures ParseSort(if s == Route then None else Some(SortValue(s))) == s
    ensures ParseSort(Some(SortValue(s))) == s
  {
  }

  const DefaultThreshold := 5
  const MaxThreshold := 30

  /** `Math.round`: the nearest integer, halves rounded up. */
  function Round(x: real): (n: int)
    ensures n as real - 0.5 <= x < n as real + 0.5
  {
    (x + 0.5).Floor
  }

  /**
    `parseThreshold`. `number(s)` is `Number(s)` when that is finite and
    `None` when it is `NaN` or infinite.
  */
  function ParseThreshold(value: Option<string>, number: string -> Option<real>): (r: int)
    ensures 1 <= r <= MaxThreshold
    ensures !Truthy(value) ==> r == DefaultThreshold
    ensures Truthy(value) && number(value.value).None? ==> r == DefaultThreshold
    ensures Truthy(value) && number(value.value).Some? ==>
      var x := number(value.value).value;
      && (x < 1.5 ==> r == 1)
      && (x >= 29.5 ==> r == MaxThreshold)
      && (1.5 <= x < 29.5 ==> r as real - 0.5 <= x < r as real + 0.5)
  {
    if !Truthy(value) then DefaultThreshold
    else
      match number(value.value)
      case None => DefaultThreshold
      case Some(x) =>
        var n := Round(x);
        if n < 1 then 1 else if n > MaxThreshold then MaxThreshold else n
  }

  /** A threshold written by the slider (absent for the default) reads back unchanged. */
  lemma ThresholdUrlRoundTrip(next: int, number: string -> Option<real>)
    requires 1 <= next <= MaxThreshold
    requires number(NatToString(next)) == Some(next as real)
    ensures ParseThreshold(if next == DefaultThreshold then None else Some(NatToString(next)), number) == next
  {
  }

  /** `parseIncludeCanceled`: true for the texts "1" and "true" only. */
  function ParseIncludeCanceled(value: Option<string>): (b: bool)
    ensures b <==> value == Some("1") || value == Some("true")
  {
    value == Some("1") || value == Some("true")
  }

  /** The checkbox writes "true" or removes the parameter; either reads back unchanged. */
  lemma IncludeCanceledUrlRoundTrip(checked: bool)
    ensures ParseIncludeCanceled(if checked then Some("true") else None) == checked
  {
  }

  // ---------------------------------------------------------------------
  // Statistics records and their formatting
  // ---------------------------------------------------------------------

  datatype Counts = Counts(totalScheduled: int, evaluatedTrips: int, onTimeTrips: int, canceledTrips: int)
  {
    function Plus(other: Counts): Counts
    {
      Counts(
        totalScheduled + other.totalScheduled, evaluatedTrips + other.evaluatedTrips,
        onTimeTrips + other.onTimeTrips, canceledTrips + other.canceledTrips)
    }
  }

  const NoCounts := Counts(0, 0, 0, 0)

  /** The statistics shared by every row; `onTimePct` is a percentage or `null`. */
  datatype Aggregate = Aggregate(counts: Counts, onTimePct: Option<real>)

  datatype RouteAggregate = RouteAggregate(routeId: string, direction: int, agg: Aggregate)

  datatype CombinedRoute = CombinedRoute(routeId: string, agg: Aggregate)

  /** `formatCount`: numerator, a slash, denominator. */
  function FormatCount(numerator: int, denominator: int): string
  {
    IntToString(numerator) + "/" + IntToString(denominator)
  }

  /** The text before the first slash reads back as the numerator and the text after it as the denominator. */
  lemma FormatCountReadsBack(numerator: int, denominator: int)
    ensures var r := FormatCount(numerator, denominator);
      var k := |IntToString(numerator)|;
      && k < |r| && r[k] == '/' && '/' !in r[..k]
      && ParseInt(r[..k]) == Some(numerator)
      && ParseInt(r[k + 1..]) == Some(denominator)
  {
    var a := IntToString(numerator);
    var b := IntToString(denominator);
    var r := FormatCount(numerator, denominator);
    assert r[..|a|] == a + [] && r[|a| + 1..] == b + [];
    ParseIntOfIntToString(numerator, []);
    ParseIntOfIntToString(denominator, []);
    assert '/' !in a by {
      assert forall i :: 0 < i < |a| ==> IsDigit(a[i]);
    }
  }

  /** What `formatRatio` shows: "n/a", or the percentage (its decimal text is not modelled). */
  datatype RatioText = NotApplicable | Percent(value: real)

  /** `formatRatio`: "n/a" exactly for a zero denominator, otherwise the ratio in percent. */
  function FormatRatio(numerator: int, denominator: int): (r: RatioText)
    ensures r.NotApplicable? <==> denominator == 0
    ensures r.Percent? ==> r.value * denominator as real == numerator as real * 100.0
  {
    if denominator == 0 then NotApplicable
    else Percent(numerator as real / denominator as real * 100.0)
  }

  // ---------------------------------------------------------------------
  // combineDirections
  // ---------------------------------------------------------------------

  /** Some input row carries `routeId`. */
  predicate Mentions(routes: seq<RouteAggregate>, routeId: string)
  {
    exists i :: 0 <= i < |routes| && routes[i].routeId == routeId
  }

  /** The distinct route ids in order of first appearance: the insertion order of the `combined` record. */
  function FirstSeen(routes: seq<RouteAggregate>): seq<string>
  {
    if routes == [] then []
    else
      var p := FirstSeen(routes[..|routes| - 1]);
      var id := routes[|routes| - 1].routeId;
      if id in p then p else p + [id]
  }

  /** The sum of the counts of every input row with `routeId`. */
  function Total(routes: seq<RouteAggregate>, routeId: string): Counts
  {
    if routes == [] then NoCounts
    else
      var p := Total(routes[..|routes| - 1], routeId);
      var last := routes[|routes| - 1];
      if last.routeId == routeId then p.Plus(last.agg.counts) else p
  }

  lemma MentionsStep(routes: seq<RouteAggregate>, routeId: string)
    requires routes != []
    ensures Mentions(routes, routeId) <==>
      Mentions(routes[..|routes| - 1], routeId) || routes[|routes| - 1].routeId == routeId
  {
    var p := routes[..|routes| - 1];
    if Mentions(routes, routeId) && routes[|routes| - 1].routeId != routeId {
      var i :| 0 <= i < |routes| && routes[i].routeId == routeId;
      assert p[i].routeId == routeId;
    }
    if Mentions(p, routeId) {
      var i :| 0 <= i < |p| && p[i].routeId == routeId;
      assert routes[i].routeId == routeId;
    }
  }

  /** Every route id appears once, and exactly the ids of the input appear. */
  lemma {:induction false} FirstSeenFacts(routes: seq<RouteAggregate>)
    ensures NoRepeats(FirstSeen(routes))
    ensures forall id :: id in FirstSeen(routes) <==> Mentions(routes, id)
  {
    if routes != [] {
      var p := routes[..|routes| - 1];
      FirstSeenFacts(p);
      forall id ensures id in FirstSeen(routes) <==> Mentions(routes, id) {
        MentionsStep(routes, id);
      }
    }
  }

  /** Totals add up over concatenated inputs. */
  lemma {:induction false} TotalAppend(a: seq<RouteAggregate>, b: seq<RouteAggregate>, routeId: string)
    ensures Total(a + b, routeId) == Total(a, routeId).Plus(Total(b, routeId))
  {
    if b == [] {
      assert a + b == a;
    } else {
      var q := b[..|b| - 1];
      assert (a + b)[..|a + b| - 1] == a + q;
      TotalAppend(a, q, routeId);
    }
  }

  /** A route id no row carries totals to zero. */
  lemma {:induction false} TotalUnmentioned(routes: seq<RouteAggregate>, routeId: string)
    requires !Mentions(routes, routeId)
    ensures Total(routes, routeId) == NoCounts
  {
    if routes != [] {
      MentionsStep(routes, routeId);
      TotalUnmentioned(routes[..|routes| - 1], routeId);
    }
  }

  /**
    An array index in the sense of the JavaScript object model: the canonical
    decimal text of an integer below 2^32 - 1.
  */
  predicate IsArrayIndex(s: string)
  {
    |s| >= 1 && AllDigits(s) && (s[0] != '0' || |s| == 1) && DigitsValue(s) < 0xFFFF_FFFF
  }

  predicate NotArrayIndex(s: string)
  {
    !IsArrayIndex(s)
  }

  function IndexValue(s: string): int
  {
    if AllDigits(s) then DigitsValue(s) else 0
  }

  predicate IndexLe(a: string, b: string)
  {
    IndexValue(a) <= IndexValue(b)
  }

  /**
    The order of `Object.entries` on a record whose keys were inserted in the
    order `keys`: array-index keys in ascending numeric order, then the other
    keys in insertion order.
  */
  function EntryOrder(keys: seq<string>): seq<string>
  {
    Sort(Filter(keys, IsArrayIndex), IndexLe) + Filter(keys, NotArrayIndex)
  }

  lemma NoRepeatsDisjointConcat(a: seq<string>, b: seq<string>)
    requires NoRepeats(a) && NoRepeats(b)
    requires forall x :: x in a ==> x !in b
    ensures NoRepeats(a + b)
  {
    var c := a + b;
    forall i, j | 0 <= i < j < |c| ensures c[i] != c[j] {
      if i < |a| && j >= |a| {
        assert c[i] in a && c[j] == b[j - |a|];
      } else if i >= |a| {
        assert c[i] == b[i - |a|] && c[j] == b[j - |a|];
      }
    }
  }

  /** Distinct keys come out once each; array-index keys come first, in ascending order. */
  lemma EntryOrderFacts(keys: seq<string>)
    requires NoRepeats(keys)
    ensures NoRepeats(EntryOrder(keys))
    ensures forall k :: k in EntryOrder(keys) <==> k in keys
    ensures forall i, j :: 0 <= i < j < |EntryOrder(keys)| && IsArrayIndex(EntryOrder(keys)[j]) ==>
      IsArrayIndex(EntryOrder(keys)[i]) && IndexValue(EntryOrder(keys)[i]) <= IndexValue(EntryOrder(keys)[j])
  {
    var indices := Filter(keys, IsArrayIndex);
    var sorted := Sort(indices, IndexLe);
    var others := Filter(keys, NotArrayIndex);
    var r := sorted + others;
    FilterNoRepeats(keys, IsArrayIndex);
    FilterNoRepeats(keys, NotArrayIndex);
    SortNoRepeats(indices, IndexLe);
    SortMembership(indices, IndexLe);
    NoRepeatsDisjointConcat(sorted, others);
    SortSorted(indices, IndexLe);
    forall i, j | 0 <= i < j < |r| && IsArrayIndex(r[j])
      ensures IsArrayIndex(r[i]) && IndexValue(r[i]) <= IndexValue(r[j])
    {
      assert r[j] !in others;
      assert j < |sorted|;
      assert r[i] == sorted[i] && r[j] == sorted[j];
      assert r[i] in indices;
    }
  }

  /** A merged row: the summed counts and the percentage recomputed from them. */
  predicate CombinedFrom(routes: seq<RouteAggregate>, c: CombinedRoute)
  {
    var t := c.agg.counts;
    && t == Total(routes, c.routeId)
    && (c.agg.onTimePct.None? <==> t.evaluatedTrips == 0)
    && (c.agg.onTimePct.Some? ==> c.agg.onTimePct.value * t.evaluatedTrips as real == t.onTimeTrips as real * 100.0)
  }

  function Combine(routeId: string, t: Counts): (c: CombinedRoute)
    ensures c.routeId == routeId && c.agg.counts == t
    ensures c.agg.onTimePct.None? <==> t.evaluatedTrips == 0
    ensures c.agg.onTimePct.Some? ==> c.agg.onTimePct.value * t.evaluatedTrips as real == t.onTimeTrips as real * 100.0
  {
    var pct := FormatRatio(t.onTimeTrips, t.evaluatedTrips);
    CombinedRoute(routeId, Aggregate(t, if pct.NotApplicable? then None else Some(pct.value)))
  }

  function TotalStep(done: seq<RouteAggregate>, route: RouteAggregate, routeId: string): Counts
  {
    if route.routeId == routeId then Total(done, routeId).Plus(route.agg.counts) else Total(done, routeId)
  }

  /** The accumulation loop: the record's keys in insertion order, and the running sums. */
  method Accumulate(routes: seq<RouteAggregate>) returns (keys: seq<string>, combined: map<string, Counts>)
    ensures keys == FirstSeen(routes)
    ensures forall k :: k in combined <==> k in keys
    ensures forall k :: k in combined ==> combined[k] == Total(routes, k)
  {
    keys := [];
    combined := map[];
    for i := 0 to |routes|
      invariant keys == FirstSeen(routes[..i])
      invariant forall k :: k in combined <==> k in keys
      invariant forall k :: k in combined ==> combined[k] == Total(routes[..i], k)
    {
      var route := routes[i];
      assert routes[..i + 1][..i] == routes[..i] && routes[..i + 1][i] == route;
      assert forall k :: Total(routes[..i + 1], k) == TotalStep(routes[..i], route, k);
      if route.routeId !in combined {
        FirstSeenFacts(routes[..i]);
        TotalUnmentioned(routes[..i], route.routeId);
        combined := combined[route.routeId := NoCounts];
        keys := keys + [route.routeId];
      }
      combined := combined[route.routeId := combined[route.routeId].Plus(route.agg.counts)];
    }
    assert routes[..|routes|] == routes;
  }

  /** The `Object.entries(...).map(...)` step: one merged row per key, in entry order. */
  method Emit(routes: seq<RouteAggregate>, keys: seq<string>, combined: map<string, Counts>)
    returns (out: seq<CombinedRoute>)
    requires forall k :: k in combined <==> k in keys
    requires forall k :: k in combined ==> combined[k] == Total(routes, k)
    requires NoRepeats(keys)
    ensures |out| == |EntryOrder(keys)|
    ensures forall j :: 0 <= j < |out| ==> out[j].routeId == EntryOrder(keys)[j]
    ensures forall j :: 0 <= j < |out| ==> CombinedFrom(routes, out[j])
  {
    EntryOrderFacts(keys);
    var order := EntryOrder(keys);
    out := seq(|order|, j requires 0 <= j < |order| => Combine(order[j], combined[order[j]]));
    forall j | 0 <= j < |out| ensures CombinedFrom(routes, out[j]) {
      assert order[j] in keys;
    }
  }

  /** Rows whose ids are the entry order of the distinct input ids: one row per input id, and no other. */
  lemma OnePerRoute(routes: seq<RouteAggregate>, out: seq<CombinedRoute>)
    requires |out| == |EntryOrder(FirstSeen(routes))|
    requires forall j :: 0 <= j < |out| ==> out[j].routeId == EntryOrder(FirstSeen(routes))[j]
    ensures forall a, b :: 0 <= a < b < |out| ==> out[a].routeId != out[b].routeId
    ensures forall id :: Mentions(routes, id) <==> exists j :: 0 <= j < |out| && out[j].routeId == id
  {
    var order := EntryOrder(FirstSeen(routes));
    FirstSeenFacts(routes);
    EntryOrderFacts(FirstSeen(routes));
    forall a, b | 0 <= a < b < |out| ensures out[a].routeId != out[b].routeId {
      assert order[a] != order[b];
    }
    forall id ensures Mentions(routes, id) <==> exists j :: 0 <= j < |out| && out[j].routeId == id {
      if id in order {
        var j :| 0 <= j < |order| && order[j] == id;
        assert out[j].routeId == id;
      }
    }
  }

  /** `combineDirections`: one row per distinct route id, in the record's entry order, with summed counts. */
  method CombineDirections(routes: seq<RouteAggregate>) returns (out: seq<CombinedRoute>)
    ensures |out| == |EntryOrder(FirstSeen(routes))|
    ensures forall j :: 0 <= j < |out| ==> out[j].routeId == EntryOrder(FirstSeen(routes))[j]
    ensures forall j :: 0 <= j < |out| ==> CombinedFrom(routes, out[j])
    ensures forall a, b :: 0 <= a < b < |out| ==> out[a].routeId != out[b].routeId
    ensures forall id :: Mentions(routes, id) <==> exists j :: 0 <= j < |out| && out[j].routeId == id
  {
    var keys, combined := Accumulate(routes);
    FirstSeenFacts(routes);
    out := Emit(routes, keys, combined);
    OnePerRoute(routes, out);
  }

  // ---------------------------------------------------------------------
  // Sort orders
  // ---------------------------------------------------------------------

  function PctOr(pct: Option<real>, sentinel: real): real
  {
    if pct.Some? then pct.value else sentinel
  }

  /** `(b.onTimePct ?? -1) - (a.onTimePct ?? -1)` */
  function BestCompare(a: Aggregate, b: Aggregate): real
  {
    PctOr(b.onTimePct, -1.0) - PctOr(a.onTimePct, -1.0)
  }

  /** `(a.onTimePct ?? 101) - (b.onTimePct ?? 101)` */
  function WorstCompare(a: Aggregate, b: Aggregate): real
  {
    PctOr(a.onTimePct, 101.0) - PctOr(b.onTimePct, 101.0)
  }

  /** `b.canceledTrips - a.canceledTrips` */
  function CanceledCompare(a: Aggregate, b: Aggregate): int
  {
    b.counts.canceledTrips - a.counts.canceledTrips
  }

  /** JavaScript `x || y` on numbers. */
  function OrElse(x: int, y: int): int
  {
    if x != 0 then x else y
  }

  /**
    The route comparator of `sortRoutes`: by route number and then direction
    when both ids read as numbers, otherwise by `localeCompare` of the ids and
    then direction.
  */
  function RouteCompare(localeCompare: (string, string) -> int, a: RouteAggregate, b: RouteAggregate): int
  {
    match (ParseInt(a.routeId), ParseInt(b.routeId))
    case (Some(x), Some(y)) => OrElse(x - y, a.direction - b.direction)
    case _ => OrElse(localeCompare(a.routeId, b.routeId), a.direction - b.direction)
  }

  /** The route comparator of `sortCombinedRoutes`, which has no direction. */
  function CombinedRouteCompare(localeCompare: (string, string) -> int, a: CombinedRoute, b: CombinedRoute): int
  {
    match (ParseInt(a.routeId), ParseInt(b.routeId))
    case (Some(x), Some(y)) => x - y
    case _ => localeCompare(a.routeId, b.routeId)
  }

  function RouteLe(sort: SortOption, localeCompare: (string, string) -> int): (RouteAggregate, RouteAggregate) -> bool
  {
    match sort
    case Best => (a: RouteAggregate, b: RouteAggregate) => BestCompare(a.agg, b.agg) <= 0.0
    case Worst => (a: RouteAggregate, b: RouteAggregate) => WorstCompare(a.agg, b.agg) <= 0.0
    case Canceled => (a: RouteAggregate, b: RouteAggregate) => CanceledCompare(a.agg, b.agg) <= 0
    case Route => (a: RouteAggregate, b: RouteAggregate) => RouteCompare(localeCompare, a, b) <= 0
  }

  function CombinedLe(sort: SortOption, localeCompare: (string, string) -> int): (CombinedRoute, CombinedRoute) -> bool
  {
    match sort
    case Best => (a: CombinedRoute, b: CombinedRoute) => BestCompare(a.agg, b.agg) <= 0.0
    case Worst => (a: CombinedRoute, b: CombinedRoute) => WorstCompare(a.agg, b.agg) <= 0.0
    case Canceled => (a: CombinedRoute, b: CombinedRoute) => CanceledCompare(a.agg, b.agg) <= 0
    case Route => (a: CombinedRoute, b: CombinedRoute) => CombinedRouteCompare(localeCompare, a, b) <= 0
  }

  /** `sortRoutes`: sorts a copy; the input array is not changed. */
  method SortRoutes(data: array<RouteAggregate>, sort: SortOption, localeCompare: (string, string) -> int)
    returns (sorted: array<RouteAggregate>)
    ensures fresh(sorted)
    ensures data[..] == old(data[..])
    ensures sorted[..] == Sort(data[..], RouteLe(sort, localeCompare))
  {
    sorted := new RouteAggregate[data.Length](i reads data requires 0 <= i < data.Length => data[i]);
    assert sorted[..] == data[..];
    SortInPlace(sorted, RouteLe(sort, localeCompare));
  }

  /** `sortCombinedRoutes`: sorts a copy; the input array is not changed. */
  method SortCombinedRoutes(data: array<CombinedRoute>, sort: SortOption, localeCompare: (string, string) -> int)
    returns (sorted: array<CombinedRoute>)
    ensures fresh(sorted)
    ensures data[..] == old(data[..])
    ensures sorted[..] == Sort(data[..], CombinedLe(sort, localeCompare))
  {
    sorted := new CombinedRoute[data.Length](i reads data requires 0 <= i < data.Length => data[i]);
    assert sorted[..] == data[..];
    SortInPlace(sorted, CombinedLe(sort, localeCompare));
  }

  /** Every route sort returns a permutation of its input. */
  lemma RouteSortsPermute(routes: seq<RouteAggregate>, combined: seq<CombinedRoute>, sort: SortOption,
                          localeCompare: (string, string) -> int)
    ensures multiset(Sort(routes, RouteLe(sort, localeCompare))) == multiset(routes)
    ensures multiset(Sort(combined, CombinedLe(sort, localeCompare))) == multiset(combined)
  {
    SortPermutes(routes, RouteLe(sort, localeCompare));
    SortPermutes(combined, CombinedLe(sort, localeCompare));
  }

  /** The "Most canceled" order: canceled trips never increase down the table. */
  lemma CanceledOrder(routes: seq<RouteAggregate>, combined: seq<CombinedRoute>, localeCompare: (string, string) -> int)
    ensures var r := Sort(routes, RouteLe(Canceled, localeCompare));
      forall i, j :: 0 <= i < j < |r| ==> r[i].agg.counts.canceledTrips >= r[j].agg.counts.canceledTrips
    ensures var r := Sort(combined, CombinedLe(Canceled, localeCompare));
      forall i, j :: 0 <= i < j < |r| ==> r[i].agg.counts.canceledTrips >= r[j].agg.counts.canceledTrips
  {
    SortByKey(routes, RouteLe(Canceled, localeCompare), (r: RouteAggregate) => -r.agg.counts.canceledTrips as real);
    SortByKey(combined, CombinedLe(Canceled, localeCompare), (r: CombinedRoute) => -r.agg.counts.canceledTrips as real);
  }

  predicate IsPercentage(pct: Option<real>)
  {
    pct.Some? ==> 0.0 <= pct.value <= 100.0
  }

  /**
    The "Best on-time %" order: the percentage never increases down the
    table, and rows without a percentage come after every row with one.
  */
  lemma BestOrder(routes: seq<RouteAggregate>, combined: seq<CombinedRoute>, localeCompare: (string, string) -> int)
    requires forall r :: r in routes ==> IsPercentage(r.agg.onTimePct)
    requires forall r :: r in combined ==> IsPercentage(r.agg.onTimePct)
    ensures var r := Sort(routes, RouteLe(Best, localeCompare));
      forall i, j :: 0 <= i < j < |r| ==>
        PctOr(r[i].agg.onTimePct, -1.0) >= PctOr(r[j].agg.onTimePct, -1.0)
        && (r[i].agg.onTimePct.None? ==> r[j].agg.onTimePct.None?)
    ensures var r := Sort(combined, CombinedLe(Best, localeCompare));
      forall i, j :: 0 <= i < j < |r| ==>
        PctOr(r[i].agg.onTimePct, -1.0) >= PctOr(r[j].agg.onTimePct, -1.0)
        && (r[i].agg.onTimePct.None? ==> r[j].agg.onTimePct.None?)
  {
    var r := Sort(routes, RouteLe(Best, localeCompare));
    SortByKey(routes, RouteLe(Best, localeCompare), (x: RouteAggregate) => -PctOr(x.agg.onTimePct, -1.0));
    SortMembership(routes, RouteLe(Best, localeCompare));
    forall i, j | 0 <= i < j < |r| ensures r[i].agg.onTimePct.None? ==> r[j].agg.onTimePct.None? {
      assert r[j] in routes;
    }
    var c := Sort(combined, CombinedLe(Best, localeCompare));
    SortByKey(combined, CombinedLe(Best, localeCompare), (x: CombinedRoute) => -PctOr(x.agg.onTimePct, -1.0));
    SortMembership(combined, CombinedLe(Best, localeCompare));
    forall i, j | 0 <= i < j < |c| ensures c[i].agg.onTimePct.None? ==> c[j].agg.onTimePct.None? {
      assert c[j] in combined;
    }
  }

  /**
    The "Worst on-time %" order: the percentage never decreases down the
    table, and rows without a percentage come after every row with one.
  */
  lemma WorstOrder(routes: seq<RouteAggregate>, combined: seq<CombinedRoute>, localeCompare: (string, string) -> int)
    requires forall r :: r in routes ==> IsPercentage(r.agg.onTimePct)
    requires forall r :: r in combined ==> IsPercentage(r.agg.onTimePct)
    ensures var r := Sort(routes, RouteLe(Worst, localeCompare));
      forall i, j :: 0 <= i < j < |r| ==>
        PctOr(r[i].agg.onTimePct, 101.0) <= PctOr(r[j].agg.onTimePct, 101.0)
        && (r[i].agg.onTimePct.None? ==> r[j].agg.onTimePct.None?)
    ensures var r := Sort(combined, CombinedLe(Worst, localeCompare));
      forall i, j :: 0 <= i < j < |r| ==>
        PctOr(r[i].agg.onTimePct, 101.0) <= PctOr(r[j].agg.onTimePct, 101.0)
        && (r[i].agg.onTimePct.None? ==> r[j].agg.onTimePct.None?)
  {
    var r := Sort(routes, RouteLe(Worst, localeCompare));
    SortByKey(routes, RouteLe(Worst, localeCompare), (x: RouteAggregate) => PctOr(x.agg.onTimePct, 101.0));
    SortMembership(routes, RouteLe(Worst, localeCompare));
    forall i, j | 0 <= i < j < |r| ensures r[i].agg.onTimePct.None? ==> r[j].agg.onTimePct.None? {
      assert r[j] in routes;
    }
    var c := Sort(combined, CombinedLe(Worst, localeCompare));
    SortByKey(combined, CombinedLe(Worst, localeCompare), (x: CombinedRoute) => PctOr(x.agg.onTimePct, 101.0));
    SortMembership(combined, CombinedLe(Worst, localeCompare));
    forall i, j | 0 <= i < j < |c| ensures c[i].agg.onTimePct.None? ==> c[j].agg.onTimePct.None? {
      assert c[j] in combined;
    }
  }

  predicate NumberedRoute(r: RouteAggregate)
  {
    ParseInt(r.routeId).Some?
  }

  /** With numeric route ids, `sortRoutes` orders by route number and then by direction. */
  lemma RouteOrder(routes: seq<RouteAggregate>, localeCompare: (string, string) -> int)
    requires forall r :: r in routes ==> NumberedRoute(r)
    ensures var r := Sort(routes, RouteLe(Route, localeCompare));
      forall i, j :: 0 <= i < j < |r| ==>
        NumberedRoute(r[i]) && NumberedRoute(r[j]) &&
        var x := ParseInt(r[i].routeId).value;
        var y := ParseInt(r[j].routeId).value;
        x < y || (x == y && r[i].direction <= r[j].direction)
  {
    var le := RouteLe(Route, localeCompare);
    assert forall a, b :: NumberedRoute(a) && NumberedRoute(b) ==>
      (le(a, b) <==> (ParseInt(a.routeId).value < ParseInt(b.routeId).value
                      || (ParseInt(a.routeId).value == ParseInt(b.routeId).value && a.direction <= b.direction)));
    SortSorted(routes, le);
    SortMembership(routes, le);
  }

  predicate NumberedCombinedRoute(r: CombinedRoute)
  {
    ParseInt(r.routeId).Some?
  }

  /** With numeric route ids, `sortCombinedRoutes` orders by route number. */
  lemma CombinedRouteOrder(combined: seq<CombinedRoute>, localeCompare: (string, string) -> int)
    requires forall r :: r in combined ==> NumberedCombinedRoute(r)
    ensures var r := Sort(combined, CombinedLe(Route, localeCompare));
      forall i, j :: 0 <= i < j < |r| ==>
        NumberedCombinedRoute(r[i]) && NumberedCombinedRoute(r[j]) &&
        ParseInt(r[i].routeId).value <= ParseInt(r[j].routeId).value
  {
    var le := CombinedLe(Route, localeCompare);
    assert forall a, b :: NumberedCombinedRoute(a) && NumberedCombinedRoute(b) ==>
      (le(a, b) <==> ParseInt(a.routeId).value <= ParseInt(b.routeId).value);
    SortSorted(combined, le);
    SortMembership(combined, le);
  }
}
