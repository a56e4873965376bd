# Better Transit Ottawa tracker pages, modelled in Dafny

This project models the data handling behind the Better Transit Ottawa tracker
pages. The pages show the bus blocks of a day, the trips of a route, on-time
performance and cancelled trips. The model covers:

- the time-string helpers of `src/utils/busTracker.ts`: comparing
  `HH:MM:SS` strings, differences in seconds, `dateToTimeString` and
  `secondsToMinuteAndSeconds`. It also covers `getNextTrip`, which finds the
  next trip a bus runs after a given time;
- the block graph of the blocks page:
  - `generateEdges`: every bus is walked through its trips in start order,
    and each hand-off to a trip in another block becomes an edge;
  - `generateNodePositions`: the blocks are laid out on a grid;
  - `generateNodes`: the blocks are filtered and turned into nodes;
  - the ordering and labels of the block picker;
  - the per-trip "cancelled" / "untracked" classification, the delay-cell
    classes and the start- and end-cell texts;
- the route page: bus colours in first-seen order, and the split of trips by
  direction;
- the on-time page:
  - the query-parameter parsers;
  - `formatRatio` / `formatCount`;
  - `combineDirections`, which sums the two directions of a route. Its
    output follows JavaScript's own-property key order;
  - the sorts of route rows and combined rows;
- the cancelled page: the service gap, its colour class, the sort parameter
  and `sortData`;
- `getPageUrl` of `src/utils/pageNavigation.ts`, with the browser's
  `URLSearchParams` as a class that holds its list of name-value pairs.

JavaScript's `Array.prototype.sort` is modelled by a stable insertion sort (`StableSort`).
`le(a, b)` means "`compare(a, b)` is not positive". For a comparator that is a
total preorder, every stable sort gives this result. A comparison that yields
`NaN` counts as 0 in the language, but it can make the comparator
inconsistent, and then the order is implementation-defined (see "Left out").
A JavaScript record that is enumerated with `for...in` is a sequence of
entries in enumeration order. `Object.keys` of the blocks record lists the
block ids in the order of the block list (`BlockLayout.Keys`).

Things the model takes as parameters:
- the wall clock: whether the table is for today, and the current-time text (`now`, which the pages take from `toLocaleTimeString()` and read at fixed offsets);
- `String.prototype.localeCompare`;
- `Number()` on a query parameter.

Where the code and its description differ, the model follows the code:
- the cancelled page reads its sort with `searchParams.get("sort") || "route"`.
  An unknown value therefore reaches `sortData` and leaves the order unchanged;
- the start-cell text prints the delay only when it is positive.

## Model

| member | source | states |
|---|---|---|
| TimeCodec.FieldIsParseInt | src/utils/busTracker.ts:71-73 | a two-digit field read at offset 0, 3 or 6 is what `parseInt` returns for that substring |
| TimeCodec.IsOlderIsRankLess | src/utils/busTracker.ts:70-82 | `isTimeStringOlder` holds exactly when the (hour, minute, second) rank of the first time is smaller |
| TimeCodec.IsOlderStrictOrder | src/utils/busTracker.ts:70-82 | "older" is irreflexive and transitive, and "not older" is transitive. Two times are mutually not older exactly when all three fields agree |
| TimeCodec.DiffIsSecondsDifference | src/utils/busTracker.ts:84-102 | `timeStringDiff` is the difference of the two `timeStringToSeconds` values. So it is 0 for equal times and antisymmetric |
| TimeCodec.IsOlderIffDiffNegative | src/utils/busTracker.ts:70-94 | for times whose minutes and seconds are below 60, "older" is the same as a negative difference |
| TimeCodec.DateToTimeString | src/utils/busTracker.ts:104-114 | the text is 8 characters with colons at offsets 2 and 5, and reads back as the clock's fields. Before 3 a.m. with the long-day flag, the hours have 24 added |
| TimeCodec.TruncRem | src/utils/busTracker.ts:117 | JavaScript's `seconds % 60`: the remainder is below 60 in magnitude, differs from the dividend by a multiple of 60, and takes the dividend's sign |
| TimeCodec.MinuteAndSecondsRoundTrip | src/utils/busTracker.ts:116-118 | for a non-negative number of seconds, the `M:SS` text reads back as that number |
| TimeCodec.MinuteAndSecondsNegative | src/utils/busTracker.ts:116-118 | for a negative number of seconds that is not a whole number of minutes, the text reads back one minute too negative |
| TimeCodec.MinuteAndSecondsExample | src/utils/busTracker.ts:116-118 | -65 seconds is written "-2:05", which reads back as -125 |
| TimeCodec.SignedMinuteAndSecondsRoundTrip | src/utils/busTracker.ts:116-118 | with the sign written in front of whole minutes and seconds, every number of seconds reads back as itself |
| NumberText.ParseIntOfIntToString | src/app/tracker/on-time/page.client.tsx:156 | `parseInt` of an integer's decimal text, followed by a non-digit, is that integer |
| NumberText.TwoDigits | src/utils/busTracker.ts:113 | `padStart(2, '0')` of a number below 100 gives two digits with that value |
| BusTracker.ColorFor | src/utils/busTracker.ts:38-46 | the colour handed to a bus is always one of the seven palette entries |
| BusTracker.ConsiderTrip | src/utils/busTracker.ts:54-61 | one trip replaces the best option exactly as one step of the reference fold does |
| BusTracker.ScanBlock | src/utils/busTracker.ts:52-64 | the inner loop continues the fold over the block's trips. Each trip carries the id of the trip before it |
| BusTracker.GetNextTrip | src/utils/busTracker.ts:48-68 | the loop over all blocks returns the reference `NextTrip` |
| BusTracker.BestNone | src/utils/busTracker.ts:49-67 | the fold finds nothing exactly when no trip qualifies |
| BusTracker.BestIsFirstEarliest | src/utils/busTracker.ts:55 | a found trip is the first, in visiting order, of the earliest qualifying trips |
| BusTracker.NextTripSpec | src/utils/busTracker.ts:48-68 | null exactly when no trip of the bus starts after `lastTripTime`. Otherwise the result qualifies, no qualifying trip starts before it, and it is a listed trip with its block id and its predecessor's id |
| BusTracker.NextTripIsStrictlyLater | src/utils/busTracker.ts:54 | the next trip after time t starts strictly after t |
| BusTracker.NextTripKeepsFirstOfTies | src/utils/busTracker.ts:55 | among trips with the same start, the one visited first wins |
| BusPalette.FirstSeen | src/app/tracker/blocks/page.client.tsx:353-360 | the `Set` of bus ids: no duplicates, the same members as the input, and no longer than it |
| BusPalette.FirstSeenOrder | src/app/tracker/blocks/page.client.tsx:353-360 | the set keeps first-insertion order |
| BusPalette.ColoursOf | src/app/tracker/blocks/page.client.tsx:362-368 | the colour map has exactly the buses as keys |
| BusPalette.ColoursOfAt | src/app/tracker/blocks/page.client.tsx:362-368 | the k-th bus gets `busColors[k % 7]` |
| BlockEdges.TripBusIds | src/app/tracker/blocks/page.client.tsx:355-359 | the collected ids are exactly the non-empty bus ids of the trips |
| BlockEdges.AddBlockBuses | src/app/tracker/blocks/page.client.tsx:355-359 | the inner loop adds the block's truthy bus ids to the set, in order |
| BlockEdges.CollectBuses | src/app/tracker/blocks/page.client.tsx:353-360 | the loops build the set of all truthy bus ids, blocks in enumeration order |
| BlockEdges.WalkBus | src/app/tracker/blocks/page.client.tsx:370-398 | the `while` loop appends the reference walk of the bus to the edges |
| BlockEdges.GenerateEdges | src/app/tracker/blocks/page.client.tsx:349-407 | the edges are every bus's walk, in bus order, and the colours are the palette assignment of the buses |
| BlockEdges.WalkEdges | src/app/tracker/blocks/page.client.tsx:370-398 | every edge of a walk is the hand-off of two consecutive visits whose later trip does not directly follow the earlier one in its block. Every such hand-off gives an edge |
| BlockEdges.VisitsIncreasing | src/app/tracker/blocks/page.client.tsx:364-397 | the trips a walk visits start at strictly increasing times |
| BlockEdges.VisitsBound | src/app/tracker/blocks/page.client.tsx:364-397 | a walk visits no more trips than the bus has |
| BlockEdges.OmittedMeansFollows | src/app/tracker/blocks/page.client.tsx:371 | a hand-off is left out exactly when the next trip is listed right after the current trip in the next trip's own block |
| BlockEdges.BusEdgeShape | src/app/tracker/blocks/page.client.tsx:372-393 | each edge is built from a hand-off pair: id `a->b`, handle `R` to `L` across blocks or `R` to `R` within one, the label only across blocks, and smoothstep only within one |
| BlockEdges.BusEdgesBound | src/app/tracker/blocks/page.client.tsx:364-398 | a bus with no trip has no edges. Otherwise it has at most one edge fewer than its trips |
| BlockEdges.AllEdgesOrigin | src/app/tracker/blocks/page.client.tsx:363-401 | every edge comes from the walk of one bus, with that bus's colour |
| BlockEdges.BusHasTrip | src/app/tracker/blocks/page.client.tsx:364-365 | a collected bus always has a first trip, so the `continue` never fires |
| BlockEdges.ColourKeys | src/app/tracker/blocks/page.client.tsx:363-368 | the colour keys are exactly the non-empty bus ids that some trip carries |
| BlockEdges.ColourOrder | src/app/tracker/blocks/page.client.tsx:362-400 | the k-th collected bus gets `busColors[k % 7]` |
| BlockEdges.EdgeColours | src/app/tracker/blocks/page.client.tsx:367-388 | every edge is drawn in the colour the map gives one of the buses |
| TripStatus.CanceledAndUntrackedExclusive | src/app/tracker/blocks/page.client.tsx:86-91 | a row is never both cancelled and untracked. An untracked row has no cancel flag and no actual start |
| TripStatus.StartedRow | src/app/tracker/blocks/page.client.tsx:84-91 | a started row is neither cancelled nor untracked, and its start delay is actual minus scheduled seconds |
| TripStatus.DelayDefaults | src/app/tracker/blocks/page.client.tsx:84-85 | without an actual start the start delay is 0. Without an actual end the end delay is the feed's minutes times 60, and with one it is the measured difference |
| TripStatus.LastRowUntracked | src/app/tracker/blocks/page.client.tsx:87-91 | the last row is untracked exactly when it is unflagged, has not started, and either the table is not for today or the current-time text minus the scheduled end exceeds 3600 seconds |
| TripStatus.EarlierThanStartedRow | src/app/tracker/blocks/page.client.tsx:87-91 | a row before a started row is untracked exactly when it is neither flagged nor started |
| TripStatus.DelayClass | src/app/tracker/blocks/page.client.tsx:129 | the class of a delay cell is "red-text yellow-text" above 900 seconds, "yellow-text" above 300 and up to 900, and empty otherwise |
| TripStatus.DelayClassThresholds | src/app/tracker/blocks/page.client.tsx:139 | a delay cell has a class exactly above 300 seconds and the red one exactly above 900, and a marked cell always ends with the yellow class |
| TripStatus.StartCellKeywords | src/app/tracker/blocks/page.client.tsx:130-134 | the start cell reads "UNTRACKED" exactly for untracked rows, and otherwise "CANCELLED" exactly for cancelled ones. A readable start time begins with a digit, so it is never mistaken for either word |
| TripStatus.StartCellTime | src/app/tracker/route/page.client.tsx:89-93 | on a row that is neither untracked nor cancelled, the cell starts with the actual start (empty without one). A bracket follows exactly when the trip started late, and its text reads back as the start delay |
| TripStatus.StartTextParts | src/app/tracker/blocks/page.client.tsx:134 | the start text is the actual start, followed by the bracket of the start delay exactly when the trip started late |
| TripStatus.EndCellOpening | src/app/tracker/blocks/page.client.tsx:140 | the end cell starts with "Active" exactly when there is no actual end and the delay flag is set, and starts with the actual end when there is one |
| TripStatus.EndCellBracket | src/app/tracker/blocks/page.client.tsx:140 | the bracket is there exactly when the end delay is not 0. It is " (" + text + ")", and the text reads back as the delay when positive, one minute too negative for an early arrival that is not a whole number of minutes |
| TripStatus.DelayBracketText | src/app/tracker/route/page.client.tsx:99 | the bracket of a delay is empty exactly for 0, and otherwise holds the delay text between " (" and ")" |
| RouteView.BusIds | src/app/tracker/route/page.client.tsx:132-133 | the ids considered are exactly the truthy bus ids of the rows |
| RouteView.AssignColours | src/app/tracker/route/page.client.tsx:130-137 | the colour loop gives the palette assignment of the buses in first-seen order |
| RouteView.RouteColours | src/app/tracker/route/page.client.tsx:130-137 | every truthy bus id, and nothing else, gets a colour. The k-th bus to appear gets `busColors[k % 7]` |
| RouteView.DirectionSplit | src/app/tracker/route/page.client.tsx:140-141 | `trip1` holds the direction-0 trips and `trip2` the others. Together they are the input as a multiset |
| RouteView.DirectionSplitKeepsOrder | src/app/tracker/route/page.client.tsx:140-141 | both filters commute with concatenation, so input order is kept |
| RouteView.RouteRowFlags | src/app/tracker/route/page.client.tsx:60-67 | the route table flags a row cancelled exactly when the feed flags it and it has not started. An untracked row is unflagged and unstarted |
| BlockLayout.ComputeStartTimes | src/app/tracker/blocks/page.client.tsx:203-208 | the loops build the reference start-time map |
| BlockLayout.StartTimesEntries | src/app/tracker/blocks/page.client.tsx:203-208 | the map has exactly the listed trip ids. Each maps to the seconds of a start listed for that trip |
| BlockLayout.StartKeyIsMinimum | src/app/tracker/blocks/page.client.tsx:262-267 | a block's sort key is 0 when it hands off to no other block. Otherwise it is the smallest start among the trips it hands off to |
| BlockLayout.FirstBlocksFacts | src/app/tracker/blocks/page.client.tsx:211-219 | the first tier has no repeats and is either the default block alone or exactly the blocks no other block hands off to |
| BlockLayout.RootsSortedByKey | src/app/tracker/blocks/page.client.tsx:211-213 | the roots come in non-decreasing key order |
| BlockLayout.NextNodesFacts | src/app/tracker/blocks/page.client.tsx:270-272 | the successors of a block are blocks it hands off to |
| BlockLayout.SweepOrderFacts | src/app/tracker/blocks/page.client.tsx:239-241 | the sweep visits exactly the unplaced blocks |
| BlockLayout.NextRow | src/app/tracker/blocks/page.client.tsx:229-230 | the next free row of a column is one below its lowest node, or 0 when the column is empty |
| BlockLayout.PlaceOne | src/app/tracker/blocks/page.client.tsx:276-285 | placing a node and its subtree only adds positions, and the node is the only new one in its own column, at the row given. Every new node has a parent one column left, and positions stay distinct and on the grid |
| BlockLayout.PlaceSuccessors | src/app/tracker/blocks/page.client.tsx:269-288 | the recursion only adds blocks, places them from column x on, puts the new ones of column x at or below the starting row, gives each a parent, and keeps positions distinct |
| BlockLayout.PlaceRoot | src/app/tracker/blocks/page.client.tsx:223-234 | an unplaced root goes to column 0 at the cursor and the cursor advances. A placed root changes nothing |
| BlockLayout.PlaceFirstBlocks | src/app/tracker/blocks/page.client.tsx:221-235 | the first tier is placed in order at rows 0, 1, … of column 0, and the layout invariant holds |
| BlockLayout.SweepPass | src/app/tracker/blocks/page.client.tsx:243-256 | one pass places at least the first unplaced block and keeps the invariant |
| BlockLayout.Sweep | src/app/tracker/blocks/page.client.tsx:238-257 | the loop ends with every block placed and the invariant kept |
| BlockLayout.GenerateNodePositions | src/app/tracker/blocks/page.client.tsx:198-260 | every block gets a position, and no other key but the default. Positions are distinct and on the grid, every node off column 0 has a parent, and the k-th first block sits at (0, k) |
| BlockNodes.FindBlock | src/app/tracker/blocks/page.client.tsx:297 | `blocks[id]` is found exactly when some entry has that id, and it gives that entry's trips |
| BlockNodes.CollectInitialBuses | src/app/tracker/blocks/page.client.tsx:296-301 | the loop collects the reference set of the default block's buses |
| BlockNodes.InitialBusesOfDefault | src/app/tracker/blocks/page.client.tsx:296-301 | a bus is in the set exactly when a trip of the default block carries it as a truthy id |
| BlockNodes.KeepRelevant | src/app/tracker/blocks/page.client.tsx:302-314 | the loop keeps exactly the blocks the filter keeps, in order |
| BlockNodes.FilterKeepsBlocks | src/app/tracker/blocks/page.client.tsx:302-314 | filtering keeps block ids unique and start times readable |
| BlockNodes.RelevantBlocks | src/app/tracker/blocks/page.client.tsx:306-312 | a block is shown exactly when the filter is off, it is the default block, or it shares a bus with the default block |
| BlockNodes.EmitNodes | src/app/tracker/blocks/page.client.tsx:318-339 | one node per kept block, with its id, its position scaled by 1100 × 900, and its border |
| BlockNodes.NodesApart | src/app/tracker/blocks/page.client.tsx:318-339 | no two nodes share an id or a position |
| BlockNodes.GenerateNodes | src/app/tracker/blocks/page.client.tsx:290-342 | the nodes are the relevant blocks, in order, at distinct grid positions. Only the default block has a border: the searched bus's colour or the first palette entry |
| BlockNodes.BlockOptions | src/app/tracker/blocks/page.client.tsx:420-423 | one picker option per ordered block, in that order, with the block id as its value and the block's label |
| BlockNodes.BlockOptionsOffered | src/app/tracker/blocks/page.client.tsx:417-423 | an option is offered exactly when some block of the response has an id and the option carries that id and its label |
| BlockNodes.BlockOptionsPermute | src/app/tracker/blocks/page.client.tsx:417-419 | the picker offers every block with an id, as often as it is listed, and nothing else |
| BlockNodes.BlockOrderIsByFirstNumber | src/app/tracker/blocks/page.client.tsx:417-419 | when every id starts with a number, the picker is in non-decreasing order of that number |
| BlockNodes.BlockOrderTiesBySecondNumber | src/app/tracker/blocks/page.client.tsx:418-419 | blocks with the same first number keep the order of the sort by the second number |
| BlockNodes.BlockLabelText | src/app/tracker/blocks/page.client.tsx:422 | the label says "train" exactly for ids that parse above 10000000. Otherwise it gives the bus count as "1 bus" or "n buses" |
| StableSort.SortPermutes | src/app/tracker/on-time/page.client.tsx:142-145 | sorting rearranges the elements without adding or dropping any |
| StableSort.SortSorted | src/app/tracker/on-time/page.client.tsx:145 | with a total-preorder comparator the result is sorted |
| StableSort.SortStable | src/app/tracker/blocks/page.client.tsx:417-419 | elements that compare equal keep their relative order |
| StableSort.SortInPlace | src/app/tracker/cancelled/page.client.tsx:236 | the in-place array sort leaves the array equal to the sorted sequence |
| OnTime.ParseMetric | src/app/tracker/on-time/page.client.tsx:79-81 | the metric is "start" exactly for the parameter "start", and the average otherwise |
| OnTime.MetricUrlRoundTrip | src/app/tracker/on-time/page.client.tsx:342 | the value the metric picker writes to the URL parses back to the chosen metric |
| OnTime.ParseSort | src/app/tracker/on-time/page.client.tsx:83-92 | "best", "worst" and "canceled" select that sort. Anything else, missing included, gives the route order |
| OnTime.SortUrlRoundTrip | src/app/tracker/on-time/page.client.tsx:352 | the value the sort picker writes parses back to the chosen sort |
| OnTime.Round | src/app/tracker/on-time/page.client.tsx:98 | `Math.round` gives the integer within half a unit, halves rounding up |
| OnTime.ParseThreshold | src/app/tracker/on-time/page.client.tsx:94-99 | the threshold is always between 1 and 30. It is 5 when the parameter is missing, empty or not a finite number, and otherwise the parsed number rounded and clamped |
| OnTime.ThresholdUrlRoundTrip | src/app/tracker/on-time/page.client.tsx:413-415 | the value the slider writes parses back to the chosen threshold |
| OnTime.ParseIncludeCanceled | src/app/tracker/on-time/page.client.tsx:101-103 | on exactly for "1" or "true" |
| OnTime.IncludeCanceledUrlRoundTrip | src/app/tracker/on-time/page.client.tsx:375 | the value the checkbox writes parses back to its state |
| OnTime.FormatRatio | src/app/tracker/on-time/page.client.tsx:109-112 | "n/a" exactly for a zero denominator. Otherwise the percentage times the denominator is the numerator times 100 |
| OnTime.FormatCountReadsBack | src/app/tracker/on-time/page.client.tsx:129-131 | the text splits at its first `/` into the two counts, each reading back with `parseInt` |
| OnTime.FirstSeenFacts | src/app/tracker/on-time/page.client.tsx:173-174 | the record gets one key per route id that occurs, each once |
| OnTime.TotalAppend | src/app/tracker/on-time/page.client.tsx:175-178 | the sums over two runs of rows add up |
| OnTime.TotalUnmentioned | src/app/tracker/on-time/page.client.tsx:174 | a route that does not occur sums to zero |
| OnTime.EntryOrderFacts | src/app/tracker/on-time/page.client.tsx:181 | `Object.entries` lists every key once: array-index keys first in ascending order, then the rest in insertion order |
| OnTime.Combine | src/app/tracker/on-time/page.client.tsx:181-185 | a combined row carries the summed counts. Its on-time percentage is null exactly when nothing was evaluated, and otherwise on-time × 100 / evaluated |
| OnTime.Accumulate | src/app/tracker/on-time/page.client.tsx:172-179 | the loop's record maps each route id that occurs to its summed counts, with keys in first-seen order |
| OnTime.Emit | src/app/tracker/on-time/page.client.tsx:181-185 | the mapped entries follow the record's key order and each is built from its route's totals |
| OnTime.OnePerRoute | src/app/tracker/on-time/page.client.tsx:181-185 | every route that occurs gets exactly one combined row |
| OnTime.CombineDirections | src/app/tracker/on-time/page.client.tsx:171-186 | one row per route id, in property-key order, with the counts summed over both directions and the percentage as above |
| OnTime.SortRoutes | src/app/tracker/on-time/page.client.tsx:141-167 | the copy is sorted with the chosen comparator and the input is unchanged |
| OnTime.SortCombinedRoutes | src/app/tracker/on-time/page.client.tsx:188-214 | the copy is sorted with the chosen comparator and the input is unchanged |
| OnTime.RouteSortsPermute | src/app/tracker/on-time/page.client.tsx:142 | every sort rearranges the rows without adding or dropping any |
| OnTime.CanceledOrder | src/app/tracker/on-time/page.client.tsx:150-152 | "canceled" puts rows in non-increasing order of canceled trips |
| OnTime.BestOrder | src/app/tracker/on-time/page.client.tsx:144-146 | "best" puts rows in non-increasing on-time percentage, rows without one last |
| OnTime.WorstOrder | src/app/tracker/on-time/page.client.tsx:147-149 | "worst" puts rows in non-decreasing on-time percentage, rows without one last |
| OnTime.RouteOrder | src/app/tracker/on-time/page.client.tsx:155-162 | with numeric route ids, rows are ordered by route number and then by direction |
| OnTime.CombinedRouteOrder | src/app/tracker/on-time/page.client.tsx:202-209 | with numeric route ids, combined rows are in non-decreasing route number |
| Cancelled.ServiceGap | src/app/tracker/cancelled/page.client.tsx:95 | 0 when either neighbouring start is missing. Otherwise it is the absolute value of the floored minutes between them, bounded from both sides by the seconds difference |
| Cancelled.ServiceGapOfOrderedTimes | src/app/tracker/cancelled/page.client.tsx:95 | when the next start is not older than the last one, the gap is the whole minutes between them |
| Cancelled.GapClass | src/app/tracker/cancelled/page.client.tsx:115 | red and yellow above 45 minutes, yellow alone above 30, nothing otherwise |
| Cancelled.GapClassThresholds | src/app/tracker/cancelled/page.client.tsx:115 | the class is non-empty exactly above 30 and starts with red exactly above 45 |
| Cancelled.SortParam | src/app/tracker/cancelled/page.client.tsx:159 | the sort is the parameter when it is truthy, and "route" when it is missing or empty |
| Cancelled.SortPickerRoundTrip | src/app/tracker/cancelled/page.client.tsx:173-175 | after the picker writes a sort, reading the sort parameter back gives that sort. The route order is written as no parameter at all |
| Cancelled.SortData | src/app/tracker/cancelled/page.client.tsx:233-247 | the array is sorted in place by the chosen comparator and returned |
| Cancelled.ShowCancellations | src/app/tracker/cancelled/page.client.tsx:259-265 | a fresh copy is sorted and the fetched array is unchanged |
| Cancelled.SortedViewPermutes | src/app/tracker/cancelled/page.client.tsx:233-247 | sorting rearranges the routes. An unknown sort leaves the order as it was |
| Cancelled.RouteSortAscends | src/app/tracker/cancelled/page.client.tsx:236 | with numeric route ids, routes are in non-decreasing number |
| Cancelled.CancelNumDescends | src/app/tracker/cancelled/page.client.tsx:239 | routes are in non-increasing number of cancellations |
| Cancelled.CancelPercentageDescends | src/app/tracker/cancelled/page.client.tsx:242 | with positive totals, routes are in non-increasing cancelled share |
| PageNavigation.Lookup | src/app/tracker/on-time/page.client.tsx:248 | `get` gives null exactly when no pair has the name, and otherwise the first such pair's value |
| PageNavigation.RemoveOnly | src/utils/pageNavigation.ts:8 | `delete` leaves no pair with the name and keeps every other name's pairs |
| PageNavigation.SetEntryOnly | src/utils/pageNavigation.ts:6 | `set` leaves exactly one pair with the name, holding the value, and keeps every other name's pairs |
| PageNavigation.SearchParams.constructor | src/utils/pageNavigation.ts:2 | the copy has the same pairs as the current parameters |
| PageNavigation.SearchParams.Set | src/utils/pageNavigation.ts:6 | the object's pairs become the `set` of the old ones |
| PageNavigation.SearchParams.Delete | src/utils/pageNavigation.ts:8 | the object's pairs become the `delete` of the old ones |
| PageNavigation.StepOnly | src/utils/pageNavigation.ts:4-9 | one pass leaves the key with its value when truthy and with no pair otherwise. Other keys keep their pairs |
| PageNavigation.ApplySettles | src/utils/pageNavigation.ts:3-10 | after the loop every key of `newValues` has just its value, or no pair, and pairs of other keys are untouched |
| PageNavigation.SettledFixed | src/utils/pageNavigation.ts:3-10 | parameters that already hold the new values are left exactly as they were |
| PageNavigation.ApplyByKey | src/utils/pageNavigation.ts:3-10 | after the loop, `get` of a key gives its new truthy value, null when the new value is falsy, and the old value for a key not in `newValues` |
| PageNavigation.ApplyIdempotent | src/utils/pageNavigation.ts:3-10 | applying the same new values twice gives the same parameters as once |
| PageNavigation.GetPageUrl | src/utils/pageNavigation.ts:1-13 | the URL is the path, `?`, and the text of the current parameters with the new values applied in order |

## Left out

- Network I/O (`fetch` of block, route, on-time and cancellation data), React state, effects and rendering. The operations start from the decoded JSON.
- The wall clock and the locale-dependent date comparison of the untracked test. They are the parameters `isToday` and `now`. The pages compare `toLocaleTimeString()` text with the scheduled end through `timeStringDiff`, which reads fixed offsets 0-1, 3-4 and 6-7 (src/utils/busTracker.ts:85-91; called at src/app/tracker/blocks/page.client.tsx:91, src/app/tracker/route/page.client.tsx:67). `Untracked` requires `now` to be `HH:MM:SS` text, so only locales that write the time that way are modelled. Not modelled: 12-hour text such as "3:45:12 p.m.", which would read as 03:05:02, and that this text never has the hour 24 or more, so a trip scheduled to end after midnight (say "25:10:00") is never found untracked by the one-hour test.
- `String.prototype.localeCompare` and `Number()`. They are parameters, so the sorts and the threshold parser hold for any such function.
- Floating point: `toFixed(1)` formatting of percentages and minutes, and the binary rounding of `onTimePct`. Percentages are exact rationals.
- `parseInt` skipping leading white space.
- `parseInt` without a radix (the cancelled page's route sort at src/app/tracker/cancelled/page.client.tsx:236, and the block picker at src/app/tracker/blocks/page.client.tsx:417-419 and 422) also reads a "0x" or "0X" prefix as hexadecimal. The model reads every id in decimal, so such an id parses as 0. The on-time page passes radix 10 and is not affected.
- The fixed `actual-time` class that the route page puts before the start cell's markers (src/app/tracker/route/page.client.tsx:88). `DelayClass` gives the markers that follow it.
- The feed's `delay` is an integer number of minutes (`Observed.delay`). A fractional delay, and the `Math.floor(delayEnd)` that the end cells apply for it (src/app/tracker/blocks/page.client.tsx:140, src/app/tracker/route/page.client.tsx:99), are not modelled. On integer delays that floor changes nothing.
- The `Date` methods behind `dateToTimeString`. The model starts from hours, minutes and seconds.
- `dateStringToServiceDay`, `dateToDateString`, `isBadDataDate` and the other date helpers. They touch only dates and time zones.
- `URLSearchParams` text: percent-encoding when serialising and the parse in `new URLSearchParams(searchParams.toString())`. The copy is modelled as copying the pairs, which is what that round trip gives for pairs that survive encoding.
- The `for...in` order of `newValues` when its keys look like array indices. The model takes the keys in the order given.
- Edge fields that only style the graph (`markerEnd` size, `labelStyle`) and node payload other than id, position and border (date, trips, options, colour map).
- JavaScript records with repeated keys cannot occur. The model takes block lists with unique ids (`UniqueBlockIds`), and the shared `blockOrder` dictionary is threaded through the layout methods as a value.
- Time strings that are not `HH:MM:SS` at the leading positions. The comparison helpers require readable fields. A missing start time in the layout's key lookup is `None`.
- The headsign, start and end text of the cancelled table, and the cancelled percentage on its line 70 (display only).
- Keys such as `__proto__`, which behave specially in JavaScript records, and names that every object inherits, such as "constructor" or "toString". The route page's `!colorPerBus[trip.busId]` (src/app/tracker/route/page.client.tsx:133) treats a bus with such an id as already coloured. The on-time page's `combined[...] ??=` (src/app/tracker/on-time/page.client.tsx:174) treats such a route as already present. The model treats every key as absent until it is added.
- The order `Array.prototype.sort` gives when a comparison yields `NaN` (a missing or unparseable key) and the comparator is therefore not consistent. The language then leaves the order implementation-defined, and the runtime's own algorithm may place such elements differently from `StableSort.Sort`. Example: keys 5, 4, missing, 3 give 4, 5, missing, 3 in the model. The invariants (permutation, and order among defined keys) are stated only where every key is defined. The exact positions are the model's choice for these sorts:
  - `BlockLayout.FirstBlocks`, `BlockLayout.NextNodes` and `BlockLayout.SweepOrder` (a missing start key);
  - `BlockNodes.BlockOrder` (an id without a second number, such as a train block);
  - the route sort of `Cancelled.SortedView` (non-numeric route ids).
- The first render of the cancelled page, where `searchParams.get("sort") ?? "route"` keeps an empty parameter. The model uses the value the effect settles on.
- The bus-count page and the other context files.
- TripStatus.EndCell prints the end delay with `secondsToMinuteAndSeconds` as written, as the pages do. An early arrival therefore shows the negative-duration quirk below (`EndCellBracket` states it). The start cell prints only positive delays, so the quirk does not reach it.

## Findings

| source | as written | input that shows it | evidently intended | confidence | as-written member | corrected member |
|---|---|---|---|---|---|---|
| src/utils/busTracker.ts:116-118 | `Math.floor(seconds / 60)` paired with `Math.abs(seconds % 60)`: for a negative duration the minutes are floored while the seconds are the truncated remainder | -65 seconds (a trip 1:05 early) is written "-2:05", which reads as -125 seconds | the sign followed by whole minutes and seconds, "-1:05" | not executed | TimeCodec.MinuteAndSecondsNegative | TimeCodec.SignedMinuteAndSecondsRoundTrip |
