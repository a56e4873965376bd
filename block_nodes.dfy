/**
  The graph nodes of the blocks page (`generateNodes` in
  src/app/tracker/blocks/page.client.tsx) and the ordering and labels of the
  block picker (`getBlockOptions`, after its fetch).
*/
module BlockNodes {
  import opened Wrappers
  import opened NumberText
  import opened TimeCodec
  import opened StableSort
  import opened Sequences
  import opened BusTracker
  import opened BusPalette
  import opened BlockEdges
  import opened BlockLayout

  /** The node fields the layout decides: id, scaled position and border colour (`None` for no border). */
  datatype Node = Node(id: string, x: int, y: int, border: Option<string>)

  /** A record lookup of a string value; `None` stands for `undefined`. */
  function LookupColour(colors: map<string, string>, k: string): Option<string>
  {
    if k in colors then Some(colors[k]) else None
  }

  /** `blocks[id]`: the trips of the block with that id, if any. */
  function FindBlock(blocks: AllBlocks, id: string): (r: Option<seq<Trip>>)
    ensures r.Some? <==> exists i :: 0 <= i < |blocks| && blocks[i].blockId == id
    ensures r.Some? ==> exists i :: 0 <= i < |blocks| && blocks[i].blockId == id && blocks[i].trips == r.value
  {
    if blocks == [] then None
    else if blocks[0].blockId == id then Some(blocks[0].trips)
    else
      var r := FindBlock(blocks[1..], id);
      assert forall i :: 0 <= i < |blocks| - 1 ==> blocks[1..][i] == blocks[i + 1];
      r
  }

  /** The truthy bus ids among `trips`. */
  function BusSet(trips: seq<Trip>): set<string>
  {
    set j | 0 <= j < |trips| && Truthy(trips[j].busId) :: trips[j].busId.value
  }

  /** `initialBlockBuses`: the buses that run the default block. */
  function InitialBuses(blocks: AllBlocks, defaultBlockId: string): set<string>
  {
    match FindBlock(blocks, defaultBlockId)
    case Some(trips) => BusSet(trips)
    case None => {}
  }

  /** Some trip of the block is run by one of `buses`. */
  predicate SharesBus(block: BlockEntry, buses: set<string>)
  {
    exists j :: 0 <= j < |block.trips| && block.trips[j].busId.Some? && block.trips[j].busId.value in buses
  }

  /** The filter of the `for...in` loop: with the option on, only the default block and blocks sharing one of its buses stay. */
  predicate Keep(block: BlockEntry, onlyRelevant: bool, defaultBlockId: string, buses: set<string>)
  {
    !onlyRelevant || block.blockId == defaultBlockId || SharesBus(block, buses)
  }

  function Relevant(blocks: AllBlocks, onlyRelevant: bool, defaultBlockId: string): seq<BlockEntry>
  {
    var buses := InitialBuses(blocks, defaultBlockId);
    Filter(blocks, (b: BlockEntry) => Keep(b, onlyRelevant, defaultBlockId, buses))
  }

  /** The border of a node: the searched bus's colour (or the first palette colour) on the default block, none elsewhere. */
  function Border(blockId: string, defaultBlockId: string, busIdSearched: Option<string>, colors: map<string, string>): Option<string>
  {
    if blockId != defaultBlockId then None
    else if Truthy(busIdSearched) then LookupColour(colors, busIdSearched.value)
    else Some(BusColors[0])
  }

  /** `initialBlockBuses` is filled by a loop over the default block's trips. */
  method CollectInitialBuses(blocks: AllBlocks, defaultBlockId: string) returns (buses: set<string>)
    ensures buses == InitialBuses(blocks, defaultBlockId)
  {
    buses := {};
    var found := FindBlock(blocks, defaultBlockId);
    if found.Some? {
      var trips := found.value;
      for j := 0 to |trips|
        invariant buses == BusSet(trips[..j])
      {
        assert forall a :: 0 <= a < j ==> trips[..j + 1][a] == trips[..j][a];
        if Truthy(trips[j].busId) {
          buses := buses + {trips[j].busId.value};
        }
        assert BusSet(trips[..j + 1]) == buses by {
          forall b | b in BusSet(trips[..j + 1]) ensures b in buses {
            var a :| 0 <= a < j + 1 && Truthy(trips[..j + 1][a].busId) && trips[..j + 1][a].busId.value == b;
            if a < j {
              assert trips[..j][a] == trips[..j + 1][a];
            }
          }
          forall b | b in buses ensures b in BusSet(trips[..j + 1]) {
            if b in BusSet(trips[..j]) {
              var a :| 0 <= a < j && Truthy(trips[..j][a].busId) && trips[..j][a].busId.value == b;
              assert trips[..j + 1][a] == trips[..j][a];
            } else {
              assert trips[..j + 1][j] == trips[j];
            }
          }
        }
      }
      assert trips[..|trips|] == trips;
    }
  }

  lemma FilterStep<T(!new)>(s: seq<T>, i: nat, p: T -> bool)
    requires i < |s|
    ensures Filter(s[..i + 1], p) == Filter(s[..i], p) + (if p(s[i]) then [s[i]] else [])
  {
    assert s[..i + 1][..i] == s[..i];
  }

  /** A sub-list keeps well-formed start times and distinct block ids. */
  lemma {:induction false} FilterKeepsBlocks(blocks: AllBlocks, p: BlockEntry -> bool)
    requires StartsWellFormed(blocks) && UniqueBlockIds(blocks)
    ensures StartsWellFormed(Filter(blocks, p)) && UniqueBlockIds(Filter(blocks, p))
  {
    if blocks != [] {
      var q := blocks[..|blocks| - 1];
      var y := blocks[|blocks| - 1];
      assert forall i :: 0 <= i < |q| ==> q[i] == blocks[i];
      FilterKeepsBlocks(q, p);
      var f := Filter(q, p);
      forall i | 0 <= i < |f| ensures f[i].blockId != y.blockId {
        assert f[i] in q;
      }
      var r := Filter(blocks, p);
      forall i, j | 0 <= i < |r| && 0 <= j < |r[i].trips| ensures WellFormed(r[i].trips[j].scheduledStartTime) {
        assert r[i] in blocks;
      }
    }
  }

  function Scale(p: Pos): (int, int)
  {
    (p.x * 1100, p.y * 900)
  }

  /** The `for...in` loop that copies the blocks kept into `newBlocks`. */
  method KeepRelevant(blocks: AllBlocks, onlyRelevant: bool, defaultBlockId: string, buses: set<string>)
    returns (newBlocks: AllBlocks)
    ensures newBlocks == Filter(blocks, (b: BlockEntry) => Keep(b, onlyRelevant, defaultBlockId, buses))
  {
    ghost var keep := (b: BlockEntry) => Keep(b, onlyRelevant, defaultBlockId, buses);
    newBlocks := [];
    for i := 0 to |blocks|
      invariant newBlocks == Filter(blocks[..i], keep)
    {
      FilterStep(blocks, i, keep);
      var block := blocks[i];
      if onlyRelevant && block.blockId != defaultBlockId && !SharesBus(block, buses) {
        continue;
      }
      newBlocks := newBlocks + [block];
    }
    assert blocks[..|blocks|] == blocks;
  }

  /** A node sits where its block was placed, scaled to 1100 by 900 pixels per cell. */
  predicate NodeAt(node: Node, block: BlockEntry, positions: Positions, border: Option<string>)
  {
    && node.id == block.blockId
    && node.id in positions
    && (node.x, node.y) == Scale(positions[node.id])
    && node.border == border
  }

  /** The loop that pushes one node per kept block. */
  method EmitNodes(
    newBlocks: AllBlocks, positions: Positions, colors: map<string, string>,
    defaultBlockId: string, busIdSearched: Option<string>)
    returns (nodes: seq<Node>)
    requires forall i :: 0 <= i < |newBlocks| ==> newBlocks[i].blockId in positions
    ensures |nodes| == |newBlocks|
    ensures forall k :: 0 <= k < |nodes| ==>
      NodeAt(nodes[k], newBlocks[k], positions, Border(newBlocks[k].blockId, defaultBlockId, busIdSearched, colors))
  {
    nodes := [];
    for i := 0 to |newBlocks|
      invariant |nodes| == i
      invariant forall k :: 0 <= k < i ==>
        NodeAt(nodes[k], newBlocks[k], positions, Border(newBlocks[k].blockId, defaultBlockId, busIdSearched, colors))
    {
      var blockId := newBlocks[i].blockId;
      var p := positions[blockId];
      nodes := nodes + [Node(blockId, p.x * 1100, p.y * 900, Border(blockId, defaultBlockId, busIdSearched, colors))];
    }
  }

  /** Nodes of different blocks never overlap. */
  lemma NodesApart(nodes: seq<Node>, newBlocks: AllBlocks, positions: Positions, borders: seq<Option<string>>)
    requires UniqueBlockIds(newBlocks) && Injective(positions)
    requires |nodes| == |newBlocks| == |borders|
    requires forall k :: 0 <= k < |nodes| ==> NodeAt(nodes[k], newBlocks[k], positions, borders[k])
    ensures forall a, b :: 0 <= a < b < |nodes| ==> nodes[a].id != nodes[b].id && (nodes[a].x, nodes[a].y) != (nodes[b].x, nodes[b].y)
  {
    forall a, b | 0 <= a < b < |nodes| ensures nodes[a].id != nodes[b].id && (nodes[a].x, nodes[a].y) != (nodes[b].x, nodes[b].y) {
      assert NodeAt(nodes[a], newBlocks[a], positions, borders[a]);
      assert NodeAt(nodes[b], newBlocks[b], positions, borders[b]);
      assert positions[nodes[a].id] != positions[nodes[b].id];
    }
  }

  /** `generateNodes`: filter the blocks, lay them out and emit one node per block. */
  method GenerateNodes(
    blocks: AllBlocks, edges: seq<Edge>, colors: map<string, string>,
    onlyRelevant: bool, defaultBlockId: string, busIdSearched: Option<string>)
    returns (nodes: seq<Node>, positions: Positions)
    requires StartsWellFormed(blocks) && UniqueBlockIds(blocks)
    ensures var kept := Relevant(blocks, onlyRelevant, defaultBlockId);
      && |nodes| == |kept|
      && forall k :: 0 <= k < |nodes| ==>
        NodeAt(nodes[k], kept[k], positions, Border(kept[k].blockId, defaultBlockId, busIdSearched, colors))
    ensures Injective(positions) && OnGrid(positions)
    ensures forall a, b :: 0 <= a < b < |nodes| ==> nodes[a].id != nodes[b].id && (nodes[a].x, nodes[a].y) != (nodes[b].x, nodes[b].y)
  {
    var initialBlockBuses := CollectInitialBuses(blocks, defaultBlockId);
    var newBlocks := KeepRelevant(blocks, onlyRelevant, defaultBlockId, initialBlockBuses);
    FilterKeepsBlocks(blocks, (b: BlockEntry) => Keep(b, onlyRelevant, defaultBlockId, initialBlockBuses));
    positions := GenerateNodePositions(newBlocks, edges, defaultBlockId);
    nodes := EmitNodes(newBlocks, positions, colors, defaultBlockId, busIdSearched);
    NodesApart(nodes, newBlocks, positions,
      seq(|newBlocks|, k requires 0 <= k < |newBlocks| => Border(newBlocks[k].blockId, defaultBlockId, busIdSearched, colors)));
  }

  /** Which blocks become nodes. */
  lemma RelevantBlocks(blocks: AllBlocks, onlyRelevant: bool, defaultBlockId: string, b: BlockEntry)
    ensures b in Relevant(blocks, onlyRelevant, defaultBlockId) <==>
      b in blocks && (!onlyRelevant || b.blockId == defaultBlockId || SharesBus(b, InitialBuses(blocks, defaultBlockId)))
  {
  }

  /** The default block's own buses are exactly its truthy bus ids. */
  lemma InitialBusesOfDefault(blocks: AllBlocks, defaultBlockId: string, bus: string)
    requires UniqueBlockIds(blocks)
    ensures bus in InitialBuses(blocks, defaultBlockId) <==>
      exists i, j :: 0 <= i < |blocks| && blocks[i].blockId == defaultBlockId && 0 <= j < |blocks[i].trips|
        && blocks[i].trips[j].busId == Some(bus) && bus != ""
  {
    var found := FindBlock(blocks, defaultBlockId);
    if found.Some? {
      var i :| 0 <= i < |blocks| && blocks[i].blockId == defaultBlockId && blocks[i].trips == found.value;
      forall i' | 0 <= i' < |blocks| && blocks[i'].blockId == defaultBlockId ensures i' == i {
      }
    }
  }

  // ---------------------------------------------------------------- block picker

  /** One entry of the `/api/blocks` response. */
  datatype BlockSummary = BlockSummary(blockId: Option<string>, busCount: int)

  /** One picker entry; `text` is its `label`. */
  datatype ComboOption = ComboOption(value: string, text: string)

  /** The position of the first `c` in `s`, or `|s|`. */
  function IndexOf(s: string, c: char): (i: nat)
    ensures i <= |s| && (i < |s| ==> s[i] == c) && c !in s[..i]
  {
    if s == [] then 0
    else if s[0] == c then 0
    else
      var i := 1 + IndexOf(s[1..], c);
      assert s[..i] == [s[0]] + s[1..][..i - 1];
      i
  }

  /** `s.split(c)`. */
  function Split(s: string, c: char): (r: seq<string>)
    ensures |r| >= 1
    decreases |s|
  {
    var i := IndexOf(s, c);
    if i == |s| then [s] else [s[..i]] + Split(s[i + 1..], c)
  }

  /** `parseInt(id.split("-")[k])`; `None` stands for `NaN`, also when there is no k-th part. */
  function PartNumber(id: string, k: nat): Option<int>
  {
    var parts := Split(id, '-');
    if k < |parts| then ParseInt(parts[k]) else None
  }

  function IdOf(b: BlockSummary): string
  {
    b.blockId.GetOr("")
  }

  function PartLe(k: nat): (BlockSummary, BlockSummary) -> bool
  {
    (a: BlockSummary, b: BlockSummary) => KeyLe(PartNumber(IdOf(a), k), PartNumber(IdOf(b), k))
  }

  /** The three chained sorts: by the first number, by the second, by the first again. */
  function BlockOrder(data: seq<BlockSummary>): seq<BlockSummary>
  {
    var named := Filter(data, (b: BlockSummary) => Truthy(b.blockId));
    Sort(Sort(Sort(named, PartLe(0)), PartLe(1)), PartLe(0))
  }

  /** The label: the id, then "train" for ids above 10000000, else the bus count with "bus"/"buses". */
  function BlockLabel(b: BlockSummary): string
  {
    var id := IdOf(b);
    var n := ParseInt(id);
    var kind := if n.Some? && n.value > 10000000 then "train"
      else IntToString(b.busCount) + " " + (if b.busCount == 1 then "bus" else "buses");
    id + " (" + kind + ")"
  }

  /** One option per block in picker order, valued by the id and labelled by `BlockLabel`. */
  function BlockOptions(data: seq<BlockSummary>): (r: seq<ComboOption>)
    ensures |r| == |BlockOrder(data)|
    ensures forall i :: 0 <= i < |r| ==> r[i] == ComboOption(IdOf(BlockOrder(data)[i]), BlockLabel(BlockOrder(data)[i]))
  {
    var order := BlockOrder(data);
    seq(|order|, i requires 0 <= i < |order| => ComboOption(IdOf(order[i]), BlockLabel(order[i])))
  }

  /** The picker offers every block that has an id, each as often as it was listed, and nothing else. */
  lemma BlockOptionsPermute(data: seq<BlockSummary>)
    ensures multiset(BlockOrder(data)) == multiset(Filter(data, (b: BlockSummary) => Truthy(b.blockId)))
    ensures forall b :: b in BlockOrder(data) <==> b in data && Truthy(b.blockId)
  {
    var named := Filter(data, (b: BlockSummary) => Truthy(b.blockId));
    SortPermutes(named, PartLe(0));
    SortPermutes(Sort(named, PartLe(0)), PartLe(1));
    SortPermutes(Sort(Sort(named, PartLe(0)), PartLe(1)), PartLe(0));
    forall b ensures b in BlockOrder(data) <==> b in named {
      assert b in BlockOrder(data) <==> b in multiset(BlockOrder(data));
    }
  }

  /** An option is offered exactly when some block of the response has an id and that option is its value and label. */
  lemma BlockOptionsOffered(data: seq<BlockSummary>)
    ensures forall o :: o in BlockOptions(data) <==>
      exists b :: b in data && Truthy(b.blockId) && o == ComboOption(IdOf(b), BlockLabel(b))
  {
    var order, r := BlockOrder(data), BlockOptions(data);
    BlockOptionsPermute(data);
    forall o ensures o in r <==> exists b :: b in data && Truthy(b.blockId) && o == ComboOption(IdOf(b), BlockLabel(b)) {
      if o in r {
        var i :| 0 <= i < |r| && r[i] == o;
        assert order[i] in order;
      }
      if exists b :: b in data && Truthy(b.blockId) && o == ComboOption(IdOf(b), BlockLabel(b)) {
        var b :| b in data && Truthy(b.blockId) && o == ComboOption(IdOf(b), BlockLabel(b));
        assert b in order;
        var i :| 0 <= i < |order| && order[i] == b;
        assert r[i] == o;
      }
    }
  }

  lemma PartLePreorder(s: seq<BlockSummary>, k: nat)
    requires forall b :: b in s ==> PartNumber(IdOf(b), k).Some?
    ensures PreorderOn(s, PartLe(k))
  {
  }

  /** When every id starts with a number, the picker is in non-decreasing order of that number. */
  lemma BlockOrderIsByFirstNumber(data: seq<BlockSummary>)
    requires forall b :: b in data && Truthy(b.blockId) ==> PartNumber(IdOf(b), 0).Some?
    ensures forall b :: b in BlockOrder(data) ==> PartNumber(IdOf(b), 0).Some?
    ensures Sorted(BlockOrder(data), PartLe(0))
  {
    var named := Filter(data, (b: BlockSummary) => Truthy(b.blockId));
    var bySecond := Sort(Sort(named, PartLe(0)), PartLe(1));
    BlockOptionsPermute(data);
    SortMembership(named, PartLe(0));
    SortMembership(Sort(named, PartLe(0)), PartLe(1));
    PartLePreorder(bySecond, 0);
    SortSorted(bySecond, PartLe(0));
  }

  /** Blocks that share their first number keep the order of the sort by the second number (the sort is stable). */
  lemma BlockOrderTiesBySecondNumber(data: seq<BlockSummary>, e: BlockSummary)
    requires forall b :: b in data && Truthy(b.blockId) ==> PartNumber(IdOf(b), 0).Some?
    requires PartNumber(IdOf(e), 0).Some?
    ensures var byFirst := Sort(Filter(data, (b: BlockSummary) => Truthy(b.blockId)), PartLe(0));
      Equivalents(BlockOrder(data), PartLe(0), e) == Equivalents(Sort(byFirst, PartLe(1)), PartLe(0), e)
  {
    var named := Filter(data, (b: BlockSummary) => Truthy(b.blockId));
    var bySecond := Sort(Sort(named, PartLe(0)), PartLe(1));
    SortMembership(named, PartLe(0));
    SortMembership(Sort(named, PartLe(0)), PartLe(1));
    PartLePreorder(bySecond + [e], 0);
    SortStable(bySecond, PartLe(0), e);
  }

  /** A label says "train" exactly for ids that read as a number above 10000000, and otherwise counts buses. */
  lemma BlockLabelText(b: BlockSummary)
    ensures var n := ParseInt(IdOf(b));
      && (n.Some? && n.value > 10000000 ==> BlockLabel(b) == IdOf(b) + " (train)")
      && (!(n.Some? && n.value > 10000000) && b.busCount == 1 ==> BlockLabel(b) == IdOf(b) + " (" + IntToString(1) + " bus)")
      && (!(n.Some? && n.value > 10000000) && b.busCount != 1 ==> BlockLabel(b) == IdOf(b) + " (" + IntToString(b.busCount) + " buses)")
  {
  }
}
