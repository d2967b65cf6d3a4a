/** The nodes of an image in plain numbers, byte by byte: what a reader that shares
    nothing with the writer has to go by. TN1150, "B-Trees". */
module TreeFormat {
  import opened Bytes
  import opened Packing
  import opened Seqs
  import opened Tower
  import opened NodeCodec
  import opened TreeReader
  import opened NodeMap
  import opened TreeBytes
  import opened BTree
  import opened BTreeBuilder

  /** The records of node `i` of level `l`. */
  function RecordCount(levels: seq<Level>, l: nat, i: nat): nat
    requires l < |levels| && i < levels[l].Count()
  {
    if levels[l].Leaves? then |levels[l].leaves[i]| else |levels[l].nodes[i]|
  }

  /** Leaves are kind 255 at height 1, index nodes kind 0 above; neighbours of a level
      are linked both ways by node number, 0 at the ends; the first record starts at
      byte 14, and the last two bytes say so. */
  lemma NodeInNumbers(img: seq<byte>, nodeSize: nat, records: seq<Record>, levels: seq<Level>, mapNodes: nat, h: HeaderRec,
                      l: nat, i: nat)
    requires TreeHolds(img, nodeSize, records, levels, mapNodes, h) && h.totalNodes < 0x1_0000_0000
    requires l < |levels| && i < levels[l].Count()
    ensures nodeSize >= 512 && HasNode(img, nodeSize, Start(levels, mapNodes, l) + i)
    ensures var num := Start(levels, mapNodes, l) + i;
      var node := NodeAt(img, nodeSize, num);
      && node[8] == (if l == 0 then 255 else 0) && node[9] == (l + 1) % 256
      && Get16(node, 10) == RecordCount(levels, l, i)
      && Get32(node, 0) == (if i + 1 < levels[l].Count() then num + 1 else 0)
      && Get32(node, 4) == (if i > 0 then num - 1 else 0)
      && Get16(node, nodeSize - 2) == 14
  {
    hide TreeHolds, NodePlaced, Start, NodeAt, HasNode, Get16, Get32, NodeRecords, RecordCount;
    var start, count := Start(levels, mapNodes, l), levels[l].Count();
    NodeIsPlaced(img, nodeSize, records, levels, mapNodes, h, l, i);
    var recs := NodeRecords(levels, mapNodes, l, i);
    NumbersBounded(img, nodeSize, records, levels, mapNodes, h, l);
    RecordsCounted(levels, mapNodes, l, i);
    PlacedInNumbers(img, nodeSize, start, count, i, KindAt(l), (l + 1) % 0x100, recs);
  }

  lemma PlacedInNumbers(img: seq<byte>, nodeSize: nat, start: nat, count: nat, i: nat, kind: byte, height: nat,
                        recs: seq<Record>)
    requires height < 0x100 && NodePlaced(img, nodeSize, start, count, i, kind, height, recs)
    requires i < count && 0 < start && start + count <= 0x1_0000_0000
    ensures nodeSize >= 14 && HasNode(img, nodeSize, start + i)
    ensures var num, node := start + i, NodeAt(img, nodeSize, start + i);
      && node[8] == kind && node[9] == height && Get16(node, 10) == |recs|
      && Get32(node, 0) == (if i + 1 < count then num + 1 else 0) && Get32(node, 4) == (if i > 0 then num - 1 else 0)
      && Get16(node, nodeSize - 2) == 14
  {
    hide PageHolds, Get16, Get32;
    PageInNumbers(NodeAt(img, nodeSize, start + i), DescAt(start, count, i, kind, height, |recs|), recs);
  }

  lemma NodeIsPlaced(img: seq<byte>, nodeSize: nat, records: seq<Record>, levels: seq<Level>, mapNodes: nat, h: HeaderRec,
                     l: nat, i: nat)
    requires TreeHolds(img, nodeSize, records, levels, mapNodes, h) && l < |levels| && i < levels[l].Count()
    ensures Kinds(levels)
    ensures NodePlaced(img, nodeSize, Start(levels, mapNodes, l), levels[l].Count(), i, KindAt(l), (l + 1) % 0x100,
                       NodeRecords(levels, mapNodes, l, i))
  {
    assert LevelPlaced(img, nodeSize, levels, mapNodes, l);
    hide TreeHolds, NodePlaced, Start, NodeRecords;
  }

  lemma PageInNumbers(node: seq<byte>, desc: Desc, recs: seq<Record>)
    requires PageHolds(node, desc, recs) && desc.numRecords == |recs|
    requires desc.fLink < 0x1_0000_0000 && desc.bLink < 0x1_0000_0000
    ensures |node| >= 14 && node[8] == desc.kind && node[9] == desc.height && Get16(node, 10) == |recs|
    ensures Get32(node, 0) == desc.fLink && Get32(node, 4) == desc.bLink && Get16(node, |node| - 2) == 14
  {
    FewRecords(node, desc, recs);
    DescReadsBack(node, desc, recs);
    OffsetReadsBack(node, desc, recs, 0);
    assert recs[..0] == [];
    hide PageHolds, Get16, Get32;
  }

  lemma NumbersBounded(img: seq<byte>, nodeSize: nat, records: seq<Record>, levels: seq<Level>, mapNodes: nat, h: HeaderRec,
                       l: nat)
    requires TreeHolds(img, nodeSize, records, levels, mapNodes, h) && l < |levels|
    ensures 0 < Start(levels, mapNodes, l) && Start(levels, mapNodes, l) + levels[l].Count() <= h.totalNodes
    ensures nodeSize >= 512
  {
    hide LevelPlaced, MapInPlace, Coverage, IsTower;
    StartMonotone(levels, mapNodes, 0, l);
    StartMonotone(levels, mapNodes, l + 1, |levels|);
  }

  lemma RecordsCounted(levels: seq<Level>, mapNodes: nat, l: nat, i: nat)
    requires Kinds(levels) && l < |levels| && i < levels[l].Count()
    ensures |NodeRecords(levels, mapNodes, l, i)| == RecordCount(levels, l, i)
  {
    hide Start;
  }

  /** The header node: kind 1 at height 0, three records at 14, 120 and 248, linked to
      the first map node if there is one. */
  lemma HeaderNodeInNumbers(img: seq<byte>, nodeSize: nat, h: HeaderRec, mapNodes: nat, packed: nat)
    requires ImageHolds(img, nodeSize, h, mapNodes, packed)
    ensures 512 <= nodeSize <= |img|
    ensures img[8] == 1 && img[9] == 0 && Get16(img, 10) == 3
    ensures Get32(img, 0) == (if mapNodes > 0 then 1 else 0) && Get32(img, 4) == 0
    ensures Get16(img, nodeSize - 2) == 14 && Get16(img, nodeSize - 4) == 120 && Get16(img, nodeSize - 6) == 248
    ensures Get16(img, nodeSize - 8) == nodeSize - 8
  {
    Times(1, h.totalNodes, nodeSize);
    var node := NodeAt(img, nodeSize, 0);
    assert node == img[0..nodeSize];
    assert HeaderHolds(node, h, mapNodes, packed);
    var desc, table := Desc(if mapNodes > 0 then 1 else 0, 0, HEADER_KIND, 0, 3), [14, 120, 248, nodeSize - 8];
    assert img[..14] == DescBytes(desc) && img[nodeSize - 8..nodeSize] == Table(table) by {
      assert img[..14] == node[..14] && img[nodeSize - 8..nodeSize] == node[nodeSize - 8..];
    }
    hide ImageHolds, HeaderHolds, HeaderBytes, CountsUpTo, Blank;
    DescInBytes(img, desc);
    TableInBytes(img, nodeSize, table, 0);
    TableInBytes(img, nodeSize, table, 1);
    TableInBytes(img, nodeSize, table, 2);
    TableInBytes(img, nodeSize, table, 3);
  }

  /** Map node `i`: kind 2 at height 0, one record from 14 to the slots, linked to the
      next one. */
  lemma MapNodeInNumbers(img: seq<byte>, nodeSize: nat, h: HeaderRec, mapNodes: nat, packed: nat, i: nat)
    requires ImageHolds(img, nodeSize, h, mapNodes, packed) && i < mapNodes < 0xFFFF_FFFF
    ensures 512 <= nodeSize && HasNode(img, nodeSize, 1 + i)
    ensures var node := NodeAt(img, nodeSize, 1 + i);
      && node[8] == 2 && node[9] == 0 && Get16(node, 10) == 1
      && Get32(node, 0) == (if i + 1 < mapNodes then i + 2 else 0) && Get32(node, 4) == 0
      && Get16(node, nodeSize - 2) == 14 && Get16(node, nodeSize - 4) == nodeSize - 4
  {
    assert MapNodeInPlace(img, nodeSize, mapNodes, packed, i);
    var node := NodeAt(img, nodeSize, 1 + i);
    var desc, table := Desc(if i + 1 < mapNodes then 1 + i + 1 else 0, 0, MAP_KIND, 0, 1), [14, nodeSize - 4];
    assert node[nodeSize - 4..nodeSize] == Table(table) by {
      assert node[nodeSize - 4..nodeSize] == node[nodeSize - 4..];
    }
    hide ImageHolds, HeaderHolds, CountsUpTo, Blank;
    DescInBytes(node, desc);
    TableInBytes(node, nodeSize, table, 0);
    TableInBytes(node, nodeSize, table, 1);
  }

  lemma DescInBytes(b: seq<byte>, desc: Desc)
    requires |b| >= 14 && b[..14] == DescBytes(desc) && desc.fLink < 0x1_0000_0000 && desc.bLink < 0x1_0000_0000
    ensures b[8] == desc.kind && b[9] == desc.height && Get16(b, 10) == desc.numRecords % 0x1_0000
    ensures Get32(b, 0) == desc.fLink && Get32(b, 4) == desc.bLink
  {
    DescFields(desc);
    var d := b[..14];
    assert b[0..4] == d[0..4] && b[4..8] == d[4..8] && b[10..12] == d[10..12] && b[8] == d[8] && b[9] == d[9];
    hide DescBytes, U16, U32, Get16, Get32;
    Get32Slice(b, 0, desc.fLink);
    Get32Slice(b, 4, desc.bLink);
    Get16Slice(b, 10, desc.numRecords);
  }

  lemma TableInBytes(b: seq<byte>, end: nat, offsets: seq<nat>, i: nat)
    requires i < |offsets| && 2 * |offsets| <= end <= |b| && b[end - 2 * |offsets|..end] == Table(offsets)
    requires offsets[i] < 0x1_0000
    ensures Get16(b, end - 2 * (i + 1)) == offsets[i]
  {
    hide Table, U16, Get16;
    TableAt(offsets, i);
    var at, k := end - 2 * (i + 1), 2 * (|offsets| - 1 - i);
    SubSlice(b, end - 2 * |offsets|, end, k, k + 2);
    assert b[at..at + 2] == U16(offsets[i]);
    Get16Slice(b, at, offsets[i]);
  }

  // ----- how full nodes are

  /** Bytes a node needs for these records: descriptor, records with their length
      fields, one slot each and one for free space. */
  function Needs(recs: seq<Record>): nat {
    if recs == [] then 16 else Needs(recs[..|recs| - 1]) + 4 + |recs[|recs| - 1].key| + |recs[|recs| - 1].data|
  }

  lemma {:induction false} NeedsIsSize(recs: seq<Record>)
    ensures Needs(recs) == 16 + Total(recs, LeafSize())
  {
    if recs != [] {
      var n := |recs| - 1;
      NeedsIsSize(recs[..n]);
      assert recs == recs[..n] + [recs[n]];
      TotalSnoc(recs[..n], recs[n], LeafSize());
    }
  }

  /** A leaf fits its node, and the next leaf's first record would not have. */
  lemma LeavesAreFull(records: seq<Record>, nodeSize: nat, levels: seq<Level>, i: nat)
    requires nodeSize >= MIN_NODE_SIZE && IsTower(records, nodeSize, levels) && LeavesFit(records, nodeSize)
    requires i < levels[0].Count()
    ensures levels[0].Leaves? && levels[0].leaves[i] != [] && Needs(levels[0].leaves[i]) <= nodeSize
    ensures i + 1 < levels[0].Count() ==>
      levels[0].leaves[i + 1] != [] && Needs(levels[0].leaves[i] + [levels[0].leaves[i + 1][0]]) > nodeSize
  {
    var leaves := levels[0].leaves;
    var leaf := leaves[i];
    NeedsIsSize(leaf);
    if |leaf| == 1 {
      var k := ConcatIndex(leaves, i, 0);
      assert leaf[0] == records[k];
      TotalSingle(leaf, LeafSize());
    }
    if i + 1 < |leaves| {
      NeedsIsSize(leaf + [leaves[i + 1][0]]);
      TotalSnoc(leaf, leaves[i + 1][0], LeafSize());
    }
  }

  /** The same of index nodes, whose records carry four bytes each. */
  function IndexNeeds(recs: seq<IdxRec>): nat {
    if recs == [] then 16 else IndexNeeds(recs[..|recs| - 1]) + 8 + |recs[|recs| - 1].key|
  }

  lemma {:induction false} IndexNeedsIsSize(recs: seq<IdxRec>)
    ensures IndexNeeds(recs) == 16 + Total(recs, IdxSize())
  {
    if recs != [] {
      var n := |recs| - 1;
      IndexNeedsIsSize(recs[..n]);
      assert recs == recs[..n] + [recs[n]];
      TotalSnoc(recs[..n], recs[n], IdxSize());
    }
  }

  lemma IndexNodesAreFull(records: seq<Record>, nodeSize: nat, levels: seq<Level>, l: nat, i: nat)
    requires nodeSize >= MIN_NODE_SIZE && IsTower(records, nodeSize, levels) && 0 < l < |levels| && i < levels[l].Count()
    ensures levels[l].Indices? && levels[l].nodes[i] != []
    ensures |levels[l].nodes[i]| > 1 ==> IndexNeeds(levels[l].nodes[i]) <= nodeSize
    ensures i + 1 < levels[l].Count() ==>
      levels[l].nodes[i + 1] != [] && IndexNeeds(levels[l].nodes[i] + [levels[l].nodes[i + 1][0]]) > nodeSize
  {
    assert LevelOver(levels[l - 1], levels[l], nodeSize);
    var nodes := levels[l].nodes;
    IndexNeedsIsSize(nodes[i]);
    if i + 1 < |nodes| {
      IndexNeedsIsSize(nodes[i] + [nodes[i + 1][0]]);
      TotalSnoc(nodes[i], nodes[i + 1][0], IdxSize());
    }
  }

  // ----- what kind of tree

  /** The header of a packed tree carries what was asked for; without a clump size, eight
      nodes. */
  lemma BuiltAsAsked(img: seq<byte>, opts: BuildOpts, records: seq<Record>, levels: seq<Level>, mapNodes: nat, h: HeaderRec)
    requires Built(img, opts, records, levels, mapNodes, h)
    ensures h.nodeSize == opts.nodeSize && h.maxKeyLength == opts.maxKeyLength && h.attributes == opts.attributes
    ensures h.btreeType == opts.btreeType && h.keyCompareType == opts.keyCompareType
    ensures h.clumpSize == if opts.clumpSize == 0 then 8 * opts.nodeSize else opts.clumpSize
    ensures h.leafRecords == |records| && h.freeNodes == 0
    ensures records == [] ==> h.treeDepth == 0 && h.rootNode == 0 && h.firstLeaf == 0 && h.lastLeaf == 0 && h.totalNodes == 1
  {
    hide TreeHolds, ImageHolds, Coverage;
  }
}
