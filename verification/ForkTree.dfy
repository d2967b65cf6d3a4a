/** A packed tree grown to fill the fork the planner gave it. */
module ForkTree {
  import opened Bytes
  import opened Bits
  import opened Tower
  import opened NodeCodec
  import opened NodeMap
  import opened TreeBytes
  import opened BTree
  import opened BTreeBuilder
  import opened TreeShape
  import opened Allocation
  import opened Geometry
  import opened Layout

  /** Nodes in use: the header node, map nodes, leaves and index nodes. */
  ghost function PackedNodes(p: Packed): nat {
    if p.records == [] then 1 else TotalNodes(p.levels, p.mapNodes)
  }

  /** The header of the tree once its file has `total` nodes. */
  ghost function HeaderOf(p: Packed, nodeSize: nat, total: nat): HeaderRec {
    PaddedHeader(p.header, total, nodeSize, PackedNodes(p))
  }

  /** The header says what kind of tree was asked for. */
  predicate AsAsked(h: HeaderRec, opts: BuildOpts) {
    && h.nodeSize == opts.nodeSize && h.maxKeyLength == opts.maxKeyLength && h.attributes == opts.attributes
    && h.btreeType == opts.btreeType && h.keyCompareType == opts.keyCompareType
  }

  /** A fork of `total` nodes holds the packed tree; the further nodes are free. */
  ghost predicate ForkHolds(img: seq<byte>, opts: BuildOpts, p: Packed, total: nat) {
    && total < U32_LIMIT && AsAsked(p.header, opts) && p.mapNodes < PackedNodes(p)
    && ImageHolds(img, opts.nodeSize, HeaderOf(p, opts.nodeSize, total), p.mapNodes, PackedNodes(p))
    && HeaderOf(p, opts.nodeSize, total).totalNodes == total
    && (p.records != [] ==>
          TreeHolds(img, opts.nodeSize, p.records, p.levels, p.mapNodes, HeaderOf(p, opts.nodeSize, total)))
  }

  ghost predicate BuiltFrom(img: seq<byte>, opts: BuildOpts, p: Packed) {
    Built(img, opts, p.records, p.levels, p.mapNodes, p.header)
  }

  lemma BuiltFacts(img: seq<byte>, opts: BuildOpts, p: Packed)
    requires BuiltFrom(img, opts, p)
    ensures p.header.totalNodes == PackedNodes(p) && MIN_NODE_SIZE <= opts.nodeSize <= MAX_NODE_SIZE
    ensures ImageHolds(img, opts.nodeSize, p.header, p.mapNodes, PackedNodes(p))
    ensures |img| == PackedNodes(p) * opts.nodeSize && 1 <= PackedNodes(p) <= Coverage(opts.nodeSize, p.mapNodes)
  {
    hide MapInPlace, LevelPlaced, IsTower, Coverage;
    ImageFacts(img, opts.nodeSize, p.header, p.mapNodes, PackedNodes(p));
  }

  /** The fewest map nodes cover little more than the tree. */
  lemma CoverageIsTight(img: seq<byte>, opts: BuildOpts, p: Packed)
    requires BuiltFrom(img, opts, p) && MIN_NODE_SIZE <= opts.nodeSize <= MAX_NODE_SIZE
    ensures Coverage(opts.nodeSize, p.mapNodes) <= PackedNodes(p) + 8 * opts.nodeSize
  {
    hide MapInPlace, LevelPlaced, IsTower;
    if p.records != [] && p.mapNodes > 0 {
      var m := p.mapNodes - 1;
      assert TotalNodes(p.levels, m) > Coverage(opts.nodeSize, m);
      StartShift(p.levels, m, |p.levels|);
      StartShift(p.levels, p.mapNodes, |p.levels|);
      OneMore(m, MapNodeBits(opts.nodeSize));
    }
  }

  lemma OneMore(m: nat, perNode: nat)
    ensures (m + 1) * perNode == m * perNode + perNode
  {
  }

  /** A fork of just enough blocks has less than one block of nodes to spare. */
  lemma ForkIsTight(nodes: nat, nodeSize: nat, blockSize: nat, blocks: nat, total: nat)
    requires IsCeil(nodes * nodeSize, blockSize, blocks) && nodeSize >= MIN_NODE_SIZE && blockSize < U32_LIMIT
    requires nodes < 0x8000_0000 && total * nodeSize == blocks * blockSize
    ensures total < U32_LIMIT
  {
    assert (blocks - 1) * blockSize == blocks * blockSize - blockSize;
    Factors(0x80_0000, MIN_NODE_SIZE, nodeSize);
    assert (nodes + 0x80_0000) * nodeSize == nodes * nodeSize + 0x80_0000 * nodeSize;
    Scaled(nodes + 0x80_0000, total, nodeSize);
  }

  lemma GrownFork(before: seq<byte>, img: seq<byte>, opts: BuildOpts, p: Packed, total: nat)
    requires BuiltFrom(before, opts, p) && SameNodes(before, img, opts.nodeSize) && PackedNodes(p) <= total < U32_LIMIT
    requires ImageHolds(img, opts.nodeSize, HeaderOf(p, opts.nodeSize, total), p.mapNodes, PackedNodes(p))
    ensures ForkHolds(img, opts, p, total)
  {
    hide ImageHolds, SameNodes, LevelPlaced, IsTower;
    if p.records != [] {
      StartMonotone(p.levels, p.mapNodes, 0, |p.levels|);
      PaddedTreeHolds(before, img, opts.nodeSize, p.records, p.levels, p.mapNodes, p.header, total);
    }
  }

  /** A freshly packed tree of the volume, and just enough blocks for it. */
  ghost predicate Fillable(img: seq<byte>, opts: BuildOpts, p: Packed, blocks: nat, blockSize: nat) {
    && BuiltFrom(img, opts, p) && VolumeTree(opts.nodeSize, PackedNodes(p), p.mapNodes) && PackedNodes(p) < 0x8000_0000
    && PowerOfTwo(blockSize) && 512 <= blockSize < U32_LIMIT && blocks < U32_LIMIT && blocks == BlocksFor(|img|, blockSize)
  }

  /** The image is `size` bytes, `total` whole nodes, and holds the tree. */
  ghost predicate Fills(img: seq<byte>, opts: BuildOpts, p: Packed, size: nat, total: nat) {
    |img| == size == total * opts.nodeSize && ForkHolds(img, opts, p, total)
  }

  lemma FillFacts(img: seq<byte>, opts: BuildOpts, p: Packed, blocks: nat, blockSize: nat)
    requires Fillable(img, opts, p, blocks, blockSize)
    ensures BuiltFrom(img, opts, p) && blockSize < U32_LIMIT && blocks < U32_LIMIT
    ensures MIN_NODE_SIZE <= opts.nodeSize <= MAX_NODE_SIZE && p.header.totalNodes == PackedNodes(p) < 0x8000_0000
    ensures ImageHolds(img, opts.nodeSize, p.header, p.mapNodes, PackedNodes(p))
    ensures |img| == PackedNodes(p) * opts.nodeSize <= blocks * blockSize
    ensures IsCeil(PackedNodes(p) * opts.nodeSize, blockSize, blocks)
  {
    hide BuiltFrom, ImageHolds, PowerOfTwo, Coverage;
    BuiltFacts(img, opts, p);
    NeverEmpty(PackedNodes(p), opts.nodeSize);
  }

  /** The fork is a whole number of nodes, and the map has a bit for each. */
  predicate Paddable(nodeSize: nat, mapNodes: nat, blocks: nat, blockSize: nat) {
    && nodeSize >= MIN_NODE_SIZE && blocks * blockSize % nodeSize == 0
    && blocks * blockSize / nodeSize <= Coverage(nodeSize, mapNodes)
  }

  /** For a planned fork that is just what the padding checks: neither side of its
      32-bit comparison wraps. */
  lemma PaddingDecides(img: seq<byte>, opts: BuildOpts, p: Packed, blocks: nat, blockSize: nat)
    requires Fillable(img, opts, p, blocks, blockSize)
    ensures opts.nodeSize >= MIN_NODE_SIZE && |img| <= blocks * blockSize
    ensures Paddable(opts.nodeSize, p.mapNodes, blocks, blockSize) <==>
      && blocks * blockSize % opts.nodeSize == 0
      && blocks * blockSize / opts.nodeSize % U32_LIMIT <= Coverage(opts.nodeSize, p.mapNodes) % U32_LIMIT
  {
    hide Fillable, BuiltFrom, ImageHolds, Coverage, IsCeil, PackedNodes, PowerOfTwo;
    FillFacts(img, opts, p, blocks, blockSize);
    CoverageIsTight(img, opts, p);
    NothingWraps(PackedNodes(p), opts.nodeSize, blockSize, blocks, Coverage(opts.nodeSize, p.mapNodes));
  }

  lemma NothingWraps(nodes: nat, nodeSize: nat, blockSize: nat, blocks: nat, coverage: nat)
    requires MIN_NODE_SIZE <= nodeSize <= MAX_NODE_SIZE && blockSize < U32_LIMIT && nodes < 0x8000_0000
    requires IsCeil(nodes * nodeSize, blockSize, blocks) && coverage <= nodes + 8 * nodeSize
    ensures coverage < U32_LIMIT
    ensures blocks * blockSize % nodeSize == 0 ==> blocks * blockSize / nodeSize < U32_LIMIT
  {
    hide IsCeil;
    if blocks * blockSize % nodeSize == 0 {
      var total := blocks * blockSize / nodeSize;
      Divided(blocks * blockSize, nodeSize, total);
      ForkIsTight(nodes, nodeSize, blockSize, blocks, total);
    }
  }

  /** For block sizes up to 64 KiB none of the padding's checks can fire. */
  lemma FillNeverFails(img: seq<byte>, opts: BuildOpts, p: Packed, blocks: nat, blockSize: nat)
    requires Fillable(img, opts, p, blocks, blockSize) && blockSize <= 65536
    ensures opts.nodeSize >= MIN_NODE_SIZE && |img| <= blocks * blockSize && blocks * blockSize % opts.nodeSize == 0
    ensures blocks * blockSize / opts.nodeSize % U32_LIMIT <= Coverage(opts.nodeSize, p.mapNodes) % U32_LIMIT
  {
    FillFacts(img, opts, p, blocks, blockSize);
    BuiltFacts(img, opts, p);
    CoverageIsTight(img, opts, p);
    TreeOfVolume(img, opts, p, blocks, blockSize);
    hide Fillable, BuiltFrom, ImageHolds, PowerOfTwo, Coverage, IsCeil, BlocksFor, PackedNodes, VolumeTree;
    PaddingPossible(PackedNodes(p), p.mapNodes, opts.nodeSize, blockSize, blocks);
    SmallEnough(blocks * blockSize / opts.nodeSize, Coverage(opts.nodeSize, p.mapNodes));
  }

  lemma TreeOfVolume(img: seq<byte>, opts: BuildOpts, p: Packed, blocks: nat, blockSize: nat)
    requires Fillable(img, opts, p, blocks, blockSize)
    ensures VolumeTree(opts.nodeSize, PackedNodes(p), p.mapNodes) && PowerOfTwo(blockSize) && blockSize >= 512
  {
    hide BuiltFrom, PowerOfTwo, VolumeTree;
  }

  lemma SmallEnough(total: nat, coverage: nat)
    requires total <= coverage < U32_LIMIT
    ensures total % U32_LIMIT <= coverage % U32_LIMIT
  {
  }

  /** Fill the fork; what is then in the tree's buffer is `img`. */
  method FillFork(r: BuildResult, blocks: nat, blockSize: nat, ghost before: seq<byte>, ghost p: Packed, ghost opts: BuildOpts)
    returns (ok: bool, img: seq<byte>, ghost total: nat)
    requires r.bytes[..] == before && r.opts == opts && r.Agrees(p.header, p.mapNodes)
    requires Fillable(before, opts, p, blocks, blockSize)
    modifies r, r.bytes
    ensures ok <==> Paddable(opts.nodeSize, p.mapNodes, blocks, blockSize)
    ensures blockSize <= 65536 ==> ok
    ensures ok ==> Fills(img, opts, p, blocks * blockSize, total)
  {
    hide Paddable, Fills, Fillable, BuiltFrom, ForkHolds, Coverage, ImageHolds, SameNodes, PackedNodes, HeaderOf, IsCeil;
    FillFacts(before, opts, p, blocks, blockSize);
    PaddingDecides(before, opts, p, blocks, blockSize);
    if blockSize <= 65536 {
      FillNeverFails(before, opts, p, blocks, blockSize);
    }
    ok, total := PadFork(r, blocks, blockSize, before, p.header, p.mapNodes, PackedNodes(p));
    img := r.bytes[..];
    if ok {
      ForkIsTight(PackedNodes(p), opts.nodeSize, blockSize, blocks, total);
      Filled(before, img, opts, p, total, blocks * blockSize);
    }
  }

  /** The padding in terms of the nodes it makes. */
  method PadFork(r: BuildResult, blocks: nat, blockSize: nat, ghost before: seq<byte>, ghost h: HeaderRec,
                 ghost mapNodes: nat, ghost packed: nat)
    returns (ok: bool, ghost total: nat)
    requires blocks < U32_LIMIT && blockSize < U32_LIMIT && h.totalNodes < U32_LIMIT && r.bytes[..] == before
    requires r.Agrees(h, mapNodes)
    requires ImageHolds(before, r.opts.nodeSize, h, mapNodes, packed)
    modifies r, r.bytes
    ensures r.opts.nodeSize > 0 && (ok <==>
      && blocks * blockSize >= |before| && blocks * blockSize % r.opts.nodeSize == 0
      && blocks * blockSize / r.opts.nodeSize % U32_LIMIT <= Coverage(r.opts.nodeSize, mapNodes) % U32_LIMIT)
    ensures ok ==> |r.bytes[..]| == blocks * blockSize == total * r.opts.nodeSize
    ensures ok && total < U32_LIMIT ==>
      && ImageHolds(r.bytes[..], r.opts.nodeSize, PaddedHeader(h, total, r.opts.nodeSize, packed), mapNodes, packed)
      && SameNodes(before, r.bytes[..], r.opts.nodeSize)
  {
    hide ImageHolds, SameNodes, Coverage;
    total := blocks * blockSize / r.opts.nodeSize;
    ok := r.PadToBlocks(blocks, blockSize, h, mapNodes, packed);
    if ok {
      Divided(blocks * blockSize, r.opts.nodeSize, total);
    }
  }

  lemma NeverEmpty(nodes: nat, nodeSize: nat)
    requires nodes >= 1 && nodeSize >= 1
    ensures nodes * nodeSize > 0
  {
  }

  lemma Divided(want: nat, nodeSize: nat, total: nat)
    requires nodeSize > 0 && want % nodeSize == 0 && total == want / nodeSize
    ensures total * nodeSize == want
  {
  }

  lemma Filled(before: seq<byte>, after: seq<byte>, opts: BuildOpts, p: Packed, total: nat, size: nat)
    requires BuiltFrom(before, opts, p) && SameNodes(before, after, opts.nodeSize) && |after| >= |before|
    requires |after| == size == total * opts.nodeSize && total < U32_LIMIT
    requires ImageHolds(after, opts.nodeSize, PaddedHeader(p.header, total, opts.nodeSize, PackedNodes(p)), p.mapNodes, PackedNodes(p))
    ensures Fills(after, opts, p, size, total)
  {
    BuiltFacts(before, opts, p);
    hide ImageHolds, SameNodes, BuiltFrom, PackedNodes, ForkHolds;
    AtLeast(PackedNodes(p), total, opts.nodeSize);
    GrownFork(before, after, opts, p, total);
  }

  lemma AtLeast(nodes: nat, total: nat, nodeSize: nat)
    requires nodeSize > 0 && nodes * nodeSize <= total * nodeSize
    ensures nodes <= total
  {
    Scaled(total + 1, nodes, nodeSize);
  }

  lemma PaddingPossible(nodes: nat, mapNodes: nat, nodeSize: nat, blockSize: nat, blocks: nat)
    requires VolumeTree(nodeSize, nodes, mapNodes) && 1 <= nodes <= Coverage(nodeSize, mapNodes)
    requires PowerOfTwo(blockSize) && 512 <= blockSize <= 65536
    requires IsCeil(nodes * nodeSize, blockSize, blocks)
    ensures nodeSize > 0 && blocks * blockSize % nodeSize == 0
    ensures blocks * blockSize / nodeSize <= Coverage(nodeSize, mapNodes)
  {
    hide Coverage, PowerOfTwo, IsCeil;
    var total := ForkFilled(nodes, mapNodes, nodeSize, blockSize, blocks);
    Multiple(total, nodeSize, blocks * blockSize);
  }

  lemma Multiple(total: nat, nodeSize: nat, want: nat)
    requires nodeSize > 0 && total * nodeSize == want
    ensures want % nodeSize == 0 && want / nodeSize == total
  {
    QuotientIs(want, nodeSize, total);
    assert want == want / nodeSize * nodeSize + want % nodeSize;
  }

  /** In a filled fork the header's counts are those of the fork, and its clump size
      is the fork's size cut to 32 bits. */
  lemma ForkIsCounted(img: seq<byte>, opts: BuildOpts, p: Packed, size: nat, total: nat)
    requires Fills(img, opts, p, size, total)
    ensures |img| >= MIN_NODE_SIZE && TotalNodesField(img) == total && FreeNodesField(img) == total - PackedNodes(p)
    ensures ClumpSizeField(img) == size % U32_LIMIT
  {
    hide ForkHolds, ImageHolds, TreeHolds, TotalNodesField, FreeNodesField, ClumpSizeField, HeaderOf, PackedNodes;
    FillHeader(img, opts, p, size, total);
    HeaderFields(img, opts.nodeSize, HeaderOf(p, opts.nodeSize, total), p.mapNodes, PackedNodes(p));
  }

  /** Its map tells packed nodes from free ones: a bit is set exactly for a packed
      node, and the clear ones number the free nodes. */
  lemma ForkMapIsExact(img: seq<byte>, opts: BuildOpts, p: Packed, size: nat, total: nat)
    requires Fills(img, opts, p, size, total)
    ensures var bs := WholeMap(img, opts.nodeSize, total);
      && total <= 8 * |bs| && (forall n :: 0 <= n < 8 * |bs| ==> (BitAt(bs, n) <==> n < PackedNodes(p)))
      && ClearBits(bs, total) == total - PackedNodes(p)
  {
    hide ForkHolds, ImageHolds, TreeHolds, WholeMap, BitAt, ClearBits, HeaderOf, PackedNodes;
    FillHeader(img, opts, p, size, total);
    MapIsExact(img, opts.nodeSize, HeaderOf(p, opts.nodeSize, total), p.mapNodes, PackedNodes(p));
  }

  lemma FillHeader(img: seq<byte>, opts: BuildOpts, p: Packed, size: nat, total: nat)
    requires Fills(img, opts, p, size, total)
    ensures var h := HeaderOf(p, opts.nodeSize, total);
      && ImageHolds(img, opts.nodeSize, h, p.mapNodes, PackedNodes(p))
      && h.totalNodes == total < U32_LIMIT && h.freeNodes == total - PackedNodes(p) && PackedNodes(p) <= total
      && h.clumpSize == size
    ensures p.mapNodes < PackedNodes(p)
  {
    hide MapInPlace, TreeHolds, Coverage;
  }

  /** The empty tree is one 1024-byte node whose map describes 6144. */
  lemma EmptyTreePads(blockSize: nat)
    requires PowerOfTwo(blockSize) && 512 <= blockSize
    ensures Paddable(1024, 0, BlocksFor(1024, blockSize), blockSize) <==> blockSize < 0x80_0000
  {
    assert Coverage(1024, 0) == 6144;
    if blockSize < 1024 {
      PowerIs(blockSize);
      assert BlocksFor(1024, 512) == 2;
    } else {
      OneBlock(blockSize);
      KibiPower(blockSize);
      if blockSize < 0x80_0000 {
        FourMebi(blockSize);
      }
    }
  }

  lemma OneBlock(blockSize: nat)
    requires blockSize >= 1024
    ensures BlocksFor(1024, blockSize) == 1
  {
    CeilIs(1024, blockSize, 1);
  }

  /** A power of two from 1024 on is a multiple of 1024. */
  lemma {:induction false} KibiPower(n: nat)
    requires PowerOfTwo(n) && n >= 1024
    ensures n % 1024 == 0
    decreases n
  {
    if n > 1024 {
      assert PowerOfTwo(n / 2);
      if n / 2 < 1024 {
        PowerIs(n / 2);
      } else {
        KibiPower(n / 2);
      }
    }
  }

  lemma FourMebi(n: nat)
    requires PowerOfTwo(n) && n < 0x80_0000
    ensures n <= 0x40_0000
  {
    assert Pow2(22) == 0x40_0000 by {
      assert Pow2(5) == 32;
      assert Pow2(10) == 1024;
      assert Pow2(15) == 0x8000;
      assert Pow2(20) == 0x10_0000;
    }
    PowerBelow(n, 22);
  }
}
