/** What the records decide about a packed tree: its shape depends on their sizes
    only, its node count and depth are bounded by their number, and the file the
    planner gives it can always be filled exactly. */
module TreeShape {
  import opened Bytes
  import opened Seqs
  import opened Packing
  import opened Tower
  import opened NodeMap
  import opened TreeBytes
  import opened BTree
  import opened BTreeBuilder
  import opened Allocation

  /** What a build packed, and into what shape. */
  datatype Packed = Packed(records: seq<Record>, levels: seq<Level>, mapNodes: nat, header: HeaderRec)

  ghost function NothingPacked(): Packed {
    Packed([], [], 0, HeaderRec(0, 0, 0, 0, 0, 0, 0, 0, 0, 0, 0, 0, 0))
  }

  // ----- the same sizes give the same shape

  /** The same keys, and data of the same lengths. */
  ghost predicate SameSizes(a: seq<Record>, b: seq<Record>) {
    && |a| == |b|
    && forall i :: 0 <= i < |a| ==> a[i].key == b[i].key && |a[i].data| == |b[i].data|
  }

  /** One tower's level `l` has the other's node count and first keys. */
  ghost predicate SameLevel(levels: seq<Level>, levels': seq<Level>, l: nat)
    requires l < |levels| && l < |levels'|
  {
    levels[l].FirstKeys() == levels'[l].FirstKeys()
  }

  lemma LeafKeysSame(a: seq<Record>, b: seq<Record>, nodeSize: nat, levels: seq<Level>, levels': seq<Level>)
    requires nodeSize >= MIN_NODE_SIZE && IsTower(a, nodeSize, levels) && IsTower(b, nodeSize, levels') && SameSizes(a, b)
    ensures SameLevel(levels, levels', 0)
  {
    var ga, gb := levels[0].leaves, levels'[0].leaves;
    GreedyDetermined(a, LeafSize(), ga, b, LeafSize(), gb, Room(nodeSize));
    var key := (r: Record) => r.key;
    forall g | 0 <= g < |ga| ensures levels[0].FirstKey(g) == levels'[0].FirstKey(g) {
      assert ga[g] != [];
      Aligned(ga, gb, key, g, 0);
      assert key(ga[g][0]) == key(gb[g][0]);
    }
    assert levels[0].FirstKeys() == levels'[0].FirstKeys();
  }

  /** Above the leaves the two towers are the same tower. */
  lemma {:induction false} LevelsSame(a: seq<Record>, b: seq<Record>, nodeSize: nat,
                                      levels: seq<Level>, levels': seq<Level>, l: nat)
    requires nodeSize >= MIN_NODE_SIZE && IsTower(a, nodeSize, levels) && IsTower(b, nodeSize, levels') && SameSizes(a, b)
    requires l < |levels| && l < |levels'|
    ensures SameLevel(levels, levels', l)
    ensures l > 0 ==> levels[l] == levels'[l]
    decreases l
  {
    if l == 0 {
      LeafKeysSame(a, b, nodeSize, levels, levels');
    } else {
      LevelsSame(a, b, nodeSize, levels, levels', l - 1);
      assert LevelOver(levels[l - 1], levels[l], nodeSize) && LevelOver(levels'[l - 1], levels'[l], nodeSize);
      hide Greedy, IsTower;
      GroupsSame(Entries(levels[l - 1].FirstKeys()), IdxSize(), Room(nodeSize), levels[l].nodes, levels'[l].nodes);
    }
  }

  ghost predicate SameCounts(levels: seq<Level>, levels': seq<Level>) {
    |levels| == |levels'| && forall l :: 0 <= l < |levels| ==> levels[l].Count() == levels'[l].Count()
  }

  lemma NoTaller(a: seq<Record>, b: seq<Record>, nodeSize: nat, levels: seq<Level>, levels': seq<Level>)
    requires nodeSize >= MIN_NODE_SIZE && IsTower(a, nodeSize, levels) && IsTower(b, nodeSize, levels') && SameSizes(a, b)
    requires Finished(levels) && Finished(levels')
    ensures |levels'| <= |levels|
  {
    var top := |levels| - 1;
    if |levels| < |levels'| {
      CountsPositive(b, nodeSize, levels', top + 1);
      assert levels'[top + 1].Count() < levels'[top + 1 - 1].Count();
      LevelsSame(a, b, nodeSize, levels, levels', top);
    }
  }

  /** Packing sees sizes, not contents: the second pass over the same keys builds
      a tree of the same shape. */
  lemma SameShape(a: seq<Record>, b: seq<Record>, nodeSize: nat, levels: seq<Level>, levels': seq<Level>)
    requires nodeSize >= MIN_NODE_SIZE && IsTower(a, nodeSize, levels) && IsTower(b, nodeSize, levels') && SameSizes(a, b)
    requires Finished(levels) && Finished(levels')
    ensures SameCounts(levels, levels')
    ensures forall l :: 1 <= l < |levels| ==> levels[l] == levels'[l]
  {
    hide IsTower;
    NoTaller(a, b, nodeSize, levels, levels');
    NoTaller(b, a, nodeSize, levels', levels);
    forall l | 0 <= l < |levels| ensures levels[l].Count() == levels'[l].Count() && (l > 0 ==> levels[l] == levels'[l]) {
      LevelsSame(a, b, nodeSize, levels, levels', l);
      assert |levels[l].FirstKeys()| == |levels'[l].FirstKeys()|;
    }
  }

  lemma {:induction false} StartSame(levels: seq<Level>, levels': seq<Level>, mapNodes: nat, l: nat)
    requires SameCounts(levels, levels') && l <= |levels|
    ensures Start(levels, mapNodes, l) == Start(levels', mapNodes, l)
  {
    if l > 0 {
      StartSame(levels, levels', mapNodes, l - 1);
    }
  }

  /** A build of records of the same sizes has the same header and byte length. */
  lemma BuiltSameShape(img: seq<byte>, img': seq<byte>, opts: BuildOpts, a: seq<Record>, b: seq<Record>,
                       levels: seq<Level>, levels': seq<Level>, mapNodes: nat, mapNodes': nat,
                       h: HeaderRec, h': HeaderRec)
    requires Built(img, opts, a, levels, mapNodes, h) && Built(img', opts, b, levels', mapNodes', h') && SameSizes(a, b)
    ensures mapNodes == mapNodes' && h == h' && |img| == |img'|
  {
    hide MapInPlace, LevelPlaced;
    if a != [] {
      SameShape(a, b, opts.nodeSize, levels, levels');
      StartShift(levels, mapNodes, |levels|);
      StartShift(levels', mapNodes', |levels|);
      StartSame(levels, levels', 0, |levels|);
      FewestIsUnique(opts.nodeSize, levels, levels', mapNodes, mapNodes');
      StartSame(levels, levels', mapNodes, |levels| - 1);
    }
  }

  lemma FewestIsUnique(nodeSize: nat, levels: seq<Level>, levels': seq<Level>, m: nat, m': nat)
    requires nodeSize >= MIN_NODE_SIZE && SameCounts(levels, levels')
    requires TotalNodes(levels, m) <= Coverage(nodeSize, m) && TotalNodes(levels', m') <= Coverage(nodeSize, m')
    requires forall k :: 0 <= k < m ==> TotalNodes(levels, k) > Coverage(nodeSize, k)
    requires forall k :: 0 <= k < m' ==> TotalNodes(levels', k) > Coverage(nodeSize, k)
    ensures m == m'
  {
    StartSame(levels, levels', m, |levels|);
    StartSame(levels, levels', m', |levels|);
  }

  /** The same records make the same tree, node by node. */
  lemma SameRecordsSameTower(recs: seq<Record>, nodeSize: nat, levels: seq<Level>, levels': seq<Level>)
    requires nodeSize >= MIN_NODE_SIZE && IsTower(recs, nodeSize, levels) && IsTower(recs, nodeSize, levels')
    requires Finished(levels) && Finished(levels')
    ensures levels == levels'
  {
    hide Greedy;
    GroupsSame(recs, LeafSize(), Room(nodeSize), levels[0].leaves, levels'[0].leaves);
    hide IsTower;
    SameShape(recs, recs, nodeSize, levels, levels');
    assert levels[0] == levels'[0];
  }

  // ----- how many nodes, how deep

  lemma {:induction false} NoMoreGroups<T>(groups: seq<seq<T>>)
    requires forall g :: 0 <= g < |groups| ==> groups[g] != []
    ensures |groups| <= |Concat(groups)|
  {
    if groups != [] {
      NoMoreGroups(groups[1..]);
    }
  }

  lemma {:induction false} NodesSoFar(recs: seq<Record>, nodeSize: nat, levels: seq<Level>, l: nat)
    requires nodeSize >= MIN_NODE_SIZE && IsTower(recs, nodeSize, levels) && NarrowKeys(recs, nodeSize)
    requires Finished(levels) && l < |levels|
    ensures Start(levels, 0, l) + 3 * levels[l].Count() <= 1 + 3 * levels[0].Count()
    decreases l
  {
    if l > 0 {
      NodesSoFar(recs, nodeSize, levels, l - 1);
      HalvesAt(recs, nodeSize, levels, l);
      assert levels[l].Count() < levels[l - 1].Count();
      CountsPositive(recs, nodeSize, levels, l);
    }
  }

  lemma HalvesAt(recs: seq<Record>, nodeSize: nat, levels: seq<Level>, l: nat)
    requires nodeSize >= MIN_NODE_SIZE && IsTower(recs, nodeSize, levels) && NarrowKeys(recs, nodeSize)
    requires 0 < l < |levels|
    ensures levels[l].Count() <= (levels[l - 1].Count() + 1) / 2
  {
    assert LevelOver(levels[l - 1], levels[l], nodeSize);
    assert IsTower(recs, nodeSize, levels[..l]);
    NarrowKeysHalve(recs, nodeSize, levels[..l], levels[l]);
  }

  lemma FewMaps(nodeSize: nat, levels: seq<Level>, m: nat)
    requires nodeSize >= MIN_NODE_SIZE && forall k :: 0 <= k < m ==> TotalNodes(levels, k) > Coverage(nodeSize, k)
    ensures m <= TotalNodes(levels, 0)
  {
    if m > 0 {
      StartShift(levels, m - 1, |levels|);
      assert TotalNodes(levels, m - 1) > Coverage(nodeSize, m - 1);
      Dominated(m - 1, MapNodeBits(nodeSize), TotalNodes(levels, 0), HeaderBits(nodeSize));
    }
  }

  lemma Dominated(m: nat, perNode: nat, nodes: nat, base: nat)
    requires perNode >= 2 && nodes + m > base + m * perNode
    ensures m < nodes
  {
    assert m * perNode >= m * 2;
  }

  const MOST_RECORDS: nat := 0x1000_0000

  /** With narrow keys and at most 2^28 records the node count stays below 2^31
      and the depth below 2^8, so neither wraps its field. */
  lemma NodesBounded(img: seq<byte>, opts: BuildOpts, recs: seq<Record>, levels: seq<Level>, mapNodes: nat, h: HeaderRec)
    requires Built(img, opts, recs, levels, mapNodes, h) && opts.nodeSize >= MIN_NODE_SIZE && NarrowKeys(recs, opts.nodeSize)
    requires |recs| <= MOST_RECORDS
    ensures h.totalNodes < 0x8000_0000 && h.treeDepth <= 29
    ensures recs != [] ==> h.treeDepth == |levels|
  {
    hide MapInPlace, LevelPlaced;
    if recs != [] {
      assert Greedy(recs, LeafSize(), Room(opts.nodeSize), levels[0].leaves);
      NoMoreGroups(levels[0].leaves);
      var top := |levels| - 1;
      NodesSoFar(recs, opts.nodeSize, levels, top);
      FewMaps(opts.nodeSize, levels, mapNodes);
      StartShift(levels, mapNodes, |levels|);
      assert Pow2(28) == MOST_RECORDS by {
        assert Pow2(7) == 128;
        assert Pow2(14) == 128 * 128;
        assert Pow2(21) == 128 * 128 * 128;
      }
      DepthIsLogarithmic(recs, opts.nodeSize, levels, 28);
    }
  }

  // ----- filling the fork

  /** A 32-bit power of two from 512 up is 512 or at least 1024, and so on. */
  lemma PowerIs(n: nat)
    requires PowerOfTwo(n) && 512 <= n <= 65536
    ensures n == 512 || n == 1024 || n == 2048 || n == 4096 || n == 8192 || n == 16384 || n == 32768 || n == 65536
  {
    assert Pow2(5) == 32 && Pow2(9) == 512;
    assert Pow2(10) == 1024 && Pow2(11) == 2048 && Pow2(12) == 4096 && Pow2(13) == 8192;
    assert Pow2(14) == 16384 && Pow2(15) == 32768;
    Bracket(n);
  }

  lemma Bracket(n: nat)
    requires PowerOfTwo(n)
    requires Pow2(9) == 512 && Pow2(10) == 1024 && Pow2(11) == 2048 && Pow2(12) == 4096 && Pow2(13) == 8192
    requires Pow2(14) == 16384 && Pow2(15) == 32768
    ensures (n < 1024 ==> n <= 512) && (n < 2048 ==> n <= 1024) && (n < 4096 ==> n <= 2048) && (n < 8192 ==> n <= 4096)
    ensures (n < 16384 ==> n <= 8192) && (n < 32768 ==> n <= 16384) && (n < 65536 ==> n <= 32768)
  {
    hide Pow2, PowerOfTwo;
    if n < 1024 { PowerBelow(n, 9); }
    if n < 2048 { PowerBelow(n, 10); }
    if n < 4096 { PowerBelow(n, 11); }
    if n < 8192 { PowerBelow(n, 12); }
    if n < 16384 { PowerBelow(n, 13); }
    if n < 32768 { PowerBelow(n, 14); }
    if n < 65536 { PowerBelow(n, 15); }
  }

  /** Blocks no larger than a node: the fork is exactly the tree. */
  lemma SmallBlocksFill(nodes: nat, nodeSize: nat, blockSize: nat, perNode: nat, blocks: nat)
    requires blockSize > 0 && nodeSize == perNode * blockSize && IsCeil(nodes * nodeSize, blockSize, blocks)
    ensures blocks * blockSize == nodes * nodeSize
  {
    assert nodes * nodeSize == nodes * perNode * blockSize;
    CeilOfMultiple(nodes * perNode, blockSize, blocks);
  }

  lemma CeilOfMultiple(q: nat, d: nat, c: nat)
    requires d > 0 && IsCeil(q * d, d, c)
    ensures c == q
  {
    Scaled(c + 1, q, d);
    Scaled(q + 1, c, d);
    assert (c + 1) * d == c * d + d && (q + 1) * d == q * d + d;
    assert (c - 1) * d == c * d - d;
  }

  /** Blocks of several nodes: the fork rounds the tree up to whole blocks, which
      stays within a map whose coverage is a whole number of blocks. */
  lemma LargeBlocksFill(nodes: nat, nodeSize: nat, blockSize: nat, perBlock: nat, blocks: nat, most: nat)
    requires nodeSize > 0 && perBlock > 0 && blockSize == perBlock * nodeSize
    requires IsCeil(nodes * nodeSize, blockSize, blocks) && nodes <= most * perBlock
    ensures blocks * blockSize == blocks * perBlock * nodeSize
    ensures nodes <= blocks * perBlock <= most * perBlock
  {
    assert blocks * blockSize == blocks * perBlock * nodeSize;
    assert (blocks - 1) * blockSize == (blocks - 1) * perBlock * nodeSize;
    Scaled(blocks * perBlock + 1, nodes, nodeSize);
    assert (blocks * perBlock + 1) * nodeSize == blocks * perBlock * nodeSize + nodeSize;
    var below := (blocks - 1) * perBlock;
    if blocks > 0 {
      Scaled(nodes, below, nodeSize);
      Scaled(most, blocks - 1, perBlock);
      assert nodes > below;
    }
    Scaled(blocks, most, perBlock);
  }

  /** A map covers a multiple of sixteen nodes. */
  lemma CoverageIsRound(nodeSize: nat, mapNodes: nat) returns (sixteens: nat)
    requires nodeSize == 4096 || nodeSize == 8192
    ensures Coverage(nodeSize, mapNodes) == 16 * sixteens
  {
    if nodeSize == 4096 {
      sixteens := 1920 + mapNodes * 2039;
    } else {
      sixteens := 3968 + mapNodes * 4087;
    }
  }

  /** The three node sizes the volume uses; the extents tree is always empty. */
  predicate VolumeTree(nodeSize: nat, nodes: nat, mapNodes: nat) {
    nodeSize == 4096 || nodeSize == 8192 || (nodeSize == 1024 && nodes == 1 && mapNodes == 0)
  }

  /** For block sizes up to 64 KiB a fork of just enough blocks is a whole number
      of nodes, all within the map's coverage: padding cannot fail. */
  lemma ForkFilled(nodes: nat, mapNodes: nat, nodeSize: nat, blockSize: nat, blocks: nat) returns (total: nat)
    requires VolumeTree(nodeSize, nodes, mapNodes) && 1 <= nodes <= Coverage(nodeSize, mapNodes)
    requires PowerOfTwo(blockSize) && 512 <= blockSize <= 65536
    requires IsCeil(nodes * nodeSize, blockSize, blocks)
    ensures total * nodeSize == blocks * blockSize && nodes <= total <= Coverage(nodeSize, mapNodes)
  {
    PowerIs(blockSize);
    hide PowerOfTwo, IsCeil, Coverage;
    var ratio := Ratio(nodeSize, blockSize);
    if blockSize <= nodeSize {
      SmallBlocksFill(nodes, nodeSize, blockSize, ratio, blocks);
      total := nodes;
    } else {
      var most := CoverageInBlocks(nodeSize, mapNodes, ratio);
      LargeBlocksFill(nodes, nodeSize, blockSize, ratio, blocks, most);
      total := blocks * ratio;
    }
  }

  /** Of a block and a node one is a multiple of the other. */
  lemma Ratio(nodeSize: nat, blockSize: nat) returns (k: nat)
    requires nodeSize == 4096 || nodeSize == 8192 || nodeSize == 1024
    requires blockSize == 512 || blockSize == 1024 || blockSize == 2048 || blockSize == 4096 || blockSize == 8192
             || blockSize == 16384 || blockSize == 32768 || blockSize == 65536
    ensures blockSize <= nodeSize ==> nodeSize == k * blockSize
    ensures blockSize > nodeSize ==> blockSize == k * nodeSize && (k == 2 || k == 4 || k == 8 || k == 16 || (nodeSize == 1024 && (k == 32 || k == 64)))
  {
    k := if blockSize <= nodeSize then nodeSize / blockSize else blockSize / nodeSize;
  }

  lemma CoverageInBlocks(nodeSize: nat, mapNodes: nat, k: nat) returns (most: nat)
    requires nodeSize == 4096 || nodeSize == 8192 || (nodeSize == 1024 && mapNodes == 0)
    requires k == 2 || k == 4 || k == 8 || k == 16 || (nodeSize == 1024 && (k == 32 || k == 64))
    ensures Coverage(nodeSize, mapNodes) == most * k
  {
    if nodeSize == 1024 {
      assert Coverage(nodeSize, mapNodes) == 6144;
      most := 6144 / k;
    } else {
      var sixteens := CoverageIsRound(nodeSize, mapNodes);
      hide Coverage;
      most := sixteens * (16 / k);
      Regrouped(sixteens, k);
    }
  }

  lemma Regrouped(sixteens: nat, k: nat)
    requires k == 2 || k == 4 || k == 8 || k == 16
    ensures sixteens * (16 / k) * k == 16 * sixteens
  {
  }
}
