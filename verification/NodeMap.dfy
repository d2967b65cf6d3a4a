/** The allocation map of a B-tree: one bit per node, in the header node's third
    record and, past its capacity, in a chain of map nodes that the map has to
    describe as well. */
module NodeMap {
  import opened Bytes
  import opened Bits
  import opened Tower
  import opened NodeCodec
  import opened TreeReader

  const HEADER_REC_SIZE: nat := 106
  const USER_DATA_SIZE: nat := 128
  const MAP_OFFSET: nat := DESCRIPTOR_SIZE + HEADER_REC_SIZE + USER_DATA_SIZE

  /** Bits in the header node's map record. */
  function HeaderBits(nodeSize: nat): (n: nat)
    requires nodeSize >= MIN_NODE_SIZE
  {
    (nodeSize - DESCRIPTOR_SIZE - 4 * 2 - HEADER_REC_SIZE - USER_DATA_SIZE) * 8
  }

  /** Bits in one chained map node. */
  function MapNodeBits(nodeSize: nat): (n: nat)
    requires nodeSize >= MIN_NODE_SIZE
    ensures n > 8
  {
    (nodeSize - DESCRIPTOR_SIZE - 2 * 2) * 8
  }

  /** How many node numbers a map with `mapNodes` chained nodes describes. */
  function Coverage(nodeSize: nat, mapNodes: nat): nat
    requires nodeSize >= MIN_NODE_SIZE
  {
    HeaderBits(nodeSize) + mapNodes * MapNodeBits(nodeSize)
  }

  /** The fewest map nodes that can describe the tree and themselves. */
  method CountMapNodes(nodes: nat, nodeSize: nat) returns (mapNodes: nat)
    requires nodeSize >= MIN_NODE_SIZE
    ensures nodes + mapNodes <= Coverage(nodeSize, mapNodes)
    ensures forall m :: 0 <= m < mapNodes ==> nodes + m > Coverage(nodeSize, m)
  {
    mapNodes := 0;
    var total := nodes;
    while total > HeaderBits(nodeSize) + mapNodes * MapNodeBits(nodeSize)
      invariant total == nodes + mapNodes
      invariant forall m :: 0 <= m < mapNodes ==> nodes + m > Coverage(nodeSize, m)
      decreases nodes - mapNodes
    {
      assert mapNodes * MapNodeBits(nodeSize) >= mapNodes * 2;
      mapNodes := mapNodes + 1;
      total := total + 1;
    }
  }

  /** The stretch marks exactly the numbers below `total`, its first bit standing
      for `first`. */
  ghost predicate CountsUpTo(bs: seq<byte>, first: nat, total: nat) {
    forall n :: 0 <= n < 8 * |bs| ==> (BitAt(bs, n) <==> first + n < total)
  }

  lemma CountsConcat(a: seq<byte>, b: seq<byte>, first: nat, total: nat)
    requires CountsUpTo(a, first, total) && CountsUpTo(b, first + 8 * |a|, total)
    ensures CountsUpTo(a + b, first, total)
  {
    forall n | 0 <= n < 8 * |a + b| ensures BitAt(a + b, n) <==> first + n < total {
      if n >= 8 * |a| {
        assert (a + b)[n / 8] == b[n / 8 - |a|];
        assert BitAt(b, n - 8 * |a|) <==> first + 8 * |a| + (n - 8 * |a|) < total;
      } else {
        assert (a + b)[n / 8] == a[n / 8];
        assert BitAt(a, n) <==> first + n < total;
      }
    }
  }

  lemma MarkOne(bs: seq<byte>, first: nat, n: nat)
    requires n < 8 * |bs| && CountsUpTo(bs, first, first + n)
    ensures CountsUpTo(bs[n / 8 := SetBit(bs[n / 8], n % 8)], first, first + n + 1)
  {
    var after := bs[n / 8 := SetBit(bs[n / 8], n % 8)];
    forall m | 0 <= m < 8 * |bs| ensures BitAt(after, m) <==> first + m < first + n + 1 {
      SetBitAt(bs, n, m);
      assert BitAt(bs, m) <==> first + m < first + n;
    }
  }

  /** Marks numbers from `first` up to `total`, stopping where the record ends. */
  method MarkBits(out: array<byte>, at: nat, len: nat, first: nat, total: nat)
    requires at + len <= out.Length
    requires forall i :: at <= i < at + len ==> out[i] == 0
    modifies out
    ensures Only(old(out[..]), out[..], at, at + len)
    ensures CountsUpTo(out[..][at..at + len], first, total)
  {
    hide BitAt, SetBit, Only;
    ghost var before := out[..];
    NothingChanged(before, at, at + len);
    ghost var bs := out[..][at..at + len];
    NothingMarked(bs, first);
    var n := first;
    while n < total
      invariant first <= n && n <= first + 8 * len && (total <= first ==> n == first) && (first <= total ==> n <= total)
      invariant Only(before, out[..], at, at + len)
      invariant bs == out[..][at..at + len] && CountsUpTo(bs, first, n)
      decreases total - n
    {
      var k := n - first;
      if k / 8 >= len {
        break;
      }
      MarkOne(bs, first, k);
      assert bs[k / 8] == out[at + k / 8];
      var marked := SetBit(out[at + k / 8], k % 8);
      OnlySplice(before, out[..], at + k / 8, [marked], at, at + len);
      PutOne(out[..], at, len, k / 8, marked);
      bs := bs[k / 8 := marked];
      assert out[..][at + k / 8 := marked] == Splice(out[..], at + k / 8, [marked]);
      out[at + k / 8] := marked;
      n := n + 1;
    }
    assert CountsUpTo(bs, first, total) by { CountsBeyond(bs, first, n, total); }
  }

  lemma PutOne(s: seq<byte>, at: nat, len: nat, k: nat, b: byte)
    requires at + len <= |s| && k < len
    ensures s[at + k := b][at..at + len] == s[at..at + len][k := b]
  {
  }

  lemma NothingMarked(bs: seq<byte>, first: nat)
    requires forall i :: 0 <= i < |bs| ==> bs[i] == 0
    ensures CountsUpTo(bs, first, first)
  {
    forall n | 0 <= n < 8 * |bs| ensures !BitAt(bs, n) {
      ZeroHasNoBit(n % 8);
    }
  }

  /** Either everything below `total` is marked, or the record is full. */
  lemma CountsBeyond(bs: seq<byte>, first: nat, n: nat, total: nat)
    requires CountsUpTo(bs, first, n) && (n >= total || n >= first + 8 * |bs|)
    requires total <= first ==> n == first
    requires first <= total ==> n <= total
    ensures CountsUpTo(bs, first, total)
  {
    hide BitAt;
    forall k | 0 <= k < 8 * |bs| ensures BitAt(bs, k) <==> first + k < total {
      assert BitAt(bs, k) <==> first + k < n;
    }
  }

  // ----- the header node

  datatype HeaderRec = HeaderRec(
    treeDepth: nat, rootNode: nat, leafRecords: nat, firstLeaf: nat, lastLeaf: nat,
    nodeSize: nat, maxKeyLength: nat, totalNodes: nat, freeNodes: nat,
    clumpSize: nat, btreeType: byte, keyCompareType: byte, attributes: nat)

  function HeaderFront(h: HeaderRec): (b: seq<byte>)
    ensures |b| == 22
  {
    U16(h.treeDepth) + U32(h.rootNode) + U32(h.leafRecords) + U32(h.firstLeaf) + U32(h.lastLeaf)
    + U16(h.nodeSize) + U16(h.maxKeyLength)
  }

  function HeaderBack(h: HeaderRec): (b: seq<byte>)
    ensures |b| == HEADER_REC_SIZE - 22
  {
    U32(h.totalNodes) + U32(h.freeNodes) + U16(0) + U32(h.clumpSize) + [h.btreeType, h.keyCompareType]
    + U32(h.attributes) + Zero(64)
  }

  function HeaderBytes(h: HeaderRec): (b: seq<byte>)
    ensures |b| == HEADER_REC_SIZE
  {
    HeaderFront(h) + HeaderBack(h)
  }

  /** What the header node says, once written. */
  ghost predicate HeaderHolds(node: seq<byte>, h: HeaderRec, mapNodes: nat, total: nat) {
    && MIN_NODE_SIZE <= |node| <= MAX_NODE_SIZE
    && node[..DESCRIPTOR_SIZE] == DescBytes(Desc(if mapNodes > 0 then 1 else 0, 0, HEADER_KIND, 0, 3))
    && node[DESCRIPTOR_SIZE..DESCRIPTOR_SIZE + HEADER_REC_SIZE] == HeaderBytes(h)
    && Blank(node, DESCRIPTOR_SIZE + HEADER_REC_SIZE, MAP_OFFSET)
    && CountsUpTo(node[MAP_OFFSET..|node| - 8], 0, total)
    && node[|node| - 8..] == Table([DESCRIPTOR_SIZE, DESCRIPTOR_SIZE + HEADER_REC_SIZE, MAP_OFFSET, |node| - 8])
  }

  ghost predicate MapHolds(node: seq<byte>, next: nat, first: nat, total: nat) {
    && MIN_NODE_SIZE <= |node| <= MAX_NODE_SIZE
    && node[..DESCRIPTOR_SIZE] == DescBytes(Desc(next, 0, MAP_KIND, 0, 1))
    && CountsUpTo(node[DESCRIPTOR_SIZE..|node| - 4], first, total)
    && node[|node| - 4..] == Table([DESCRIPTOR_SIZE, |node| - 4])
  }

  method EmitHeaderNode(out: array<byte>, nodeSize: nat, h: HeaderRec, total: nat, mapNodes: nat)
    requires MIN_NODE_SIZE <= nodeSize <= MAX_NODE_SIZE && nodeSize <= out.Length && Blank(out[..], 0, nodeSize)
    modifies out
    ensures Only(old(out[..]), out[..], 0, nodeSize)
    ensures HeaderHolds(out[..][..nodeSize], h, mapNodes, total)
  {
    hide DescBytes, HeaderBytes, Table, CountsUpTo, Only, Splice;
    ghost var s0 := out[..];
    var desc := Desc(if mapNodes > 0 then 1 else 0, 0, HEADER_KIND, 0, 3);
    PutDesc(out, 0, desc);
    ghost var s1 := out[..];
    Put(out, DESCRIPTOR_SIZE, HeaderBytes(h));
    ghost var s2 := out[..];
    MapRecordBlank(s0, s1, s2, nodeSize, desc, h);
    MarkBits(out, MAP_OFFSET, nodeSize - 8 - MAP_OFFSET, 0, total);
    ghost var s3 := out[..];
    PutTable(out, nodeSize, [DESCRIPTOR_SIZE, DESCRIPTOR_SIZE + HEADER_REC_SIZE, MAP_OFFSET, nodeSize - 8]);
    HeaderAssembled(s0, s1, s2, s3, out[..], nodeSize, desc, h);
    UserRecordBlank(s2, s3, out[..], nodeSize);
  }

  lemma MapRecordBlank(s0: seq<byte>, s1: seq<byte>, s2: seq<byte>, nodeSize: nat, desc: Desc, h: HeaderRec)
    requires MIN_NODE_SIZE <= nodeSize && Blank(s0, 0, nodeSize)
    requires s1 == Splice(s0, 0, DescBytes(desc)) && s2 == Splice(s1, DESCRIPTOR_SIZE, HeaderBytes(h))
    ensures Blank(s2, DESCRIPTOR_SIZE + HEADER_REC_SIZE, nodeSize)
    ensures forall i :: MAP_OFFSET <= i < nodeSize - 8 ==> s2[i] == 0
  {
    hide DescBytes, HeaderBytes;
    assert forall i :: DESCRIPTOR_SIZE + HEADER_REC_SIZE <= i < nodeSize ==> s2[i] == s0[i];
  }

  /** The reserved user record stays blank. */
  lemma UserRecordBlank(s2: seq<byte>, s3: seq<byte>, s4: seq<byte>, nodeSize: nat)
    requires MIN_NODE_SIZE <= nodeSize <= |s2| && Blank(s2, DESCRIPTOR_SIZE + HEADER_REC_SIZE, nodeSize)
    requires Only(s2, s3, MAP_OFFSET, nodeSize - 8) && Only(s3, s4, nodeSize - 8, nodeSize)
    ensures Blank(s4[..nodeSize], DESCRIPTOR_SIZE + HEADER_REC_SIZE, MAP_OFFSET)
  {
    var at := DESCRIPTOR_SIZE + HEADER_REC_SIZE;
    BlankPart(s2, at, nodeSize, at, MAP_OFFSET);
    BlankKept(s2, s3, MAP_OFFSET, nodeSize - 8, at, MAP_OFFSET);
    BlankKept(s3, s4, nodeSize - 8, nodeSize, at, MAP_OFFSET);
  }

  /** Four writes to separate stretches of the node, put together. */
  lemma HeaderAssembled(s0: seq<byte>, s1: seq<byte>, s2: seq<byte>, s3: seq<byte>, s4: seq<byte>,
                        nodeSize: nat, desc: Desc, h: HeaderRec)
    requires MIN_NODE_SIZE <= nodeSize <= |s0|
    requires s1 == Splice(s0, 0, DescBytes(desc)) && s2 == Splice(s1, DESCRIPTOR_SIZE, HeaderBytes(h))
    requires Only(s2, s3, MAP_OFFSET, nodeSize - 8) && Only(s3, s4, nodeSize - 8, nodeSize)
    ensures Only(s0, s4, 0, nodeSize)
    ensures s4[..nodeSize][..DESCRIPTOR_SIZE] == DescBytes(desc)
    ensures s4[..nodeSize][DESCRIPTOR_SIZE..DESCRIPTOR_SIZE + HEADER_REC_SIZE] == HeaderBytes(h)
    ensures s4[..nodeSize][MAP_OFFSET..nodeSize - 8] == s3[MAP_OFFSET..nodeSize - 8]
    ensures s4[..nodeSize][nodeSize - 8..] == s4[nodeSize - 8..nodeSize]
  {
    hide DescBytes, HeaderBytes;
    var top := DESCRIPTOR_SIZE + HEADER_REC_SIZE;
    SpliceSame(s0, 0, DescBytes(desc));
    SpliceSame(s1, DESCRIPTOR_SIZE, HeaderBytes(h));
    SpliceOther(s1, DESCRIPTOR_SIZE, HeaderBytes(h), 0, DESCRIPTOR_SIZE);
    SameBelow(s2, s3, MAP_OFFSET, 0, DESCRIPTOR_SIZE);
    SameBelow(s2, s3, MAP_OFFSET, DESCRIPTOR_SIZE, top);
    SameBelow(s3, s4, nodeSize - 8, 0, DESCRIPTOR_SIZE);
    SameBelow(s3, s4, nodeSize - 8, DESCRIPTOR_SIZE, top);
    SameBelow(s3, s4, nodeSize - 8, MAP_OFFSET, nodeSize - 8);
    SameAbove(s2, s3, nodeSize - 8, nodeSize, |s0|);
    SpliceOther(s0, 0, DescBytes(desc), nodeSize, |s0|);
    SpliceOther(s1, DESCRIPTOR_SIZE, HeaderBytes(h), nodeSize, |s0|);
    hide Splice;
    assert s4[nodeSize..] == s3[nodeSize..|s0|] == s0[nodeSize..|s0|];
    var node := s4[..nodeSize];
    assert node[..DESCRIPTOR_SIZE] == s4[0..DESCRIPTOR_SIZE];
    assert node[DESCRIPTOR_SIZE..top] == s4[DESCRIPTOR_SIZE..top];
    assert node[MAP_OFFSET..nodeSize - 8] == s4[MAP_OFFSET..nodeSize - 8];
  }

  method EmitMapNode(out: array<byte>, base: nat, nodeSize: nat, next: nat, first: nat, total: nat)
    requires MIN_NODE_SIZE <= nodeSize <= MAX_NODE_SIZE && base + nodeSize <= out.Length
    requires Blank(out[..], base, base + nodeSize)
    modifies out
    ensures Only(old(out[..]), out[..], base, base + nodeSize)
    ensures MapHolds(out[..][base..base + nodeSize], next, first, total)
  {
    hide DescBytes, Table, CountsUpTo, Only;
    ghost var s0 := out[..];
    var desc := Desc(next, 0, MAP_KIND, 0, 1);
    PutDesc(out, base, desc);
    ghost var s1 := out[..];
    PutTable(out, base + nodeSize, [DESCRIPTOR_SIZE, nodeSize - 4]);
    ghost var s2 := out[..];
    MapStillBlank(s0, s1, s2, base, nodeSize, desc);
    MarkBits(out, base + DESCRIPTOR_SIZE, nodeSize - 4 - DESCRIPTOR_SIZE, first, total);
    MapAssembled(s0, s1, s2, out[..], base, nodeSize, desc);
  }

  lemma MapStillBlank(s0: seq<byte>, s1: seq<byte>, s2: seq<byte>, base: nat, nodeSize: nat, desc: Desc)
    requires MIN_NODE_SIZE <= nodeSize && base + nodeSize <= |s0| && Blank(s0, base, base + nodeSize)
    requires s1 == Splice(s0, base, DescBytes(desc))
    requires Only(s1, s2, base + nodeSize - 4, base + nodeSize)
    ensures |s2| == |s0| && forall i :: base + DESCRIPTOR_SIZE <= i < base + nodeSize - 4 ==> s2[i] == 0
  {
    hide DescBytes;
    forall i | base + DESCRIPTOR_SIZE <= i < base + nodeSize - 4 ensures s2[i] == 0 {
      assert s2[..base + nodeSize - 4][i] == s1[..base + nodeSize - 4][i];
      assert s1[i] == s0[i];
    }
  }

  lemma MapAssembled(s0: seq<byte>, s1: seq<byte>, s2: seq<byte>, s3: seq<byte>, base: nat, nodeSize: nat, desc: Desc)
    requires MIN_NODE_SIZE <= nodeSize && base + nodeSize <= |s0|
    requires s1 == Splice(s0, base, DescBytes(desc))
    requires Only(s1, s2, base + nodeSize - 4, base + nodeSize)
    requires Only(s2, s3, base + DESCRIPTOR_SIZE, base + nodeSize - 4)
    ensures Only(s0, s3, base, base + nodeSize)
    ensures var node := s3[base..base + nodeSize];
      && node[..DESCRIPTOR_SIZE] == DescBytes(desc)
      && node[DESCRIPTOR_SIZE..nodeSize - 4] == s3[base + DESCRIPTOR_SIZE..base + nodeSize - 4]
      && node[nodeSize - 4..] == s2[base + nodeSize - 4..base + nodeSize]
  {
    hide DescBytes;
    var end := base + nodeSize;
    SpliceSame(s0, base, DescBytes(desc));
    SpliceOther(s0, base, DescBytes(desc), 0, base);
    SpliceOther(s0, base, DescBytes(desc), end, |s0|);
    hide Splice;
    SameBelow(s1, s2, end - 4, 0, base);
    SameBelow(s1, s2, end - 4, base, base + DESCRIPTOR_SIZE);
    SameBelow(s2, s3, base + DESCRIPTOR_SIZE, 0, base);
    SameBelow(s2, s3, base + DESCRIPTOR_SIZE, base, base + DESCRIPTOR_SIZE);
    SameAbove(s1, s2, end, end, |s0|);
    SameAbove(s2, s3, end - 4, end, |s0|);
    SameAbove(s2, s3, end - 4, end - 4, end);
    assert s3[0..base] == s3[..base] && s0[0..base] == s0[..base];
    assert s3[end..|s0|] == s3[end..] && s0[end..|s0|] == s0[end..];
    SubSlice(s3, base, end, 0, DESCRIPTOR_SIZE);
    SubSlice(s3, base, end, DESCRIPTOR_SIZE, nodeSize - 4);
    SubSlice(s3, base, end, nodeSize - 4, nodeSize);
    var node := s3[base..end];
    assert node[0..DESCRIPTOR_SIZE] == node[..DESCRIPTOR_SIZE];
    assert node[nodeSize - 4..nodeSize] == node[nodeSize - 4..];
  }

  // ----- reading the map

  /** Record `i` of a node as raw bytes, by the offset table. */
  function RawRecord(node: seq<byte>, i: nat): seq<byte>
  {
    if 2 * (i + 2) > |node| then []
    else
      var off, next := Get16(node, |node| - 2 * (i + 1)), Get16(node, |node| - 2 * (i + 2));
      if off <= next <= |node| then node[off..next] else []
  }

  /** The map records of the chain starting at node `num`. */
  function MapChain(img: seq<byte>, nodeSize: nat, num: nat, most: nat): seq<byte>
    decreases most
  {
    if most == 0 || num == 0 || !HasNode(img, nodeSize, num) then []
    else
      var node := NodeAt(img, nodeSize, num);
      if KindOf(node) != MAP_KIND then []
      else RawRecord(node, 0) + MapChain(img, nodeSize, FLink(node), most - 1)
  }

  /** The whole allocation map: the header's third record, then the chain. */
  function WholeMap(img: seq<byte>, nodeSize: nat, most: nat): seq<byte>
  {
    if !HasNode(img, nodeSize, 0) then []
    else
      var node := NodeAt(img, nodeSize, 0);
      RawRecord(node, 2) + MapChain(img, nodeSize, FLink(node), most)
  }

  lemma TableReads(node: seq<byte>, offsets: seq<nat>, i: nat)
    requires 2 * |offsets| <= |node| && node[|node| - 2 * |offsets|..] == Table(offsets)
    requires i < |offsets| && offsets[i] < 0x1_0000
    ensures Get16(node, |node| - 2 * (i + 1)) == offsets[i]
  {
    hide Table, U16, Get16;
    TableAt(offsets, i);
    var at, m := |node| - 2 * (i + 1), |offsets|;
    assert node[|node| - 2 * m..] == node[|node| - 2 * m..|node|];
    SubSlice(node, |node| - 2 * m, |node|, 2 * (m - 1 - i), 2 * (m - i));
    Get16Slice(node, at, offsets[i]);
  }

  lemma HeaderReads(node: seq<byte>, h: HeaderRec, mapNodes: nat, total: nat)
    requires HeaderHolds(node, h, mapNodes, total)
    ensures RawRecord(node, 2) == node[MAP_OFFSET..|node| - 8]
    ensures FLink(node) == if mapNodes > 0 then 1 else 0
    ensures KindOf(node) == HEADER_KIND && NumRecords(node) == 3
  {
    hide Table, HeaderBytes, CountsUpTo, Get16;
    var offsets := [DESCRIPTOR_SIZE, DESCRIPTOR_SIZE + HEADER_REC_SIZE, MAP_OFFSET, |node| - 8];
    TableReads(node, offsets, 2);
    TableReads(node, offsets, 3);
    PlainDescReads(node, Desc(if mapNodes > 0 then 1 else 0, 0, HEADER_KIND, 0, 3));
  }

  lemma PlainDescReads(node: seq<byte>, desc: Desc)
    requires |node| >= DESCRIPTOR_SIZE && node[..DESCRIPTOR_SIZE] == DescBytes(desc)
    ensures KindOf(node) == desc.kind && HeightOf(node) == desc.height
    ensures FLink(node) == desc.fLink % 0x1_0000_0000 && BLink(node) == desc.bLink % 0x1_0000_0000
    ensures NumRecords(node) == desc.numRecords % 0x1_0000
  {
    var d := DescBytes(desc);
    DescFields(desc);
    hide DescBytes, U16, U32;
    assert node[0..4] == d[0..4] && node[4..8] == d[4..8] && node[10..12] == d[10..12];
    assert node[8] == d[8] && node[9] == d[9];
    Get32Slice(node, 0, desc.fLink);
    Get32Slice(node, 4, desc.bLink);
    Get16Slice(node, 10, desc.numRecords);
  }

  lemma MapReads(node: seq<byte>, next: nat, first: nat, total: nat)
    requires MapHolds(node, next, first, total)
    ensures RawRecord(node, 0) == node[DESCRIPTOR_SIZE..|node| - 4]
    ensures FLink(node) == next % 0x1_0000_0000 && KindOf(node) == MAP_KIND
  {
    hide Table, CountsUpTo, Get16;
    var offsets := [DESCRIPTOR_SIZE, |node| - 4];
    TableReads(node, offsets, 0);
    TableReads(node, offsets, 1);
    PlainDescReads(node, Desc(next, 0, MAP_KIND, 0, 1));
  }

  /** The header node and map nodes 1 to `mapNodes` are in place. */
  ghost predicate MapInPlace(img: seq<byte>, nodeSize: nat, h: HeaderRec, mapNodes: nat, total: nat) {
    && MIN_NODE_SIZE <= nodeSize
    && HasNode(img, nodeSize, 0) && HeaderHolds(NodeAt(img, nodeSize, 0), h, mapNodes, total)
    && forall i :: 0 <= i < mapNodes ==> MapNodeInPlace(img, nodeSize, mapNodes, total, i)
  }

  ghost predicate MapNodeInPlace(img: seq<byte>, nodeSize: nat, mapNodes: nat, total: nat, i: nat)
    requires MIN_NODE_SIZE <= nodeSize
  {
    && HasNode(img, nodeSize, 1 + i)
    && MapHolds(NodeAt(img, nodeSize, 1 + i), if i + 1 < mapNodes then 1 + i + 1 else 0,
                Coverage(nodeSize, i), total)
  }

  lemma CoverageStep(nodeSize: nat, i: nat, mapNodes: nat)
    requires MIN_NODE_SIZE <= nodeSize && i < mapNodes
    ensures Coverage(nodeSize, i + 1) == Coverage(nodeSize, i) + MapNodeBits(nodeSize)
    ensures (mapNodes - i) * MapNodeBits(nodeSize) == MapNodeBits(nodeSize) + (mapNodes - (i + 1)) * MapNodeBits(nodeSize)
  {
    hide MapNodeBits;
  }

  lemma MapRecordSize(node: seq<byte>, next: nat, first: nat, total: nat)
    requires MapHolds(node, next, first, total)
    ensures 8 * |RawRecord(node, 0)| == MapNodeBits(|node|)
    ensures CountsUpTo(RawRecord(node, 0), first, total)
  {
    hide CountsUpTo;
    MapReads(node, next, first, total);
    hide RawRecord, Table;
  }

  /** One map node of the chain, and what follows it. */
  lemma ChainUnfold(img: seq<byte>, nodeSize: nat, mapNodes: nat, total: nat, i: nat, most: nat) returns (bs: seq<byte>)
    requires MIN_NODE_SIZE <= nodeSize && i < mapNodes < 0x1_0000_0000 && most >= 1
    requires MapNodeInPlace(img, nodeSize, mapNodes, total, i)
    ensures MapChain(img, nodeSize, 1 + i, most)
         == bs + if i + 1 < mapNodes then MapChain(img, nodeSize, 1 + i + 1, most - 1) else []
    ensures 8 * |bs| == MapNodeBits(nodeSize) && CountsUpTo(bs, Coverage(nodeSize, i), total)
  {
    hide BitAt, NodeAt, RawRecord, Coverage, MapNodeBits, CountsUpTo, MapHolds;
    var node := NodeAt(img, nodeSize, 1 + i);
    var next := if i + 1 < mapNodes then 1 + i + 1 else 0;
    bs := RawRecord(node, 0);
    MapReads(node, next, Coverage(nodeSize, i), total);
    MapRecordSize(node, next, Coverage(nodeSize, i), total);
    assert MapChain(img, nodeSize, 0, most - 1) == [];
  }

  lemma {:induction false} ChainCounts(img: seq<byte>, nodeSize: nat, h: HeaderRec, mapNodes: nat, total: nat,
                                       i: nat, most: nat)
    requires MapInPlace(img, nodeSize, h, mapNodes, total) && i < mapNodes < 0x1_0000_0000 && most >= mapNodes - i
    ensures 8 * |MapChain(img, nodeSize, 1 + i, most)| == (mapNodes - i) * MapNodeBits(nodeSize)
    ensures CountsUpTo(MapChain(img, nodeSize, 1 + i, most), Coverage(nodeSize, i), total)
    decreases mapNodes - i
  {
    hide Coverage, MapNodeBits, CountsUpTo, HeaderHolds, MapChain;
    assert MapNodeInPlace(img, nodeSize, mapNodes, total, i);
    hide MapNodeInPlace;
    var bs := ChainUnfold(img, nodeSize, mapNodes, total, i, most);
    CoverageStep(nodeSize, i, mapNodes);
    if i + 1 < mapNodes {
      ChainCounts(img, nodeSize, h, mapNodes, total, i + 1, most - 1);
      CountsConcat(bs, MapChain(img, nodeSize, 1 + i + 1, most - 1), Coverage(nodeSize, i), total);
    } else {
      assert bs + [] == bs;
    }
  }

  /** Across header record and chain, a node's bit is set exactly when the node
      is in use, and the map has a bit for every number it claims to cover. */
  lemma WholeMapCounts(img: seq<byte>, nodeSize: nat, h: HeaderRec, mapNodes: nat, total: nat, most: nat)
    requires MapInPlace(img, nodeSize, h, mapNodes, total) && mapNodes < 0x1_0000_0000 && most >= mapNodes
    ensures 8 * |WholeMap(img, nodeSize, most)| == Coverage(nodeSize, mapNodes)
    ensures CountsUpTo(WholeMap(img, nodeSize, most), 0, total)
  {
    hide BitAt, NodeAt, RawRecord;
    var node := NodeAt(img, nodeSize, 0);
    HeaderReads(node, h, mapNodes, total);
    if mapNodes > 0 {
      ChainCounts(img, nodeSize, h, mapNodes, total, 0, most);
      CountsConcat(RawRecord(node, 2), MapChain(img, nodeSize, 1, most), 0, total);
    } else {
      assert MapChain(img, nodeSize, 0, most) == [];
      assert RawRecord(node, 2) + [] == RawRecord(node, 2);
    }
  }
}
