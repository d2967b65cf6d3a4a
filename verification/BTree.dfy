/** `BuildTree` and `PadToBlocks`: the packed tree as bytes, and what a reader
    gets out of it. */
module BTree {
  import opened Bytes
  import opened Bits
  import opened Wrappers
  import opened Seqs
  import opened Tower
  import opened NodeCodec
  import opened TreeReader
  import opened NodeMap
  import opened TreeBytes

  datatype BuildOpts = BuildOpts(nodeSize: nat, attributes: nat, keyCompareType: byte, btreeType: byte,
                                 maxKeyLength: nat, clumpSize: nat)

  predicate PowerOfTwo(n: nat) {
    n == 1 || (n > 1 && n % 2 == 0 && PowerOfTwo(n / 2))
  }

  lemma {:induction false} PowersOnly(n: nat)
    ensures PowerOfTwo(n) <==> exists k: nat :: n == Pow2(k)
    decreases n
  {
    if n > 1 && n % 2 == 0 {
      PowersOnly(n / 2);
      if PowerOfTwo(n / 2) {
        var k: nat :| n / 2 == Pow2(k);
        assert n == Pow2(k + 1);
      }
      if k: nat :| n == Pow2(k) {
        assert n / 2 == Pow2(k - 1);
      }
    } else {
      assert Pow2(0) == 1;
      if k: nat :| n == Pow2(k) {
        assert k == 0;
      }
    }
  }

  lemma {:induction false} PowerBelow(n: nat, k: nat)
    requires PowerOfTwo(n) && n < 2 * Pow2(k)
    ensures n <= Pow2(k)
    decreases k
  {
    if k > 0 && n > 1 {
      PowerBelow(n / 2, k - 1);
    }
  }

  /** A 16-bit power of two is at most 2^15. */
  lemma NodeSizeBound(n: nat)
    requires PowerOfTwo(n) && n < 0x1_0000
    ensures n <= MAX_NODE_SIZE
  {
    assert Pow2(15) == 0x8000 by {
      assert Pow2(5) == 32;
      assert Pow2(10) == 1024;
    }
    PowerBelow(n, 15);
  }

  // ----- frames

  lemma Times(a: nat, b: nat, m: nat)
    requires a <= b
    ensures a * m <= b * m && (a + 1) * m == a * m + m
  {
  }

  /** A write outside a node leaves it. */
  lemma NodeKept(s: seq<byte>, t: seq<byte>, nodeSize: nat, num: nat, lo: nat, hi: nat)
    requires Only(s, t, lo, hi) && HasNode(s, nodeSize, num)
    requires num * nodeSize + nodeSize <= lo || hi <= num * nodeSize
    ensures HasNode(t, nodeSize, num) && NodeAt(t, nodeSize, num) == NodeAt(s, nodeSize, num)
  {
    if num * nodeSize + nodeSize <= lo {
      SameBelow(s, t, lo, num * nodeSize, num * nodeSize + nodeSize);
    } else {
      SameAbove(s, t, hi, num * nodeSize, num * nodeSize + nodeSize);
    }
  }

  lemma OnlyWithin<T>(a: seq<T>, b: seq<T>, c: seq<T>, lo: nat, hi: nat, lo': nat, hi': nat)
    requires Only(a, b, lo, hi) && Only(b, c, lo', hi') && lo <= lo' && hi' <= hi
    ensures Only(a, c, lo, hi)
  {
    SameBelow(b, c, lo', 0, lo);
    SameAbove(b, c, hi', hi, |a|);
    assert c[0..lo] == c[..lo] && b[0..lo] == b[..lo];
    assert c[hi..|a|] == c[hi..] && b[hi..|a|] == b[hi..];
  }

  lemma OnlyWider<T>(a: seq<T>, b: seq<T>, lo: nat, hi: nat, lo': nat, hi': nat)
    requires Only(a, b, lo, hi) && lo' <= lo && hi <= hi' <= |a|
    ensures Only(a, b, lo', hi')
  {
    SameBelow(a, b, lo, 0, lo');
    SameAbove(a, b, hi, hi', |a|);
    assert a[0..lo'] == a[..lo'] && b[0..lo'] == b[..lo'];
    assert a[hi'..|a|] == a[hi'..] && b[hi'..|a|] == b[hi'..];
  }

  // ----- emitting the nodes of one level

  ghost predicate NodesPlaced(img: seq<byte>, nodeSize: nat, start: nat, nodes: seq<seq<Record>>, n: nat,
                              kind: byte, height: nat)
    requires height < 0x100 && n <= |nodes|
  {
    forall i :: 0 <= i < n ==> NodePlaced(img, nodeSize, start, |nodes|, i, kind, height, nodes[i])
  }

  lemma NodesKept(s: seq<byte>, t: seq<byte>, nodeSize: nat, start: nat, nodes: seq<seq<Record>>, n: nat,
                  kind: byte, height: nat, lo: nat, hi: nat)
    requires height < 0x100 && n <= |nodes| && NodesPlaced(s, nodeSize, start, nodes, n, kind, height)
    requires Only(s, t, lo, hi) && ((start + n) * nodeSize <= lo || hi <= start * nodeSize)
    ensures NodesPlaced(t, nodeSize, start, nodes, n, kind, height)
  {
    hide PageHolds, NodeAt, Only, HasNode, DescAt;
    forall i | 0 <= i < n ensures NodePlaced(t, nodeSize, start, |nodes|, i, kind, height, nodes[i]) {
      assert NodePlaced(s, nodeSize, start, |nodes|, i, kind, height, nodes[i]);
      Times(start + i + 1, start + n, nodeSize);
      Times(start, start + i, nodeSize);
      Times(start + i, start + i, nodeSize);
      NodeKept(s, t, nodeSize, start + i, lo, hi);
    }
  }

  method EmitLevel(out: array<byte>, nodeSize: nat, numbers: seq<nat>, nodes: seq<seq<Record>>,
                   kind: byte, height: nat)
    requires height < 0x100 && DESCRIPTOR_SIZE <= nodeSize && nodes != [] && |numbers| == |nodes|
    requires numbers[0] > 0 && forall i :: 0 <= i < |numbers| ==> numbers[i] == numbers[0] + i
    requires (numbers[0] + |nodes|) * nodeSize <= out.Length
    requires forall i :: 0 <= i < |nodes| ==> Fits(nodes[i], nodeSize)
    requires Blank(out[..], numbers[0] * nodeSize, (numbers[0] + |nodes|) * nodeSize)
    modifies out
    ensures Only(old(out[..]), out[..], numbers[0] * nodeSize, (numbers[0] + |nodes|) * nodeSize)
    ensures NodesPlaced(out[..], nodeSize, numbers[0], nodes, |nodes|, kind, height)
  {
    hide PageHolds, Only, NodesPlaced, Fits, Blank;
    ghost var before, start := out[..], numbers[0];
    Times(start, start + |nodes|, nodeSize);
    NothingChanged(before, start * nodeSize, (start + |nodes|) * nodeSize);
    NoNodesPlaced(before, nodeSize, start, nodes, kind, height);
    for i := 0 to |nodes|
      invariant Only(before, out[..], start * nodeSize, (start + |nodes|) * nodeSize)
      invariant NodesPlaced(out[..], nodeSize, start, nodes, i, kind, height)
      invariant Blank(out[..], (start + i) * nodeSize, (start + |nodes|) * nodeSize)
    {
      var fLink, bLink := 0, 0;
      if i > 0 {
        bLink := numbers[i - 1];
      }
      if i + 1 < |nodes| {
        fLink := numbers[i + 1];
      }
      var num := numbers[i];
      Times(start, num, nodeSize);
      Times(num + 1, start + |nodes|, nodeSize);
      Times(num, num, nodeSize);
      ghost var prev := out[..];
      var desc := Desc(fLink, bLink, kind, height, |nodes[i]|);
      assert desc == DescAt(start, |nodes|, i, kind, height, |nodes[i]|);
      BlankPart(prev, num * nodeSize, (start + |nodes|) * nodeSize, num * nodeSize, num * nodeSize + nodeSize);
      WriteRecordsNode(out, num * nodeSize, nodeSize, desc, nodes[i]);
      NextBlank(prev, out[..], num * nodeSize, num * nodeSize + nodeSize, (start + |nodes|) * nodeSize);
      EmitStep(prev, out[..], nodeSize, start, nodes, i, kind, height);
      OnlyWithin(before, prev, out[..], start * nodeSize, (start + |nodes|) * nodeSize, num * nodeSize, num * nodeSize + nodeSize);
    }
  }

  /** What lies behind the changed stretch is as blank as it was. */
  lemma NextBlank(s: seq<byte>, t: seq<byte>, lo: nat, hi: nat, end: nat)
    requires Only(s, t, lo, hi) && hi <= end && Blank(s, lo, end)
    ensures Blank(t, hi, end)
  {
    BlankPart(s, lo, end, hi, end);
    BlankKept(s, t, lo, hi, hi, end);
  }

  lemma NoNodesPlaced(img: seq<byte>, nodeSize: nat, start: nat, nodes: seq<seq<Record>>, kind: byte, height: nat)
    requires height < 0x100
    ensures NodesPlaced(img, nodeSize, start, nodes, 0, kind, height)
  {
  }

  lemma EmitStep(prev: seq<byte>, img: seq<byte>, nodeSize: nat, start: nat, nodes: seq<seq<Record>>, i: nat,
                 kind: byte, height: nat)
    requires height < 0x100 && i < |nodes| && NodesPlaced(prev, nodeSize, start, nodes, i, kind, height)
    requires DESCRIPTOR_SIZE <= nodeSize
    requires Only(prev, img, (start + i) * nodeSize, (start + i) * nodeSize + nodeSize)
    requires PageHolds(img[(start + i) * nodeSize..(start + i) * nodeSize + nodeSize],
                       DescAt(start, |nodes|, i, kind, height, |nodes[i]|), nodes[i])
    ensures NodesPlaced(img, nodeSize, start, nodes, i + 1, kind, height)
  {
    hide PageHolds, DescAt;
    NodesKept(prev, img, nodeSize, start, nodes, i, kind, height, (start + i) * nodeSize, (start + i) * nodeSize + nodeSize);
    assert NodePlaced(img, nodeSize, start, |nodes|, i, kind, height, nodes[i]);
  }

  // ----- the whole tree

  /** Header and map are in place for `packed` nodes; the image has one node per
      number, and those past `packed` are free and zero. */
  ghost predicate ImageHolds(img: seq<byte>, nodeSize: nat, h: HeaderRec, mapNodes: nat, packed: nat) {
    && MIN_NODE_SIZE <= nodeSize <= MAX_NODE_SIZE
    && |img| == h.totalNodes * nodeSize
    && 1 <= packed <= h.totalNodes <= Coverage(nodeSize, mapNodes)
    && h.freeNodes == h.totalNodes - packed
    && MapInPlace(img, nodeSize, h, mapNodes, packed)
    && Blank(img, packed * nodeSize, |img|)
  }

  /** The image holds the tree packed from `records`. */
  ghost predicate TreeHolds(img: seq<byte>, nodeSize: nat, records: seq<Record>, levels: seq<Level>, mapNodes: nat,
                            h: HeaderRec)
  {
    && MIN_NODE_SIZE <= nodeSize
    && IsTower(records, nodeSize, levels) && Finished(levels)
    && ImageHolds(img, nodeSize, h, mapNodes, TotalNodes(levels, mapNodes))
    && (forall l :: 0 <= l < |levels| ==> LevelPlaced(img, nodeSize, levels, mapNodes, l))
    && h.treeDepth == |levels|
    && h.rootNode == Start(levels, mapNodes, |levels| - 1)
    && h.firstLeaf == 1 + mapNodes && h.lastLeaf == mapNodes + levels[0].Count()
    && h.leafRecords == |records|
  }

  // ----- what a reader of the header gets

  function TreeDepth(img: seq<byte>): nat requires |img| >= MIN_NODE_SIZE { Get16(img, 14) }
  function RootNode(img: seq<byte>): nat requires |img| >= MIN_NODE_SIZE { Get32(img, 16) }
  function FirstLeaf(img: seq<byte>): nat requires |img| >= MIN_NODE_SIZE { Get32(img, 24) }
  function LastLeaf(img: seq<byte>): nat requires |img| >= MIN_NODE_SIZE { Get32(img, 28) }
  function NodeSizeField(img: seq<byte>): nat requires |img| >= MIN_NODE_SIZE { Get16(img, 32) }
  function TotalNodesField(img: seq<byte>): nat requires |img| >= MIN_NODE_SIZE { Get32(img, 36) }
  function FreeNodesField(img: seq<byte>): nat requires |img| >= MIN_NODE_SIZE { Get32(img, 40) }
  function ClumpSizeField(img: seq<byte>): nat requires |img| >= MIN_NODE_SIZE { Get32(img, 46) }
  function LeafRecordsField(img: seq<byte>): nat requires |img| >= MIN_NODE_SIZE { Get32(img, 20) }
  function MaxKeyLengthField(img: seq<byte>): nat requires |img| >= MIN_NODE_SIZE { Get16(img, 34) }
  function TreeTypeField(img: seq<byte>): byte requires |img| >= MIN_NODE_SIZE { img[50] }
  function KeyCompareField(img: seq<byte>): byte requires |img| >= MIN_NODE_SIZE { img[51] }
  function AttributesField(img: seq<byte>): nat requires |img| >= MIN_NODE_SIZE { Get32(img, 52) }

  /** Look a key up from the header. */
  function Lookup(img: seq<byte>, nodeSize: nat, q: Key, lt: Order): Option<seq<byte>>
    requires |img| >= MIN_NODE_SIZE
  {
    Search(img, nodeSize, RootNode(img), TreeDepth(img), q, lt)
  }

  lemma FrontPieces(h: HeaderRec)
    ensures var b := HeaderFront(h);
      b[0..2] == U16(h.treeDepth) && b[2..6] == U32(h.rootNode) && b[10..14] == U32(h.firstLeaf)
      && b[14..18] == U32(h.lastLeaf)
  {
    hide U16, U32;
  }

  lemma BackPieces(h: HeaderRec)
    ensures var b := HeaderBack(h);
      b[0..4] == U32(h.totalNodes) && b[4..8] == U32(h.freeNodes) && b[10..14] == U32(h.clumpSize)
  {
    hide U16, U32;
  }

  lemma HeaderPieces(h: HeaderRec)
    ensures var b := HeaderBytes(h);
      && b[0..2] == U16(h.treeDepth) && b[2..6] == U32(h.rootNode) && b[10..14] == U32(h.firstLeaf)
      && b[14..18] == U32(h.lastLeaf) && b[22..26] == U32(h.totalNodes) && b[26..30] == U32(h.freeNodes)
      && b[32..36] == U32(h.clumpSize)
  {
    FrontPieces(h);
    BackPieces(h);
    hide U16, U32, HeaderFront, HeaderBack;
    var b, f, k := HeaderBytes(h), HeaderFront(h), HeaderBack(h);
    assert b[0..2] == f[0..2] && b[2..6] == f[2..6] && b[10..14] == f[10..14] && b[14..18] == f[14..18];
    assert b[22..26] == k[0..4] && b[26..30] == k[4..8] && b[32..36] == k[10..14];
  }

  lemma FieldInHeader(img: seq<byte>, h: HeaderRec, a: nat, b: nat)
    requires |img| >= MIN_NODE_SIZE && a <= b <= HEADER_REC_SIZE
    requires img[DESCRIPTOR_SIZE..DESCRIPTOR_SIZE + HEADER_REC_SIZE] == HeaderBytes(h)
    ensures img[DESCRIPTOR_SIZE + a..DESCRIPTOR_SIZE + b] == HeaderBytes(h)[a..b]
  {
    hide HeaderBytes;
    SubSlice(img, DESCRIPTOR_SIZE, DESCRIPTOR_SIZE + HEADER_REC_SIZE, a, b);
  }

  lemma HeaderInImage(img: seq<byte>, nodeSize: nat, h: HeaderRec, mapNodes: nat, packed: nat)
    requires ImageHolds(img, nodeSize, h, mapNodes, packed)
    ensures |img| >= MIN_NODE_SIZE
    ensures img[DESCRIPTOR_SIZE..DESCRIPTOR_SIZE + HEADER_REC_SIZE] == HeaderBytes(h)
  {
    hide HeaderBytes;
    Times(1, h.totalNodes, nodeSize);
    assert NodeAt(img, nodeSize, 0) == img[0..nodeSize];
    SubSlice(img, 0, nodeSize, DESCRIPTOR_SIZE, DESCRIPTOR_SIZE + HEADER_REC_SIZE);
  }

  /** The header's fields, cut to their widths. */
  lemma HeaderFields(img: seq<byte>, nodeSize: nat, h: HeaderRec, mapNodes: nat, packed: nat)
    requires ImageHolds(img, nodeSize, h, mapNodes, packed)
    ensures |img| >= MIN_NODE_SIZE
    ensures TreeDepth(img) == h.treeDepth % 0x1_0000 && RootNode(img) == h.rootNode % 0x1_0000_0000
    ensures FirstLeaf(img) == h.firstLeaf % 0x1_0000_0000 && LastLeaf(img) == h.lastLeaf % 0x1_0000_0000
    ensures TotalNodesField(img) == h.totalNodes % 0x1_0000_0000
    ensures FreeNodesField(img) == h.freeNodes % 0x1_0000_0000
    ensures ClumpSizeField(img) == h.clumpSize % 0x1_0000_0000
  {
    hide HeaderBytes, ImageHolds, Get16, Get32, U16, U32;
    HeaderInImage(img, nodeSize, h, mapNodes, packed);
    HeaderPieces(h);
    FieldInHeader(img, h, 0, 2);
    Get16Slice(img, 14, h.treeDepth);
    FieldInHeader(img, h, 2, 6);
    Get32Slice(img, 16, h.rootNode);
    FieldInHeader(img, h, 10, 14);
    Get32Slice(img, 24, h.firstLeaf);
    FieldInHeader(img, h, 14, 18);
    Get32Slice(img, 28, h.lastLeaf);
    FieldInHeader(img, h, 22, 26);
    Get32Slice(img, 36, h.totalNodes);
    FieldInHeader(img, h, 26, 30);
    Get32Slice(img, 40, h.freeNodes);
    FieldInHeader(img, h, 32, 36);
    Get32Slice(img, 46, h.clumpSize);
  }

  lemma KindPieces(h: HeaderRec)
    ensures var b := HeaderBytes(h);
      && b[6..10] == U32(h.leafRecords) && b[18..20] == U16(h.nodeSize) && b[20..22] == U16(h.maxKeyLength)
      && b[36..38] == [h.btreeType, h.keyCompareType] && b[38..42] == U32(h.attributes)
  {
    hide U16, U32, Zero;
    var f, k := HeaderFront(h), HeaderBack(h);
    assert f[6..10] == U32(h.leafRecords) && f[18..20] == U16(h.nodeSize) && f[20..22] == U16(h.maxKeyLength);
    assert k[14..16] == [h.btreeType, h.keyCompareType] && k[16..20] == U32(h.attributes);
    hide HeaderFront, HeaderBack;
    var b := HeaderBytes(h);
    assert b[6..10] == f[6..10] && b[18..20] == f[18..20] && b[20..22] == f[20..22];
    assert b[36..38] == k[14..16] && b[38..42] == k[16..20];
  }

  /** And its remaining fields: record count, key limit and what kind of tree it is. */
  lemma HeaderKind(img: seq<byte>, nodeSize: nat, h: HeaderRec, mapNodes: nat, packed: nat)
    requires ImageHolds(img, nodeSize, h, mapNodes, packed)
    ensures |img| >= MIN_NODE_SIZE
    ensures LeafRecordsField(img) == h.leafRecords % 0x1_0000_0000 && NodeSizeField(img) == h.nodeSize % 0x1_0000
    ensures MaxKeyLengthField(img) == h.maxKeyLength % 0x1_0000 && AttributesField(img) == h.attributes % 0x1_0000_0000
    ensures TreeTypeField(img) == h.btreeType && KeyCompareField(img) == h.keyCompareType
  {
    hide HeaderBytes, ImageHolds, Get16, Get32, U16, U32;
    HeaderInImage(img, nodeSize, h, mapNodes, packed);
    KindPieces(h);
    FieldInHeader(img, h, 6, 10);
    Get32Slice(img, 20, h.leafRecords);
    FieldInHeader(img, h, 18, 20);
    Get16Slice(img, 32, h.nodeSize);
    FieldInHeader(img, h, 20, 22);
    Get16Slice(img, 34, h.maxKeyLength);
    FieldInHeader(img, h, 38, 42);
    Get32Slice(img, 52, h.attributes);
    FieldInHeader(img, h, 36, 38);
    assert img[50..52] == [h.btreeType, h.keyCompareType];
    assert img[50..52][0] == img[50] && img[50..52][1] == img[51];
  }

  /** A node size that fits its field is the field. */
  lemma NodeSizeReads(img: seq<byte>, nodeSize: nat, h: HeaderRec, mapNodes: nat, packed: nat)
    requires ImageHolds(img, nodeSize, h, mapNodes, packed) && h.nodeSize < 0x1_0000
    ensures |img| >= MIN_NODE_SIZE && NodeSizeField(img) == h.nodeSize
  {
    hide ImageHolds, NodeSizeField;
    HeaderKind(img, nodeSize, h, mapNodes, packed);
  }

  /** The header leads to a root that represents a tree over the records. */
  lemma RootStands(img: seq<byte>, nodeSize: nat, records: seq<Record>, levels: seq<Level>, mapNodes: nat, h: HeaderRec)
    requires TreeHolds(img, nodeSize, records, levels, mapNodes, h) && h.totalNodes < 0x1_0000_0000
    ensures Linked(levels) && levels != [] && levels[|levels| - 1].Count() == 1
    ensures Solid(TreeAt(levels, |levels| - 1, 0))
    ensures Represents(img, nodeSize, Start(levels, mapNodes, |levels| - 1), TreeAt(levels, |levels| - 1, 0), |levels|)
    ensures Under(TreeAt(levels, |levels| - 1, 0)) == records
  {
    hide LevelPlaced, MapInPlace;
    TowerIsLinked(records, nodeSize, levels);
    var top := |levels| - 1;
    assert PlacedTo(img, nodeSize, levels, mapNodes, top);
    hide ImageHolds;
    PlacedRepresents(img, nodeSize, levels, mapNodes, top, 0);
    hide PlacedTo;
    RootCovers(records, nodeSize, levels);
  }

  lemma TreeFields(img: seq<byte>, nodeSize: nat, records: seq<Record>, levels: seq<Level>, mapNodes: nat, h: HeaderRec)
    requires TreeHolds(img, nodeSize, records, levels, mapNodes, h) && h.totalNodes < 0x1_0000_0000
    ensures |img| >= MIN_NODE_SIZE && |levels| > 0
    ensures TreeDepth(img) == |levels| % 0x1_0000 && RootNode(img) == Start(levels, mapNodes, |levels| - 1)
    ensures FirstLeaf(img) == 1 + mapNodes && LastLeaf(img) == mapNodes + levels[0].Count()
    ensures TotalNodesField(img) == h.totalNodes && FreeNodesField(img) == h.totalNodes - TotalNodes(levels, mapNodes)
  {
    hide TreeHolds, ImageHolds, Start, RootNode, TreeDepth, FirstLeaf, LastLeaf, TotalNodesField, FreeNodesField,
         ClumpSizeField;
    TreeHeader(img, nodeSize, records, levels, mapNodes, h);
    HeaderFields(img, nodeSize, h, mapNodes, TotalNodes(levels, mapNodes));
  }

  lemma TreeHeader(img: seq<byte>, nodeSize: nat, records: seq<Record>, levels: seq<Level>, mapNodes: nat, h: HeaderRec)
    requires TreeHolds(img, nodeSize, records, levels, mapNodes, h)
    ensures ImageHolds(img, nodeSize, h, mapNodes, TotalNodes(levels, mapNodes)) && |levels| > 0
    ensures h.treeDepth == |levels| && h.rootNode == Start(levels, mapNodes, |levels| - 1)
    ensures h.firstLeaf == 1 + mapNodes && h.lastLeaf == mapNodes + levels[0].Count()
    ensures h.freeNodes == h.totalNodes - TotalNodes(levels, mapNodes)
    ensures h.rootNode < h.totalNodes && h.firstLeaf <= h.totalNodes && h.lastLeaf < h.totalNodes
  {
    hide LevelPlaced, MapInPlace, Coverage;
    StartMonotone(levels, mapNodes, |levels| - 1, |levels|);
    StartMonotone(levels, mapNodes, 0, |levels|);
    assert levels[|levels| - 1].Count() == 1;
    CountsPositive(records, nodeSize, levels, 0);
  }

  /** Search correctness: starting from the header, every record's data is found
      and nothing is found for any other key. */
  lemma LookupFinds(img: seq<byte>, nodeSize: nat, records: seq<Record>, levels: seq<Level>, mapNodes: nat,
                    h: HeaderRec, q: Key, lt: Order, dom: Key -> bool)
    requires TreeHolds(img, nodeSize, records, levels, mapNodes, h)
    requires h.totalNodes < 0x1_0000_0000 && |levels| < 0x1_0000
    requires StrictOrder(lt, dom) && dom(q) && Sorted(records, lt, dom)
    ensures |img| >= MIN_NODE_SIZE && IsLookup(records, q, Lookup(img, nodeSize, q, lt))
  {
    hide TreeHolds, StrictOrder, Sorted, IsLookup, TreeAt, Represents, Solid, Start, RootNode, TreeDepth, Linked, Under, Search;
    TreeFields(img, nodeSize, records, levels, mapNodes, h);
    RootStands(img, nodeSize, records, levels, mapNodes, h);
    var top := |levels| - 1;
    SearchFinds(img, nodeSize, Start(levels, mapNodes, top), TreeAt(levels, top, 0), |levels|, q, lt, dom);
  }

  lemma LeavesChained(img: seq<byte>, nodeSize: nat, records: seq<Record>, levels: seq<Level>, mapNodes: nat, h: HeaderRec)
    requires TreeHolds(img, nodeSize, records, levels, mapNodes, h) && h.totalNodes < 0x1_0000_0000
    ensures levels != [] && levels[0].Leaves? && Concat(levels[0].leaves) == records
    ensures 0 < |levels[0].leaves| <= h.totalNodes
    ensures Chained(img, nodeSize, 1 + mapNodes, levels[0].leaves)
  {
    hide MapInPlace, Chained;
    TowerIsLinked(records, nodeSize, levels);
    CountsPositive(records, nodeSize, levels, 0);
    StartMonotone(levels, mapNodes, 0, |levels|);
    assert LevelPlaced(img, nodeSize, levels, mapNodes, 0);
    hide LevelPlaced;
    PlacedChained(img, nodeSize, levels, mapNodes);
  }

  /** The leaf chain between the header's end points reads back the records in
      order, forwards, and the same leaves backwards. */
  lemma LeafChainReads(img: seq<byte>, nodeSize: nat, records: seq<Record>, levels: seq<Level>, mapNodes: nat,
                       h: HeaderRec)
    requires TreeHolds(img, nodeSize, records, levels, mapNodes, h)
    requires h.totalNodes < 0x1_0000_0000
    ensures |img| >= MIN_NODE_SIZE
    ensures Concat(ForwardLeaves(img, nodeSize, FirstLeaf(img), h.totalNodes)) == records
    ensures BackwardLeaves(img, nodeSize, LastLeaf(img), h.totalNodes)
         == ForwardLeaves(img, nodeSize, FirstLeaf(img), h.totalNodes)
  {
    hide TreeHolds, ForwardLeaves, BackwardLeaves, Chained, FirstLeaf, LastLeaf;
    TreeFields(img, nodeSize, records, levels, mapNodes, h);
    LeavesChained(img, nodeSize, records, levels, mapNodes, h);
    var leaves := levels[0].leaves;
    ForwardReads(img, nodeSize, 1 + mapNodes, leaves, 0, h.totalNodes);
    BackwardReads(img, nodeSize, 1 + mapNodes, leaves, |leaves| - 1, h.totalNodes);
    assert leaves[0..] == leaves && leaves[..|leaves|] == leaves;
  }

  lemma {:induction false} ClearBitsOf(bs: seq<byte>, packed: nat, n: nat)
    requires CountsUpTo(bs, 0, packed) && n <= 8 * |bs|
    ensures ClearBits(bs, n) == if n <= packed then 0 else n - packed
  {
    hide BitAt;
    if n > 0 {
      ClearBitsOf(bs, packed, n - 1);
      assert BitAt(bs, n - 1) <==> 0 + (n - 1) < packed;
    }
  }

  /** The allocation map tells used from free: a bit below the node count is set
      exactly for a packed node, and the clear ones number the free nodes. */
  lemma MapIsExact(img: seq<byte>, nodeSize: nat, h: HeaderRec, mapNodes: nat, packed: nat)
    requires ImageHolds(img, nodeSize, h, mapNodes, packed) && mapNodes <= h.totalNodes < 0x1_0000_0000
    ensures var bs := WholeMap(img, nodeSize, h.totalNodes);
      && h.totalNodes <= 8 * |bs|
      && (forall n :: 0 <= n < 8 * |bs| ==> (BitAt(bs, n) <==> n < packed))
      && ClearBits(bs, h.totalNodes) == h.freeNodes
  {
    hide BitAt, MapInPlace, WholeMap;
    WholeMapCounts(img, nodeSize, h, mapNodes, packed, h.totalNodes);
    var bs := WholeMap(img, nodeSize, h.totalNodes);
    forall n | 0 <= n < 8 * |bs| ensures BitAt(bs, n) <==> n < packed {
      assert BitAt(bs, n) <==> 0 + n < packed;
    }
    ClearBitsOf(bs, packed, h.totalNodes);
  }
}
