/** Packing records into an image, and growing the image to its fork. */
module BTreeBuilder {
  import opened Bytes
  import opened Wrappers
  import opened Seqs
  import opened Packing
  import opened Tower
  import opened NodeCodec
  import opened TreeReader
  import opened NodeMap
  import opened TreeBytes
  import opened BTree

  // ----- header and map

  lemma MapKept(s: seq<byte>, t: seq<byte>, nodeSize: nat, h: HeaderRec, mapNodes: nat, total: nat, lo: nat, hi: nat)
    requires MapInPlace(s, nodeSize, h, mapNodes, total)
    requires Only(s, t, lo, hi) && (1 + mapNodes) * nodeSize <= lo
    ensures MapInPlace(t, nodeSize, h, mapNodes, total)
  {
    hide HeaderHolds, MapHolds, NodeAt, HasNode, Only;
    Times(0, mapNodes, nodeSize);
    Times(0, 0, nodeSize);
    NodeKept(s, t, nodeSize, 0, lo, hi);
    forall i | 0 <= i < mapNodes ensures MapNodeInPlace(t, nodeSize, mapNodes, total, i) {
      assert MapNodeInPlace(s, nodeSize, mapNodes, total, i);
      Times(1 + i + 1, 1 + mapNodes, nodeSize);
      Times(1 + i, 1 + i, nodeSize);
      NodeKept(s, t, nodeSize, 1 + i, lo, hi);
    }
  }

  /** The first `n` map nodes are written, the rest still blank. */
  ghost predicate MapsSoFar(img: seq<byte>, nodeSize: nat, mapNodes: nat, total: nat, n: nat)
    requires MIN_NODE_SIZE <= nodeSize && n <= mapNodes
  {
    forall i :: 0 <= i < n ==> MapNodeInPlace(img, nodeSize, mapNodes, total, i)
  }

  lemma MapsStep(s: seq<byte>, t: seq<byte>, nodeSize: nat, h: HeaderRec, mapNodes: nat, total: nat, n: nat)
    requires MIN_NODE_SIZE <= nodeSize && n < mapNodes && MapsSoFar(s, nodeSize, mapNodes, total, n)
    requires HasNode(s, nodeSize, 0) && HeaderHolds(NodeAt(s, nodeSize, 0), h, mapNodes, total)
    requires Only(s, t, (1 + n) * nodeSize, (1 + n) * nodeSize + nodeSize)
    requires MapHolds(t[(1 + n) * nodeSize..(1 + n) * nodeSize + nodeSize],
                      if n + 1 < mapNodes then 1 + n + 1 else 0, Coverage(nodeSize, n), total)
    ensures MapsSoFar(t, nodeSize, mapNodes, total, n + 1)
    ensures HasNode(t, nodeSize, 0) && HeaderHolds(NodeAt(t, nodeSize, 0), h, mapNodes, total)
  {
    hide HeaderHolds, MapHolds, Coverage;
    var lo, hi := (1 + n) * nodeSize, (1 + n) * nodeSize + nodeSize;
    Times(1, 1 + n, nodeSize);
    NodeKept(s, t, nodeSize, 0, lo, hi);
    forall i | 0 <= i < n ensures MapNodeInPlace(t, nodeSize, mapNodes, total, i) {
      assert MapNodeInPlace(s, nodeSize, mapNodes, total, i);
      Times(1 + i + 1, 1 + n, nodeSize);
      Times(1 + i, 1 + i, nodeSize);
      NodeKept(s, t, nodeSize, 1 + i, lo, hi);
    }
    assert MapNodeInPlace(t, nodeSize, mapNodes, total, n);
  }

  method EmitMap(out: array<byte>, nodeSize: nat, h: HeaderRec, mapNodes: nat, total: nat)
    requires MIN_NODE_SIZE <= nodeSize <= MAX_NODE_SIZE && (1 + mapNodes) * nodeSize <= out.Length
    requires Blank(out[..], 0, (1 + mapNodes) * nodeSize)
    modifies out
    ensures Only(old(out[..]), out[..], 0, (1 + mapNodes) * nodeSize)
    ensures MapInPlace(out[..], nodeSize, h, mapNodes, total)
  {
    hide HeaderHolds, MapHolds, Only, MapsSoFar, Coverage, HeaderBits, MapNodeBits;
    ghost var before, end := out[..], (1 + mapNodes) * nodeSize;
    Times(1, 1 + mapNodes, nodeSize);
    EmitHeaderNode(out, nodeSize, h, total, mapNodes);
    OnlyWider(before, out[..], 0, nodeSize, 0, end);
    BlankKept(before, out[..], 0, nodeSize, nodeSize, end);
    NoMaps(out[..], nodeSize, mapNodes, total);
    for i := 0 to mapNodes
      invariant Only(before, out[..], 0, end)
      invariant HasNode(out[..], nodeSize, 0) && HeaderHolds(NodeAt(out[..], nodeSize, 0), h, mapNodes, total)
      invariant MapsSoFar(out[..], nodeSize, mapNodes, total, i)
      invariant Blank(out[..], (1 + i) * nodeSize, end)
    {
      var num := 1 + i;
      var next := 0;
      if i + 1 < mapNodes {
        next := num + 1;
      }
      Times(num + 1, 1 + mapNodes, nodeSize);
      Times(num, num, nodeSize);
      ghost var prev := out[..];
      var firstBit := FirstBit(nodeSize, i);
      EmitMapNode(out, num * nodeSize, nodeSize, next, firstBit, total);
      MapsStep(prev, out[..], nodeSize, h, mapNodes, total, i);
      OnlyWithin(before, prev, out[..], 0, end, num * nodeSize, num * nodeSize + nodeSize);
      BlankKept(prev, out[..], num * nodeSize, num * nodeSize + nodeSize, num * nodeSize + nodeSize, end);
    }
    hide Blank, MapNodeInPlace;
    AllMaps(out[..], nodeSize, h, mapNodes, total);
  }

  /** The node number map node `i`'s first bit stands for. */
  function FirstBit(nodeSize: nat, i: nat): (n: nat)
    requires nodeSize >= MIN_NODE_SIZE
    ensures n == Coverage(nodeSize, i)
  {
    HeaderBits(nodeSize) + i * MapNodeBits(nodeSize)
  }

  lemma NoMaps(img: seq<byte>, nodeSize: nat, mapNodes: nat, total: nat)
    requires MIN_NODE_SIZE <= nodeSize
    ensures MapsSoFar(img, nodeSize, mapNodes, total, 0)
  {
  }

  lemma AllMaps(img: seq<byte>, nodeSize: nat, h: HeaderRec, mapNodes: nat, total: nat)
    requires MIN_NODE_SIZE <= nodeSize && MapsSoFar(img, nodeSize, mapNodes, total, mapNodes)
    requires HasNode(img, nodeSize, 0) && HeaderHolds(NodeAt(img, nodeSize, 0), h, mapNodes, total)
    ensures MapInPlace(img, nodeSize, h, mapNodes, total)
  {
  }

  // ----- the levels

  /** Numbers are handed out level by level, bottom-up. */
  method AssignNumbers(levels: seq<Level>, mapNodes: nat) returns (numbering: seq<seq<nat>>)
    ensures |numbering| == |levels|
    ensures forall l :: 0 <= l < |levels| ==> Assigned(levels, mapNodes, l, numbering[l])
  {
    numbering := [];
    var nextNode := 1 + mapNodes;
    for l := 0 to |levels|
      invariant |numbering| == l && nextNode == Start(levels, mapNodes, l)
      invariant forall k :: 0 <= k < l ==> Assigned(levels, mapNodes, k, numbering[k])
    {
      var numbers: seq<nat> := [];
      for i := 0 to levels[l].Count()
        invariant |numbers| == i && nextNode == Start(levels, mapNodes, l) + i
        invariant forall j :: 0 <= j < i ==> numbers[j] == Start(levels, mapNodes, l) + j
      {
        numbers := numbers + [nextNode];
        nextNode := nextNode + 1;
      }
      numbering := numbering + [numbers];
    }
  }

  ghost predicate Assigned(levels: seq<Level>, mapNodes: nat, l: nat, numbers: seq<nat>)
    requires l < |levels|
  {
    |numbers| == levels[l].Count() && forall i :: 0 <= i < |numbers| ==> numbers[i] == Start(levels, mapNodes, l) + i
  }

  /** Child references become node numbers. */
  method ResolveNode(recs: seq<IdxRec>, numbers: seq<nat>, ghost below: nat) returns (r: seq<Record>)
    requires ChildrenIn(recs, |numbers|) && forall i :: 0 <= i < |numbers| ==> numbers[i] == below + i
    ensures r == Resolved(recs, below)
  {
    r := [];
    for j := 0 to |recs|
      invariant |r| == j && forall k :: 0 <= k < j ==> r[k] == Resolved(recs, below)[k]
    {
      r := r + [Record(recs[j].key, U32(numbers[recs[j].child]))];
    }
  }

  /** All the nodes of level `l`, as records to write. */
  ghost function RecordsOf(levels: seq<Level>, mapNodes: nat, l: nat): (nodes: seq<seq<Record>>)
    requires Kinds(levels) && l < |levels|
    ensures |nodes| == levels[l].Count()
  {
    seq(levels[l].Count(), i requires 0 <= i < levels[l].Count() => NodeRecords(levels, mapNodes, l, i))
  }

  method ResolveLevel(levels: seq<Level>, l: nat, numbers: seq<nat>, ghost mapNodes: nat) returns (nodes: seq<seq<Record>>)
    requires Linked(levels) && 1 <= l < |levels| && Assigned(levels, mapNodes, l - 1, numbers)
    ensures nodes == RecordsOf(levels, mapNodes, l)
  {
    nodes := [];
    ghost var below := Start(levels, mapNodes, l - 1);
    for i := 0 to |levels[l].nodes|
      invariant |nodes| == i && forall k :: 0 <= k < i ==> nodes[k] == NodeRecords(levels, mapNodes, l, k)
    {
      assert NodeLinked(levels, l, i);
      assert ChildrenIn(levels[l].nodes[i], |numbers|);
      hide Start, Linked, NodeLinked;
      var recs := ResolveNode(levels[l].nodes[i], numbers, below);
      nodes := nodes + [recs];
    }
    assert nodes == RecordsOf(levels, mapNodes, l);
  }

  /** What the packer kept within its room fits the node. */
  lemma SizeFits(recs: seq<Record>, nodeSize: nat)
    requires MIN_NODE_SIZE <= nodeSize <= MAX_NODE_SIZE && Total(recs, LeafSize()) <= Room(nodeSize)
    ensures Fits(recs, nodeSize)
  {
    SizeIsBody(recs);
  }

  lemma {:induction false} ResolvedSize(recs: seq<IdxRec>, below: nat)
    ensures Total(Resolved(recs, below), LeafSize()) == Total(recs, IdxSize())
  {
    if recs != [] {
      ResolvedSize(recs[1..], below);
      assert Resolved(recs, below)[1..] == Resolved(recs[1..], below);
      assert LeafSize()(Resolved(recs, below)[0]) == IdxSize()(recs[0]);
    }
  }

  lemma LevelFits(records: seq<Record>, nodeSize: nat, levels: seq<Level>, mapNodes: nat, l: nat, i: nat)
    requires MIN_NODE_SIZE <= nodeSize <= MAX_NODE_SIZE && IsTower(records, nodeSize, levels) && Kinds(levels)
    requires LeavesFit(records, nodeSize) && l < |levels| && i < levels[l].Count() && IndexFits(levels[l], nodeSize)
    ensures Fits(NodeRecords(levels, mapNodes, l, i), nodeSize)
  {
    if l == 0 {
      var leaf := levels[0].leaves[i];
      if |leaf| == 1 {
        var k := ConcatIndex(levels[0].leaves, i, 0);
        assert leaf[0] == records[k];
        TotalSingle(leaf, LeafSize());
      }
      SizeFits(leaf, nodeSize);
    } else {
      ResolvedSize(levels[l].nodes[i], Start(levels, mapNodes, l - 1));
      SizeFits(NodeRecords(levels, mapNodes, l, i), nodeSize);
    }
  }

  /** Levels below `n` are in the image. */
  ghost predicate LevelsSoFar(img: seq<byte>, nodeSize: nat, levels: seq<Level>, mapNodes: nat, n: nat)
    requires n <= |levels|
  {
    forall l :: 0 <= l < n ==> LevelPlaced(img, nodeSize, levels, mapNodes, l)
  }

  lemma PlacedIsLevel(img: seq<byte>, nodeSize: nat, levels: seq<Level>, mapNodes: nat, l: nat)
    requires Kinds(levels) && l < |levels|
    ensures LevelPlaced(img, nodeSize, levels, mapNodes, l) <==>
      NodesPlaced(img, nodeSize, Start(levels, mapNodes, l), RecordsOf(levels, mapNodes, l), levels[l].Count(),
                  KindAt(l), (l + 1) % 0x100)
  {
    hide Start, PageHolds, HasNode, NodeAt, DescAt, NodePlaced;
    var nodes := RecordsOf(levels, mapNodes, l);
    assert forall i :: 0 <= i < |nodes| ==> nodes[i] == NodeRecords(levels, mapNodes, l, i);
  }

  lemma LevelsStep(s: seq<byte>, t: seq<byte>, nodeSize: nat, levels: seq<Level>, mapNodes: nat, l: nat, lo: nat, hi: nat)
    requires Kinds(levels) && l < |levels| && LevelsSoFar(s, nodeSize, levels, mapNodes, l)
    requires lo == Start(levels, mapNodes, l) * nodeSize && Only(s, t, lo, hi)
    requires LevelPlaced(t, nodeSize, levels, mapNodes, l)
    ensures LevelsSoFar(t, nodeSize, levels, mapNodes, l + 1)
  {
    hide LevelPlaced, Only;
    forall k | 0 <= k < l ensures LevelPlaced(t, nodeSize, levels, mapNodes, k) {
      LevelKept(s, t, nodeSize, levels, mapNodes, k, l, lo, hi);
    }
  }

  lemma LevelKept(s: seq<byte>, t: seq<byte>, nodeSize: nat, levels: seq<Level>, mapNodes: nat, k: nat, l: nat, lo: nat, hi: nat)
    requires Kinds(levels) && k < l < |levels| && LevelPlaced(s, nodeSize, levels, mapNodes, k)
    requires lo == Start(levels, mapNodes, l) * nodeSize && Only(s, t, lo, hi)
    ensures LevelPlaced(t, nodeSize, levels, mapNodes, k)
  {
    hide LevelPlaced, NodesPlaced, Only;
    PlacedIsLevel(s, nodeSize, levels, mapNodes, k);
    StartMonotone(levels, mapNodes, k, l);
    Times(Start(levels, mapNodes, k) + levels[k].Count(), Start(levels, mapNodes, l), nodeSize);
    NodesKept(s, t, nodeSize, Start(levels, mapNodes, k), RecordsOf(levels, mapNodes, k), levels[k].Count(),
              KindAt(k), (k + 1) % 0x100, lo, hi);
    PlacedIsLevel(t, nodeSize, levels, mapNodes, k);
  }

  method EmitLevels(out: array<byte>, nodeSize: nat, levels: seq<Level>, numbering: seq<seq<nat>>,
                    ghost records: seq<Record>, ghost mapNodes: nat)
    requires MIN_NODE_SIZE <= nodeSize <= MAX_NODE_SIZE && IsTower(records, nodeSize, levels) && Finished(levels)
    requires LeavesFit(records, nodeSize) && forall l :: 1 <= l < |levels| ==> IndexFits(levels[l], nodeSize)
    requires |numbering| == |levels| && forall l :: 0 <= l < |levels| ==> Assigned(levels, mapNodes, l, numbering[l])
    requires TotalNodes(levels, mapNodes) * nodeSize == out.Length
    requires Blank(out[..], (1 + mapNodes) * nodeSize, TotalNodes(levels, mapNodes) * nodeSize)
    modifies out
    ensures Only(old(out[..]), out[..], (1 + mapNodes) * nodeSize, TotalNodes(levels, mapNodes) * nodeSize)
    ensures LevelsSoFar(out[..], nodeSize, levels, mapNodes, |levels|)
  {
    hide Only, Blank, LevelPlaced, NodesPlaced, Fits, NodeRecords, LevelsSoFar, RecordsOf, IsTower, Linked, LeavesFit;
    TowerIsLinked(records, nodeSize, levels);
    LinkedKinds(levels);
    ghost var before, lo, hi := out[..], (1 + mapNodes) * nodeSize, TotalNodes(levels, mapNodes) * nodeSize;
    StartMonotone(levels, mapNodes, 0, |levels|);
    Times(1 + mapNodes, TotalNodes(levels, mapNodes), nodeSize);
    NothingChanged(before, lo, hi);
    NoLevels(before, nodeSize, levels, mapNodes);
    for l := 0 to |levels|
      invariant Only(before, out[..], lo, hi)
      invariant LevelsSoFar(out[..], nodeSize, levels, mapNodes, l)
      invariant Blank(out[..], Start(levels, mapNodes, l) * nodeSize, hi)
    {
      var nodes: seq<seq<Record>>;
      if l == 0 {
        nodes := levels[0].leaves;
        LeavesAreRecords(levels, mapNodes);
      } else {
        nodes := ResolveLevel(levels, l, numbering[l - 1], mapNodes);
      }
      LevelReady(records, nodeSize, levels, mapNodes, l);
      ghost var prev, from, to := out[..], Start(levels, mapNodes, l) * nodeSize, Start(levels, mapNodes, l + 1) * nodeSize;
      Times(Start(levels, mapNodes, l), Start(levels, mapNodes, l + 1), nodeSize);
      BlankPart(prev, from, hi, from, to);
      EmitLevel(out, nodeSize, numbering[l], nodes, if l == 0 then LEAF_KIND else INDEX_KIND, (l + 1) % 0x100);
      PlacedIsLevel(out[..], nodeSize, levels, mapNodes, l);
      LevelsStep(prev, out[..], nodeSize, levels, mapNodes, l, from, to);
      OnlyWithin(before, prev, out[..], lo, hi, from, to);
      NextBlank(prev, out[..], from, to, hi);
    }
  }

  lemma LinkedKinds(levels: seq<Level>)
    requires Linked(levels)
    ensures Kinds(levels)
  {
  }

  lemma NoLevels(img: seq<byte>, nodeSize: nat, levels: seq<Level>, mapNodes: nat)
    ensures LevelsSoFar(img, nodeSize, levels, mapNodes, 0)
  {
  }

  lemma LeavesAreRecords(levels: seq<Level>, mapNodes: nat)
    requires Kinds(levels)
    ensures levels[0].leaves == RecordsOf(levels, mapNodes, 0)
  {
  }

  /** Everything `EmitLevel` needs to know of level `l`. */
  lemma LevelReady(records: seq<Record>, nodeSize: nat, levels: seq<Level>, mapNodes: nat, l: nat)
    requires MIN_NODE_SIZE <= nodeSize <= MAX_NODE_SIZE && IsTower(records, nodeSize, levels) && Finished(levels)
    requires Kinds(levels) && LeavesFit(records, nodeSize) && l < |levels|
    requires forall k :: 1 <= k < |levels| ==> IndexFits(levels[k], nodeSize)
    ensures RecordsOf(levels, mapNodes, l) != [] && 0 < Start(levels, mapNodes, l)
    ensures forall i :: 0 <= i < |RecordsOf(levels, mapNodes, l)| ==> Fits(RecordsOf(levels, mapNodes, l)[i], nodeSize)
    ensures Start(levels, mapNodes, l + 1) == Start(levels, mapNodes, l) + |RecordsOf(levels, mapNodes, l)|
    ensures 1 + mapNodes <= Start(levels, mapNodes, l) <= Start(levels, mapNodes, l + 1) <= TotalNodes(levels, mapNodes)
    ensures (1 + mapNodes) * nodeSize <= Start(levels, mapNodes, l) * nodeSize
    ensures Start(levels, mapNodes, l + 1) * nodeSize <= TotalNodes(levels, mapNodes) * nodeSize
  {
    hide Fits, NodeRecords, IndexFits, LeavesFit;
    CountsPositive(records, nodeSize, levels, l);
    forall i | 0 <= i < levels[l].Count() ensures Fits(NodeRecords(levels, mapNodes, l, i), nodeSize) {
      if l == 0 {
        LeafLevelFits(levels[0], nodeSize);
      }
      LevelFits(records, nodeSize, levels, mapNodes, l, i);
    }
    hide IsTower;
    StartMonotone(levels, mapNodes, 0, l);
    StartMonotone(levels, mapNodes, l, l + 1);
    StartMonotone(levels, mapNodes, l + 1, |levels|);
    Times(1 + mapNodes, Start(levels, mapNodes, l), nodeSize);
    Times(Start(levels, mapNodes, l + 1), TotalNodes(levels, mapNodes), nodeSize);
  }

  lemma LeafLevelFits(level: Level, nodeSize: nat)
    requires nodeSize >= MIN_NODE_SIZE && level.Leaves?
    ensures IndexFits(level, nodeSize)
  {
  }

  // ----- BuildTree

  function ClumpSizeOf(opts: BuildOpts): nat {
    if opts.clumpSize == 0 then 8 * opts.nodeSize else opts.clumpSize
  }

  function HeaderFor(opts: BuildOpts, records: seq<Record>, levels: seq<Level>, mapNodes: nat): HeaderRec
    requires levels != []
  {
    HeaderRec(|levels|, Start(levels, mapNodes, |levels| - 1), |records|, 1 + mapNodes, mapNodes + levels[0].Count(),
              opts.nodeSize, opts.maxKeyLength, TotalNodes(levels, mapNodes), 0, ClumpSizeOf(opts),
              opts.btreeType, opts.keyCompareType, opts.attributes)
  }

  function EmptyHeader(opts: BuildOpts): HeaderRec {
    HeaderRec(0, 0, 0, 0, 0, opts.nodeSize, opts.maxKeyLength, 1, 0, ClumpSizeOf(opts),
              opts.btreeType, opts.keyCompareType, opts.attributes)
  }

  // ----- padding

  /** The header after the tree's file has grown to `total` nodes. */
  function PaddedHeader(h: HeaderRec, total: nat, nodeSize: nat, packed: nat): HeaderRec
  {
    if total < packed then h
    else h.(totalNodes := total, freeNodes := total - packed, clumpSize := total * nodeSize)
  }

  /** Every node but the header node is where it was. */
  ghost predicate SameNodes(s: seq<byte>, t: seq<byte>, nodeSize: nat) {
    forall k :: 1 <= k && HasNode(s, nodeSize, k) ==> HasNode(t, nodeSize, k) && NodeAt(t, nodeSize, k) == NodeAt(s, nodeSize, k)
  }

  lemma SameNodesTrans(s: seq<byte>, t: seq<byte>, u: seq<byte>, nodeSize: nat)
    requires SameNodes(s, t, nodeSize) && SameNodes(t, u, nodeSize)
    ensures SameNodes(s, u, nodeSize)
  {
  }

  lemma GrowthKeepsNodes(s: seq<byte>, n: nat, nodeSize: nat)
    ensures SameNodes(s, s + Zero(n), nodeSize)
    ensures HasNode(s, nodeSize, 0) ==>
      HasNode(s + Zero(n), nodeSize, 0) && NodeAt(s + Zero(n), nodeSize, 0) == NodeAt(s, nodeSize, 0)
  {
    var t := s + Zero(n);
    assert t[..|s|] == s[..|s|];
    forall k | 0 <= k && HasNode(s, nodeSize, k)
      ensures HasNode(t, nodeSize, k) && NodeAt(t, nodeSize, k) == NodeAt(s, nodeSize, k)
    {
      SameBelow(s, t, |s|, k * nodeSize, k * nodeSize + nodeSize);
    }
  }

  /** Overwriting a field of the header record changes that field only. */
  lemma PatchKeepsNodes(s: seq<byte>, nodeSize: nat, at: nat, bs: seq<byte>)
    requires MIN_NODE_SIZE <= nodeSize <= |s| && DESCRIPTOR_SIZE <= at && at + |bs| <= DESCRIPTOR_SIZE + HEADER_REC_SIZE
    ensures SameNodes(s, Splice(s, at, bs), nodeSize)
  {
    var t := Splice(s, at, bs);
    forall k | 1 <= k && HasNode(s, nodeSize, k)
      ensures HasNode(t, nodeSize, k) && NodeAt(t, nodeSize, k) == NodeAt(s, nodeSize, k)
    {
      Times(1, k, nodeSize);
      SpliceOther(s, at, bs, k * nodeSize, k * nodeSize + nodeSize);
    }
  }

  lemma PatchHeader(s: seq<byte>, nodeSize: nat, h: HeaderRec, h': HeaderRec, mapNodes: nat, packed: nat, at: nat, bs: seq<byte>)
    requires MIN_NODE_SIZE <= nodeSize <= |s| && at + |bs| <= HEADER_REC_SIZE
    requires HasNode(s, nodeSize, 0) && HeaderHolds(NodeAt(s, nodeSize, 0), h, mapNodes, packed)
    requires Splice(HeaderBytes(h), at, bs) == HeaderBytes(h')
    ensures var t := Splice(s, DESCRIPTOR_SIZE + at, bs);
      HasNode(t, nodeSize, 0) && HeaderHolds(NodeAt(t, nodeSize, 0), h', mapNodes, packed)
  {
    hide HeaderBytes, DescBytes, Table, CountsUpTo;
    var t := Splice(s, DESCRIPTOR_SIZE + at, bs);
    var m, n := NodeAt(s, nodeSize, 0), NodeAt(t, nodeSize, 0);
    assert n == Splice(m, DESCRIPTOR_SIZE + at, bs);
    hide NodeAt;
    SpliceOther(m, DESCRIPTOR_SIZE + at, bs, 0, DESCRIPTOR_SIZE);
    SpliceOther(m, DESCRIPTOR_SIZE + at, bs, MAP_OFFSET, nodeSize - 8);
    SpliceOther(m, DESCRIPTOR_SIZE + at, bs, nodeSize - 8, nodeSize);
    SpliceInside(m, DESCRIPTOR_SIZE, HEADER_REC_SIZE, at, bs);
    hide Splice;
    assert n[0..DESCRIPTOR_SIZE] == n[..DESCRIPTOR_SIZE] && m[0..DESCRIPTOR_SIZE] == m[..DESCRIPTOR_SIZE];
    assert n[nodeSize - 8..nodeSize] == n[nodeSize - 8..] && m[nodeSize - 8..nodeSize] == m[nodeSize - 8..];
  }

  lemma SpliceInside<T>(m: seq<T>, lo: nat, len: nat, at: nat, bs: seq<T>)
    requires lo + len <= |m| && at + |bs| <= len
    ensures Splice(m, lo + at, bs)[lo..lo + len] == Splice(m[lo..lo + len], at, bs)
  {
  }

  lemma PatchedBytes(h: HeaderRec, total: nat, free: nat, clump: nat)
    ensures Splice(HeaderBytes(h), 22, U32(total)) == HeaderBytes(h.(totalNodes := total))
    ensures Splice(HeaderBytes(h), 26, U32(free)) == HeaderBytes(h.(freeNodes := free))
    ensures Splice(HeaderBytes(h), 32, U32(clump)) == HeaderBytes(h.(clumpSize := clump))
  {
    hide U32, U16, HeaderFront;
    var f := HeaderFront(h);
    assert HeaderFront(h.(totalNodes := total)) == f && HeaderFront(h.(freeNodes := free)) == f
        && HeaderFront(h.(clumpSize := clump)) == f by { SameFront(h, total, free, clump); }
    PatchedBack(h, total, free, clump);
    hide HeaderBack;
    SpliceBack(f, HeaderBack(h), 0, U32(total));
    SpliceBack(f, HeaderBack(h), 4, U32(free));
    SpliceBack(f, HeaderBack(h), 10, U32(clump));
  }

  lemma SameFront(h: HeaderRec, total: nat, free: nat, clump: nat)
    ensures HeaderFront(h.(totalNodes := total)) == HeaderFront(h)
    ensures HeaderFront(h.(freeNodes := free)) == HeaderFront(h)
    ensures HeaderFront(h.(clumpSize := clump)) == HeaderFront(h)
  {
    hide U32, U16;
  }

  lemma PatchedBack(h: HeaderRec, total: nat, free: nat, clump: nat)
    ensures Splice(HeaderBack(h), 0, U32(total)) == HeaderBack(h.(totalNodes := total))
    ensures Splice(HeaderBack(h), 4, U32(free)) == HeaderBack(h.(freeNodes := free))
    ensures Splice(HeaderBack(h), 10, U32(clump)) == HeaderBack(h.(clumpSize := clump))
  {
    hide U32, U16, Zero;
  }

  lemma SpliceBack<T>(f: seq<T>, b: seq<T>, at: nat, bs: seq<T>)
    requires at + |bs| <= |b|
    ensures Splice(f + b, |f| + at, bs) == f + Splice(b, at, bs)
  {
  }

  /** One field of the header patched: the rest of the image holds on. */
  lemma PatchStep(s: seq<byte>, nodeSize: nat, h: HeaderRec, h': HeaderRec, mapNodes: nat, packed: nat, at: nat, bs: seq<byte>)
    requires MapInPlace(s, nodeSize, h, mapNodes, packed) && nodeSize <= |s| && at + |bs| <= HEADER_REC_SIZE
    requires Splice(HeaderBytes(h), at, bs) == HeaderBytes(h')
    ensures MapInPlace(Splice(s, DESCRIPTOR_SIZE + at, bs), nodeSize, h', mapNodes, packed)
    ensures SameNodes(s, Splice(s, DESCRIPTOR_SIZE + at, bs), nodeSize)
  {
    hide HeaderBytes, HeaderHolds, Splice;
    PatchKeepsNodes(s, nodeSize, DESCRIPTOR_SIZE + at, bs);
    PatchHeader(s, nodeSize, h, h', mapNodes, packed, at, bs);
    SameMaps(s, Splice(s, DESCRIPTOR_SIZE + at, bs), nodeSize, h, h', mapNodes, packed);
  }

  lemma SameMaps(s: seq<byte>, t: seq<byte>, nodeSize: nat, h: HeaderRec, h': HeaderRec, mapNodes: nat, packed: nat)
    requires MapInPlace(s, nodeSize, h, mapNodes, packed) && SameNodes(s, t, nodeSize)
    requires HasNode(t, nodeSize, 0) && HeaderHolds(NodeAt(t, nodeSize, 0), h', mapNodes, packed)
    ensures MapInPlace(t, nodeSize, h', mapNodes, packed)
  {
    hide HeaderHolds, MapHolds, Coverage, HasNode, NodeAt;
    forall i | 0 <= i < mapNodes ensures MapNodeInPlace(t, nodeSize, mapNodes, packed, i) {
      assert MapNodeInPlace(s, nodeSize, mapNodes, packed, i);
    }
  }

  lemma PatchCounts(s: seq<byte>, nodeSize: nat, h: HeaderRec, mapNodes: nat, packed: nat, total: nat, free: nat)
    requires MapInPlace(s, nodeSize, h, mapNodes, packed) && nodeSize <= |s|
    ensures var t := Splice(Splice(s, 36, U32(total)), 40, U32(free));
      && MapInPlace(t, nodeSize, h.(totalNodes := total, freeNodes := free), mapNodes, packed) && SameNodes(s, t, nodeSize)
  {
    hide HeaderBytes, MapInPlace, Splice, SameNodes, U32;
    MapNodeSize(s, nodeSize, h, mapNodes, packed);
    PatchedBytes(h, total, free, 0);
    var h1, t := h.(totalNodes := total), Splice(s, 36, U32(total));
    PatchStep(s, nodeSize, h, h1, mapNodes, packed, 22, U32(total));
    PatchedBytes(h1, total, free, 0);
    MapNodeSize(t, nodeSize, h1, mapNodes, packed);
    PatchStep(t, nodeSize, h1, h1.(freeNodes := free), mapNodes, packed, 26, U32(free));
    SameNodesTrans(s, t, Splice(t, 40, U32(free)), nodeSize);
  }

  lemma PatchClump(s: seq<byte>, nodeSize: nat, h: HeaderRec, mapNodes: nat, packed: nat, clump: nat)
    requires MapInPlace(s, nodeSize, h, mapNodes, packed) && nodeSize <= |s|
    ensures var u := Splice(s, 46, U32(clump));
      MapInPlace(u, nodeSize, h.(clumpSize := clump), mapNodes, packed) && SameNodes(s, u, nodeSize)
  {
    hide HeaderBytes, MapInPlace, Splice, SameNodes, U32;
    MapNodeSize(s, nodeSize, h, mapNodes, packed);
    PatchedBytes(h, 0, 0, clump);
    PatchStep(s, nodeSize, h, h.(clumpSize := clump), mapNodes, packed, 32, U32(clump));
  }

  lemma MapNodeSize(s: seq<byte>, nodeSize: nat, h: HeaderRec, mapNodes: nat, packed: nat)
    requires MapInPlace(s, nodeSize, h, mapNodes, packed)
    ensures MIN_NODE_SIZE <= nodeSize <= |s|
  {
  }

  lemma ImageFacts(img: seq<byte>, nodeSize: nat, h: HeaderRec, mapNodes: nat, packed: nat)
    requires ImageHolds(img, nodeSize, h, mapNodes, packed)
    ensures MIN_NODE_SIZE <= nodeSize && |img| == h.totalNodes * nodeSize && nodeSize <= |img|
    ensures MapInPlace(img, nodeSize, h, mapNodes, packed) && h.freeNodes == h.totalNodes - packed
    ensures 1 <= packed <= h.totalNodes && nodeSize <= MAX_NODE_SIZE && Blank(img, packed * nodeSize, |img|)
  {
    hide MapInPlace;
    Times(1, h.totalNodes, nodeSize);
  }

  lemma Quotient(total: nat, nodeSize: nat, want: nat)
    requires nodeSize > 0 && want % nodeSize == 0 && total * nodeSize <= want
    ensures want / nodeSize * nodeSize == want && total <= want / nodeSize
  {
    if want / nodeSize < total {
      Times(want / nodeSize + 1, total, nodeSize);
    }
  }

  /** What the padded bytes hold, whether or not the counts had to change. */
  lemma PaddingHolds(before: seq<byte>, wide: seq<byte>, counted: seq<byte>, after: seq<byte>, nodeSize: nat,
                     h: HeaderRec, mapNodes: nat, packed: nat, total: nat, want: nat)
    requires ImageHolds(before, nodeSize, h, mapNodes, packed)
    requires |before| <= want == total * nodeSize && h.totalNodes <= total <= Coverage(nodeSize, mapNodes)
    requires wide == before + Zero(want - |before|)
    requires counted == if total == h.totalNodes then wide
      else Splice(Splice(wide, 36, U32(total)), 40, U32(total - packed))
    requires after == Splice(counted, 46, U32(want))
    ensures ImageHolds(after, nodeSize, PaddedHeader(h, total, nodeSize, packed), mapNodes, packed)
    ensures SameNodes(before, after, nodeSize)
  {
    hide MapInPlace, Splice, SameNodes, U32, Coverage, ImageHolds, Zero;
    ImageFacts(before, nodeSize, h, mapNodes, packed);
    GrowthHolds(before, want - |before|, nodeSize, h, mapNodes, packed);
    var h1 := h.(totalNodes := total, freeNodes := total - packed);
    if total == h.totalNodes {
      NoChange(wide, nodeSize);
    } else {
      PatchCounts(wide, nodeSize, h, mapNodes, packed, total, total - packed);
    }
    PatchClump(counted, nodeSize, h1, mapNodes, packed, want);
    SameNodesTrans(before, wide, counted, nodeSize);
    SameNodesTrans(before, counted, after, nodeSize);
    PaddingIsBlank(before, wide, counted, after, nodeSize, packed, total, want);
    PaddedImage(after, nodeSize, h, mapNodes, packed, total);
  }

  /** The nodes the padding adds are zero, as the free ones were. */
  lemma PaddingIsBlank(before: seq<byte>, wide: seq<byte>, counted: seq<byte>, after: seq<byte>, nodeSize: nat,
                       packed: nat, total: nat, want: nat)
    requires |before| <= want && wide == before + Zero(want - |before|) && MIN_NODE_SIZE <= nodeSize <= |before|
    requires 1 <= packed <= total
    requires counted == wide || counted == Splice(Splice(wide, 36, U32(total)), 40, U32(total - packed))
    requires after == Splice(counted, 46, U32(want))
    requires Blank(before, packed * nodeSize, |before|)
    ensures Blank(after, packed * nodeSize, |after|)
  {
    hide Splice, U32;
    Times(1, packed, nodeSize);
    if counted != wide {
      BlankPast(wide, 36, U32(total), packed * nodeSize);
      BlankPast(Splice(wide, 36, U32(total)), 40, U32(total - packed), packed * nodeSize);
    }
    BlankPast(counted, 46, U32(want), packed * nodeSize);
  }

  /** A write in front of a blank tail leaves it blank. */
  lemma BlankPast(s: seq<byte>, at: nat, bs: seq<byte>, lo: nat)
    requires Blank(s, lo, |s|) && at + |bs| <= lo
    ensures Blank(Splice(s, at, bs), lo, |s|)
  {
  }

  lemma PaddedImage(after: seq<byte>, nodeSize: nat, h: HeaderRec, mapNodes: nat, packed: nat, total: nat)
    requires MIN_NODE_SIZE <= nodeSize <= MAX_NODE_SIZE && |after| == total * nodeSize
    requires 1 <= packed <= total <= Coverage(nodeSize, mapNodes) && Blank(after, packed * nodeSize, |after|)
    requires MapInPlace(after, nodeSize, h.(totalNodes := total, freeNodes := total - packed,
                                            clumpSize := total * nodeSize), mapNodes, packed)
    ensures ImageHolds(after, nodeSize, PaddedHeader(h, total, nodeSize, packed), mapNodes, packed)
  {
    hide MapInPlace, Coverage;
  }

  lemma NoChange(s: seq<byte>, nodeSize: nat)
    ensures SameNodes(s, s, nodeSize)
  {
  }

  lemma GrowthHolds(s: seq<byte>, n: nat, nodeSize: nat, h: HeaderRec, mapNodes: nat, packed: nat)
    requires MapInPlace(s, nodeSize, h, mapNodes, packed)
    ensures MapInPlace(s + Zero(n), nodeSize, h, mapNodes, packed) && SameNodes(s, s + Zero(n), nodeSize)
  {
    hide HeaderHolds;
    GrowthKeepsNodes(s, n, nodeSize);
    SameMaps(s, s + Zero(n), nodeSize, h, h, mapNodes, packed);
  }

  /** The packed tree and its running counters, which padding updates. */
  class BuildResult {
    var bytes: array<byte>
    var totalNodes: nat
    var freeNodes: nat
    const treeDepth: nat
    const rootNode: nat
    const firstLeaf: nat
    const lastLeaf: nat
    const leafRecords: nat
    const mapCoverage: nat
    const opts: BuildOpts

    constructor (bytes: array<byte>, h: HeaderRec, coverage: nat, opts: BuildOpts)
      ensures this.bytes == bytes && totalNodes == h.totalNodes && freeNodes == h.freeNodes && this.opts == opts
      ensures treeDepth == h.treeDepth && rootNode == h.rootNode && firstLeaf == h.firstLeaf && lastLeaf == h.lastLeaf
      ensures leafRecords == h.leafRecords && mapCoverage == coverage % U32_LIMIT
    {
      this.bytes, totalNodes, freeNodes, this.opts := bytes, h.totalNodes, h.freeNodes, opts;
      treeDepth, rootNode, firstLeaf, lastLeaf := h.treeDepth, h.rootNode, h.firstLeaf, h.lastLeaf;
      leafRecords, mapCoverage := h.leafRecords, coverage % U32_LIMIT;
    }

    /** The counters agree with the header record in the image. */
    ghost predicate Agrees(h: HeaderRec, mapNodes: nat)
      reads this
    {
      && totalNodes == h.totalNodes && freeNodes == h.freeNodes
      && opts.nodeSize == h.nodeSize >= MIN_NODE_SIZE && mapCoverage == Coverage(opts.nodeSize, mapNodes) % U32_LIMIT
    }

    /** Grow the image to exactly `blocks` blocks: only the node counts and the
        clump size in the header change, and the new nodes are free. */
    method PadToBlocks(blocks: nat, blockSize: nat, ghost h: HeaderRec, ghost mapNodes: nat, ghost packed: nat)
      returns (ok: bool)
      requires blocks < U32_LIMIT && blockSize < U32_LIMIT && h.totalNodes < U32_LIMIT
      requires ImageHolds(bytes[..], opts.nodeSize, h, mapNodes, packed) && Agrees(h, mapNodes)
      modifies this, bytes
      ensures ok <==>
        && blocks * blockSize >= |old(bytes[..])| && blocks * blockSize % opts.nodeSize == 0
        && blocks * blockSize / opts.nodeSize % U32_LIMIT <= mapCoverage
      ensures !ok ==> bytes == old(bytes) && bytes[..] == old(bytes[..]) && Agrees(h, mapNodes)
      ensures ok ==> (bytes == old(bytes) || fresh(bytes)) && bytes.Length == blocks * blockSize
      ensures ok && blocks * blockSize / opts.nodeSize < U32_LIMIT ==>
        && PaddedTo(old(bytes[..]), blocks * blockSize / opts.nodeSize, h, mapNodes, packed)
        && Agrees(PaddedHeader(h, blocks * blockSize / opts.nodeSize, opts.nodeSize, packed), mapNodes)
    {
      hide MapInPlace, U32, Splice, Coverage, SameNodes, ImageHolds, Zero;
      var nodeSize, wantBytes := opts.nodeSize, blocks * blockSize;
      ImageFacts(bytes[..], nodeSize, h, mapNodes, packed);
      if wantBytes < bytes.Length {
        return false;
      }
      if wantBytes % nodeSize != 0 {
        return false;
      }
      var newTotal := wantBytes / nodeSize % U32_LIMIT;
      if newTotal > mapCoverage {
        return false;
      }
      Quotient(h.totalNodes, nodeSize, wantBytes);
      ghost var total := wantBytes / nodeSize;
      CutCoverage(mapCoverage, Coverage(nodeSize, mapNodes));
      SetSize(newTotal, wantBytes, h, mapNodes, packed, total);
      return true;
    }

    /** The image holds what `before` held, in `total` nodes. */
    ghost predicate PaddedTo(before: seq<byte>, total: nat, h: HeaderRec, mapNodes: nat, packed: nat)
      reads this, bytes
    {
      && ImageHolds(bytes[..], opts.nodeSize, PaddedHeader(h, total, opts.nodeSize, packed), mapNodes, packed)
      && SameNodes(before, bytes[..], opts.nodeSize)
    }

    method SetSize(newTotal: nat, wantBytes: nat, ghost h: HeaderRec, ghost mapNodes: nat, ghost packed: nat,
                   ghost total: nat)
      requires ImageHolds(bytes[..], opts.nodeSize, h, mapNodes, packed) && Agrees(h, mapNodes)
      requires h.totalNodes <= total && h.totalNodes < U32_LIMIT && |bytes[..]| <= wantBytes == total * opts.nodeSize
      requires newTotal == total % U32_LIMIT && newTotal <= Coverage(opts.nodeSize, mapNodes)
      modifies this, bytes
      ensures bytes == old(bytes) || fresh(bytes)
      ensures bytes.Length == wantBytes
      ensures total < U32_LIMIT ==>
        && PaddedTo(old(bytes[..]), total, h, mapNodes, packed)
        && Agrees(PaddedHeader(h, total, opts.nodeSize, packed), mapNodes)
    {
      hide MapInPlace, U32, Splice, Coverage, SameNodes, ImageHolds, Zero;
      ImageFacts(bytes[..], opts.nodeSize, h, mapNodes, packed);
      ghost var before := bytes[..];
      bytes := Grown(bytes, wantBytes);
      ghost var wide := bytes[..];
      if newTotal != totalNodes {
        FreeGrows(freeNodes, newTotal, totalNodes, packed, total);
        freeNodes := (freeNodes + (newTotal + U32_LIMIT - totalNodes)) % U32_LIMIT;
        totalNodes := newTotal;
        Put(bytes, 36, U32(totalNodes));
        Put(bytes, 40, U32(freeNodes));
      }
      ghost var counted := bytes[..];
      Put(bytes, 46, U32(wantBytes));
      if total < U32_LIMIT {
        PaddingHolds(before, wide, counted, bytes[..], opts.nodeSize, h, mapNodes, packed, total, wantBytes);
      }
    }
  }

  /** The buffer itself if it is long enough, else a longer copy ending in zeros. */
  method Grown(a: array<byte>, want: nat) returns (b: array<byte>)
    requires a.Length <= want
    ensures b == a || fresh(b)
    ensures b[..] == a[..] + Zero(want - a.Length)
  {
    if a.Length < want {
      b := new byte[want](_ => 0);
      ghost var blank := b[..];
      Put(b, 0, a[..]);
      CopiedFront(blank, b[..], a[..]);
    } else {
      b := a;
      assert a[..] + Zero(0) == a[..];
    }
  }

  lemma FreeGrows(free: nat, newTotal: nat, oldTotal: nat, packed: nat, total: nat)
    requires newTotal == total % U32_LIMIT && oldTotal <= total && oldTotal < U32_LIMIT
    requires packed <= oldTotal && free == oldTotal - packed
    ensures total < U32_LIMIT ==> newTotal == total
    ensures total < U32_LIMIT ==> (free + (newTotal + U32_LIMIT - oldTotal)) % U32_LIMIT == total - packed
  {
  }

  lemma CopiedFront(blank: seq<byte>, grown: seq<byte>, before: seq<byte>)
    requires |before| <= |blank| && (forall i :: 0 <= i < |blank| ==> blank[i] == 0)
    requires grown == Splice(blank, 0, before)
    ensures grown == before + Zero(|blank| - |before|)
  {
  }

  lemma CutCoverage(cut: nat, coverage: nat)
    requires cut == coverage % U32_LIMIT
    ensures cut <= coverage
  {
  }

  /** The padded image still holds the tree. */
  lemma PaddedTreeHolds(s: seq<byte>, t: seq<byte>, nodeSize: nat, records: seq<Record>, levels: seq<Level>, mapNodes: nat,
                        h: HeaderRec, total: nat)
    requires TreeHolds(s, nodeSize, records, levels, mapNodes, h) && SameNodes(s, t, nodeSize)
    requires ImageHolds(t, nodeSize, PaddedHeader(h, total, nodeSize, TotalNodes(levels, mapNodes)), mapNodes,
                        TotalNodes(levels, mapNodes))
    ensures TreeHolds(t, nodeSize, records, levels, mapNodes,
                      PaddedHeader(h, total, nodeSize, TotalNodes(levels, mapNodes)))
  {
    hide ImageHolds, IsTower, Start, LevelPlaced, SameNodes;
    forall l | 0 <= l < |levels| ensures LevelPlaced(t, nodeSize, levels, mapNodes, l) {
      LevelSame(s, t, nodeSize, levels, mapNodes, l);
    }
  }

  lemma LevelSame(s: seq<byte>, t: seq<byte>, nodeSize: nat, levels: seq<Level>, mapNodes: nat, l: nat)
    requires LevelPlaced(s, nodeSize, levels, mapNodes, l) && SameNodes(s, t, nodeSize)
    ensures LevelPlaced(t, nodeSize, levels, mapNodes, l)
  {
    hide PageHolds, NodeAt, HasNode, DescAt, NodeRecords;
    StartMonotone(levels, mapNodes, 0, l);
    hide Start;
    forall i | 0 <= i < levels[l].Count()
      ensures NodePlaced(t, nodeSize, Start(levels, mapNodes, l), levels[l].Count(), i, KindAt(l), (l + 1) % 0x100,
                         NodeRecords(levels, mapNodes, l, i))
    {
      assert NodePlaced(s, nodeSize, Start(levels, mapNodes, l), levels[l].Count(), i, KindAt(l), (l + 1) % 0x100,
                        NodeRecords(levels, mapNodes, l, i));
    }
  }

  // ----- the builder

  method CountLeafRecords(leaves: seq<seq<Record>>) returns (n: nat)
    ensures n == |Concat(leaves)|
  {
    n := 0;
    for i := 0 to |leaves|
      invariant n == |Concat(leaves[..i])|
    {
      assert leaves[..i + 1] == leaves[..i] + [leaves[i]];
      ConcatSnoc(leaves[..i], leaves[i]);
      n := n + |leaves[i]|;
    }
    assert leaves[..|leaves|] == leaves;
  }

  /** What an accepted build guarantees. */
  ghost predicate Built(img: seq<byte>, opts: BuildOpts, records: seq<Record>, levels: seq<Level>, mapNodes: nat, h: HeaderRec)
  {
    if records == [] then
      mapNodes == 0 && h == EmptyHeader(opts) && ImageHolds(img, opts.nodeSize, h, 0, 1)
    else
      && levels != [] && h == HeaderFor(opts, records, levels, mapNodes)
      && TreeHolds(img, opts.nodeSize, records, levels, mapNodes, h)
      && forall m :: 0 <= m < mapNodes ==> TotalNodes(levels, m) > Coverage(opts.nodeSize, m)
  }

  /** Which lists of records pack: each fits a leaf, and no level of several nodes
      has only keys of which no two neighbours fit an index node. */
  ghost predicate TreeBuilds(records: seq<Record>, nodeSize: nat) {
    && PowerOfTwo(nodeSize) && nodeSize >= MIN_NODE_SIZE && LeavesFit(records, nodeSize)
    && !exists stuck: seq<Level> :: Stalls(records, nodeSize, stuck)
  }

  /** Packs records already in key order. The header's node count is exact while
      it fits its field. */
  method BuildTree(records: seq<Record>, opts: BuildOpts)
    returns (r: Result<BuildResult, BuildError>, ghost levels: seq<Level>, ghost mapNodes: nat, ghost h: HeaderRec)
    requires opts.nodeSize < 0x1_0000
    ensures r.Ok? <==> TreeBuilds(records, opts.nodeSize)
    ensures opts.nodeSize == 0 ==> r == Err(ZeroNodeSize)
    ensures opts.nodeSize > 0 && !PowerOfTwo(opts.nodeSize) ==> r == Err(NotPowerOfTwo)
    ensures PowerOfTwo(opts.nodeSize) && opts.nodeSize < MIN_NODE_SIZE ==> r == Err(BelowMinimum)
    ensures PowerOfTwo(opts.nodeSize) && opts.nodeSize >= MIN_NODE_SIZE ==>
      && (!LeavesFit(records, opts.nodeSize) ==> r == Err(RecordTooBig))
      && (LeavesFit(records, opts.nodeSize) && r.Err? ==> r.error.CannotShrink? && !NarrowKeys(records, opts.nodeSize))
    ensures r.Ok? ==>
      && fresh(r.value) && fresh(r.value.bytes) && r.value.opts == opts
      && Built(r.value.bytes[..], opts, records, levels, mapNodes, h)
      && r.value.Agrees(h, mapNodes)
      && r.value.treeDepth == h.treeDepth && r.value.rootNode == h.rootNode && r.value.leafRecords == |records|
      && r.value.firstLeaf == h.firstLeaf && r.value.lastLeaf == h.lastLeaf
  {
    levels, mapNodes, h := [], 0, EmptyHeader(opts);
    if opts.nodeSize == 0 {
      return Err(ZeroNodeSize), levels, mapNodes, h;
    }
    if !PowerOfTwo(opts.nodeSize) {
      return Err(NotPowerOfTwo), levels, mapNodes, h;
    }
    if opts.nodeSize < MIN_NODE_SIZE {
      return Err(BelowMinimum), levels, mapNodes, h;
    }
    NodeSizeBound(opts.nodeSize);
    var packedLeaves := PackLeaves(records, opts.nodeSize);
    if packedLeaves.Err? {
      return Err(packedLeaves.error), levels, mapNodes, h;
    }
    var leaves := packedLeaves.value;
    if |leaves| == 0 {
      var empty := EmitEmptyTree(opts);
      forall stuck: seq<Level> ensures !Stalls(records, opts.nodeSize, stuck) {
        NothingStalls(opts.nodeSize, stuck);
      }
      return Ok(empty), levels, mapNodes, h;
    }
    var built := BuildLevels(records, leaves, opts.nodeSize);
    if built.Err? {
      return Err(built.error), levels, mapNodes, h;
    }
    var result;
    levels := built.value;
    result, mapNodes, h := EmitTree(records, opts, built.value);
    return Ok(result), levels, mapNodes, h;
  }

  /** No records make no leaves, so their tower has nowhere to stall. */
  lemma NothingStalls(nodeSize: nat, levels: seq<Level>)
    requires nodeSize >= MIN_NODE_SIZE
    ensures !Stalls([], nodeSize, levels)
  {
    if Stalls([], nodeSize, levels) {
      NoGroups(levels[0].leaves);
      CountsFall([], nodeSize, levels, 0);
    }
  }

  lemma NoGroups<T>(groups: seq<seq<T>>)
    requires Concat(groups) == []
    ensures groups != [] ==> groups[0] == []
  {
    if groups != [] {
      assert Concat(groups) == groups[0] + Concat(groups[1..]);
    }
  }

  method EmitEmptyTree(opts: BuildOpts) returns (r: BuildResult)
    requires MIN_NODE_SIZE <= opts.nodeSize <= MAX_NODE_SIZE
    ensures fresh(r) && fresh(r.bytes) && r.opts == opts && r.Agrees(EmptyHeader(opts), 0)
    ensures ImageHolds(r.bytes[..], opts.nodeSize, EmptyHeader(opts), 0, 1)
    ensures r.treeDepth == 0 && r.rootNode == 0 && r.leafRecords == 0 && r.firstLeaf == 0 && r.lastLeaf == 0
  {
    hide HeaderHolds, Only;
    var nodeSize := opts.nodeSize;
    var out := new byte[nodeSize](_ => 0);
    EmitHeaderNode(out, nodeSize, EmptyHeader(opts), 1, 0);
    assert out[..] == out[..][..nodeSize];
    assert NodeAt(out[..], nodeSize, 0) == out[..];
    r := new BuildResult(out, EmptyHeader(opts), HeaderBits(nodeSize), opts);
  }

  /** Count, number, resolve and emit. */
  method EmitTree(records: seq<Record>, opts: BuildOpts, levels: seq<Level>)
    returns (r: BuildResult, ghost mapNodes: nat, ghost h: HeaderRec)
    requires MIN_NODE_SIZE <= opts.nodeSize <= MAX_NODE_SIZE && IsTower(records, opts.nodeSize, levels) && Finished(levels)
    requires LeavesFit(records, opts.nodeSize) && forall l :: 1 <= l < |levels| ==> IndexFits(levels[l], opts.nodeSize)
    requires records != []
    ensures fresh(r) && fresh(r.bytes) && r.opts == opts
    ensures Built(r.bytes[..], opts, records, levels, mapNodes, h) && r.Agrees(h, mapNodes)
    ensures r.treeDepth == h.treeDepth && r.rootNode == h.rootNode && r.leafRecords == |records|
    ensures r.firstLeaf == h.firstLeaf && r.lastLeaf == h.lastLeaf
  {
    hide MapInPlace, LevelsSoFar, Coverage, Only, Blank, LeavesFit, IndexFits, Start, LevelPlaced, Assigned;
    var nodeSize := opts.nodeSize;
    CountsPositive(records, nodeSize, levels, 0);
    var nodes := CountNodes(levels);
    var maps := CountMapNodes(nodes, nodeSize);
    mapNodes := maps;
    var totalNodes := nodes + maps;
    var numbering := AssignNumbers(levels, maps);
    NumberingEnds(levels, maps, numbering);
    var leafRecords := CountLeafRecords(levels[0].leaves);
    assert Greedy(records, LeafSize(), Room(nodeSize), levels[0].leaves);
    var top := |levels| - 1;
    var header := HeaderRec(|levels|, numbering[top][0], leafRecords, numbering[0][0],
                            numbering[0][|numbering[0]| - 1], nodeSize, opts.maxKeyLength, totalNodes, 0,
                            ClumpSizeOf(opts), opts.btreeType, opts.keyCompareType, opts.attributes);
    h := header;
    Times(1 + maps, totalNodes, nodeSize);
    var out := new byte[totalNodes * nodeSize](_ => 0);
    ghost var blank, mapEnd := out[..], (1 + maps) * nodeSize;
    AllBlank(blank);
    BlankPart(blank, 0, |blank|, 0, mapEnd);
    EmitMap(out, nodeSize, header, maps, totalNodes);
    ghost var mapped := out[..];
    NextBlank(blank, mapped, 0, mapEnd, |blank|);
    EmitLevels(out, nodeSize, levels, numbering, records, maps);
    MapKept(mapped, out[..], nodeSize, header, maps, totalNodes, (1 + maps) * nodeSize, totalNodes * nodeSize);
    TreeAssembled(out[..], opts, records, levels, maps, nodes);
    r := new BuildResult(out, header, CoverageOf(nodeSize, maps), opts);
  }

  lemma AllBlank(s: seq<byte>)
    requires forall i :: 0 <= i < |s| ==> s[i] == 0
    ensures Blank(s, 0, |s|)
  {
  }

  function CoverageOf(nodeSize: nat, mapNodes: nat): (n: nat)
    requires nodeSize >= MIN_NODE_SIZE
    ensures n == Coverage(nodeSize, mapNodes)
  {
    HeaderBits(nodeSize) + mapNodes * MapNodeBits(nodeSize)
  }

  /** The header node and every node of every level. */
  method CountNodes(levels: seq<Level>) returns (n: nat)
    ensures n == TotalNodes(levels, 0)
  {
    n := 1;
    for l := 0 to |levels|
      invariant n == Start(levels, 0, l)
    {
      n := n + levels[l].Count();
    }
  }

  lemma NumberingEnds(levels: seq<Level>, mapNodes: nat, numbering: seq<seq<nat>>)
    requires levels != [] && levels[0].Count() >= 1 && levels[|levels| - 1].Count() == 1
    requires |numbering| == |levels| && forall l :: 0 <= l < |levels| ==> Assigned(levels, mapNodes, l, numbering[l])
    ensures |numbering[|levels| - 1]| == 1 && numbering[|levels| - 1][0] == Start(levels, mapNodes, |levels| - 1)
    ensures |numbering[0]| == levels[0].Count()
    ensures numbering[0][0] == 1 + mapNodes && numbering[0][|numbering[0]| - 1] == mapNodes + levels[0].Count()
    ensures TotalNodes(levels, mapNodes) == TotalNodes(levels, 0) + mapNodes >= 1 + mapNodes
  {
    assert Assigned(levels, mapNodes, 0, numbering[0]);
    assert Assigned(levels, mapNodes, |levels| - 1, numbering[|levels| - 1]);
    StartShift(levels, mapNodes, |levels|);
    StartMonotone(levels, mapNodes, 0, |levels|);
  }

  lemma TreeAssembled(img: seq<byte>, opts: BuildOpts, records: seq<Record>, levels: seq<Level>, mapNodes: nat, nodes: nat)
    requires MIN_NODE_SIZE <= opts.nodeSize <= MAX_NODE_SIZE && records != []
    requires IsTower(records, opts.nodeSize, levels) && Finished(levels)
    requires nodes == TotalNodes(levels, 0) && TotalNodes(levels, mapNodes) == nodes + mapNodes >= 1 + mapNodes
    requires nodes + mapNodes <= Coverage(opts.nodeSize, mapNodes)
    requires forall m :: 0 <= m < mapNodes ==> nodes + m > Coverage(opts.nodeSize, m)
    requires |img| == (nodes + mapNodes) * opts.nodeSize
    requires MapInPlace(img, opts.nodeSize, HeaderFor(opts, records, levels, mapNodes), mapNodes, nodes + mapNodes)
    requires LevelsSoFar(img, opts.nodeSize, levels, mapNodes, |levels|)
    ensures Built(img, opts, records, levels, mapNodes, HeaderFor(opts, records, levels, mapNodes))
  {
    hide MapInPlace, LevelPlaced, Coverage, IsTower;
    forall m | 0 <= m < mapNodes ensures TotalNodes(levels, m) > Coverage(opts.nodeSize, m) {
      StartShift(levels, m, |levels|);
    }
  }
}
