/** From the levels of a packed tree to its image, and back: when every node of
    every level is in place, the image stands for a tree over all the records. */
module TreeBytes {
  import opened Bytes
  import opened Wrappers
  import opened Seqs
  import opened Tower
  import opened NodeCodec
  import opened TreeReader

  /** Number of the first node of level `l`: header, map nodes, then the levels
      bottom-up. For `l == |levels|` it is the number of nodes in all. */
  function Start(levels: seq<Level>, mapNodes: nat, l: nat): (n: nat)
    requires l <= |levels|
  {
    if l == 0 then 1 + mapNodes else Start(levels, mapNodes, l - 1) + levels[l - 1].Count()
  }

  function TotalNodes(levels: seq<Level>, mapNodes: nat): nat
  {
    Start(levels, mapNodes, |levels|)
  }

  lemma {:induction false} StartMonotone(levels: seq<Level>, mapNodes: nat, k: nat, l: nat)
    requires k <= l <= |levels|
    ensures Start(levels, mapNodes, k) <= Start(levels, mapNodes, l)
    ensures k < l ==> Start(levels, mapNodes, k) + levels[k].Count() <= Start(levels, mapNodes, l)
  {
    if k < l {
      StartMonotone(levels, mapNodes, k, l - 1);
    }
  }

  lemma {:induction false} StartShift(levels: seq<Level>, mapNodes: nat, l: nat)
    requires l <= |levels|
    ensures Start(levels, mapNodes, l) == Start(levels, 0, l) + mapNodes
  {
    if l > 0 {
      StartShift(levels, mapNodes, l - 1);
    }
  }

  function NumberOf(levels: seq<Level>, mapNodes: nat, l: nat, i: nat): nat
    requires l < |levels|
  {
    Start(levels, mapNodes, l) + i
  }

  /** Node numbers are a bijection: every number past the map nodes belongs to
      exactly one node of one level. */
  lemma NumberedOnce(levels: seq<Level>, mapNodes: nat, n: nat) returns (l: nat, i: nat)
    requires 1 + mapNodes <= n < TotalNodes(levels, mapNodes)
    ensures l < |levels| && i < levels[l].Count() && NumberOf(levels, mapNodes, l, i) == n
    ensures forall k, j :: (0 <= k < |levels| && 0 <= j < levels[k].Count() && NumberOf(levels, mapNodes, k, j) == n
                            ==> k == l && j == i)
  {
    l := NumberedBelow(levels, mapNodes, n, |levels|);
    i := n - Start(levels, mapNodes, l);
    forall k, j | 0 <= k < |levels| && 0 <= j < levels[k].Count() && NumberOf(levels, mapNodes, k, j) == n
      ensures k == l && j == i
    {
      if k < l {
        StartMonotone(levels, mapNodes, k, l);
      } else {
        StartMonotone(levels, mapNodes, l, k);
      }
    }
  }

  lemma {:induction false} NumberedBelow(levels: seq<Level>, mapNodes: nat, n: nat, m: nat) returns (l: nat)
    requires m <= |levels| && 1 + mapNodes <= n < Start(levels, mapNodes, m)
    ensures l < m && Start(levels, mapNodes, l) <= n < Start(levels, mapNodes, l) + levels[l].Count()
  {
    if n >= Start(levels, mapNodes, m - 1) {
      l := m - 1;
    } else {
      l := NumberedBelow(levels, mapNodes, n, m - 1);
    }
  }

  /** Index records as written: key and the child's node number. */
  function Resolved(recs: seq<IdxRec>, below: nat): (r: seq<Record>)
    ensures |r| == |recs|
  {
    seq(|recs|, j requires 0 <= j < |recs| => Record(recs[j].key, U32(below + recs[j].child)))
  }

  function NodeRecords(levels: seq<Level>, mapNodes: nat, l: nat, i: nat): seq<Record>
    requires l < |levels| && i < levels[l].Count()
    requires l > 0 ==> levels[l].Indices?
  {
    if levels[l].Leaves? then levels[l].leaves[i]
    else if l == 0 then []
    else Resolved(levels[l].nodes[i], Start(levels, mapNodes, l - 1))
  }

  ghost predicate Kinds(levels: seq<Level>) {
    levels != [] && levels[0].Leaves? && forall l :: 1 <= l < |levels| ==> levels[l].Indices?
  }

  /** Node `i` of a level whose nodes start at `start` and hold `nodes`. */
  ghost predicate NodePlaced(img: seq<byte>, nodeSize: nat, start: nat, count: nat, i: nat,
                             kind: byte, height: nat, recs: seq<Record>)
    requires height < 0x100
  {
    && HasNode(img, nodeSize, start + i)
    && PageHolds(NodeAt(img, nodeSize, start + i), DescAt(start, count, i, kind, height, |recs|), recs)
  }

  /** The descriptor of node `i`: links to its neighbours in the level. */
  function DescAt(start: nat, count: nat, i: nat, kind: byte, height: nat, n: nat): Desc
    requires height < 0x100
  {
    Desc(if i + 1 < count then start + i + 1 else 0, if i > 0 && start + i > 0 then start + i - 1 else 0, kind, height, n)
  }

  function KindAt(l: nat): byte { if l == 0 then LEAF_KIND else INDEX_KIND }

  /** Level `l` is in the image. Heights are cut to a byte. */
  ghost predicate LevelPlaced(img: seq<byte>, nodeSize: nat, levels: seq<Level>, mapNodes: nat, l: nat)
  {
    && Kinds(levels) && l < |levels|
    && forall i :: 0 <= i < levels[l].Count() ==>
      NodePlaced(img, nodeSize, Start(levels, mapNodes, l), levels[l].Count(), i, KindAt(l), (l + 1) % 0x100,
                 NodeRecords(levels, mapNodes, l, i))
  }

  // ----- the tree

  /** Children point into the level below, with the first key found there. */
  ghost predicate Linked(levels: seq<Level>) {
    && Kinds(levels)
    && (forall i :: 0 <= i < |levels[0].leaves| ==> levels[0].leaves[i] != [])
    && (forall l, i :: 1 <= l < |levels| && 0 <= i < |levels[l].nodes| ==> NodeLinked(levels, l, i))
  }

  ghost predicate NodeLinked(levels: seq<Level>, l: nat, i: nat)
    requires 1 <= l < |levels| && levels[l].Indices? && i < |levels[l].nodes|
  {
    && levels[l].nodes[i] != []
    && forall j :: 0 <= j < |levels[l].nodes[i]| ==>
         && levels[l].nodes[i][j].child < levels[l - 1].Count()
         && levels[l].nodes[i][j].key == levels[l - 1].FirstKey(levels[l].nodes[i][j].child)
  }

  lemma TowerIsLinked(records: seq<Record>, nodeSize: nat, levels: seq<Level>)
    requires nodeSize >= MIN_NODE_SIZE && IsTower(records, nodeSize, levels)
    ensures Linked(levels)
  {
    forall l, i | 1 <= l < |levels| && 0 <= i < levels[l].Count()
      ensures levels[l].Indices? && NodeLinked(levels, l, i)
    {
      assert LevelOver(levels[l - 1], levels[l], nodeSize);
      forall j | 0 <= j < |levels[l].nodes[i]|
        ensures levels[l].nodes[i][j].child < levels[l - 1].Count()
        ensures levels[l].nodes[i][j].key == levels[l - 1].FirstKey(levels[l].nodes[i][j].child)
      {
        var k := ConcatIndex(levels[l].nodes, i, j);
        assert levels[l].nodes[i][j] == Entries(levels[l - 1].FirstKeys())[k];
      }
    }
    forall l | 1 <= l < |levels| ensures levels[l].Indices? {
      assert LevelOver(levels[l - 1], levels[l], nodeSize);
    }
  }

  ghost function TreeAt(levels: seq<Level>, l: nat, i: nat): Tree
    requires Linked(levels) && l < |levels| && i < levels[l].Count()
    decreases l, 0
  {
    if l == 0 then Leaf(levels[0].leaves[i])
    else
      assert NodeLinked(levels, l, i);
      Index(KidsOf(levels, l - 1, levels[l].nodes[i]))
  }

  ghost predicate ChildrenIn(recs: seq<IdxRec>, count: nat) {
    forall j :: 0 <= j < |recs| ==> recs[j].child < count
  }

  ghost function KidsOf(levels: seq<Level>, l: nat, recs: seq<IdxRec>): (kids: seq<Tree>)
    requires Linked(levels) && l < |levels| && ChildrenIn(recs, levels[l].Count())
    ensures |kids| == |recs|
    ensures forall j :: 0 <= j < |recs| ==> kids[j] == TreeAt(levels, l, recs[j].child)
    decreases l, |recs| + 1
  {
    if recs == [] then []
    else [TreeAt(levels, l, recs[0].child)] + KidsOf(levels, l, recs[1..])
  }

  lemma {:induction false} TreeIsSolid(levels: seq<Level>, l: nat, i: nat)
    requires Linked(levels) && l < |levels| && i < levels[l].Count()
    ensures Solid(TreeAt(levels, l, i))
    ensures FirstKeyOf(TreeAt(levels, l, i)) == levels[l].FirstKey(i)
    decreases l
  {
    if l > 0 {
      var node := levels[l].nodes[i];
      assert NodeLinked(levels, l, i);
      var kids := KidsOf(levels, l - 1, node);
      forall j | 0 <= j < |kids|
        ensures Solid(kids[j]) && FirstKeyOf(kids[j]) == node[j].key
      {
        TreeIsSolid(levels, l - 1, node[j].child);
      }
      assert TreeAt(levels, l, i) == Index(kids);
    }
  }

  // ----- the image represents the tree

  /** Levels 0 to `l` are in the image, and its node numbers fit their fields. */
  ghost predicate PlacedTo(img: seq<byte>, nodeSize: nat, levels: seq<Level>, mapNodes: nat, l: nat) {
    && Linked(levels) && l < |levels| && TotalNodes(levels, mapNodes) <= 0x1_0000_0000
    && forall k :: 0 <= k <= l ==> LevelPlaced(img, nodeSize, levels, mapNodes, k)
  }

  /** Node `i` of level `l` represents its tree. */
  ghost predicate Stands(img: seq<byte>, nodeSize: nat, levels: seq<Level>, mapNodes: nat, l: nat, i: nat)
  {
    && Linked(levels) && l < |levels| && i < levels[l].Count()
    && Solid(TreeAt(levels, l, i))
    && Represents(img, nodeSize, Start(levels, mapNodes, l) + i, TreeAt(levels, l, i), l + 1)
  }

  lemma {:induction false} PlacedRepresents(img: seq<byte>, nodeSize: nat, levels: seq<Level>, mapNodes: nat,
                                            l: nat, i: nat)
    requires PlacedTo(img, nodeSize, levels, mapNodes, l) && i < levels[l].Count()
    ensures Stands(img, nodeSize, levels, mapNodes, l, i)
    decreases l
  {
    if l == 0 {
      LeafStands(img, nodeSize, levels, mapNodes, i);
    } else {
      var entries := levels[l].nodes[i];
      assert NodeLinked(levels, l, i) && ChildrenIn(entries, levels[l - 1].Count());
      assert PlacedTo(img, nodeSize, levels, mapNodes, l - 1) && LevelPlaced(img, nodeSize, levels, mapNodes, l);
      hide PlacedTo, Stands, KidRepresented, LevelPlaced;
      forall j | 0 <= j < |entries| ensures KidRepresented(img, nodeSize, levels, mapNodes, l, entries, j) {
        PlacedRepresents(img, nodeSize, levels, mapNodes, l - 1, entries[j].child);
        KidKnown(img, nodeSize, levels, mapNodes, l, i, j);
      }
      IndexStands(img, nodeSize, levels, mapNodes, l, i, entries);
    }
  }

  /** A placed node reads back as its records. */
  lemma PlacedReads(img: seq<byte>, nodeSize: nat, levels: seq<Level>, mapNodes: nat, l: nat, i: nat)
    requires Kinds(levels) && l < |levels| && i < levels[l].Count()
    requires LevelPlaced(img, nodeSize, levels, mapNodes, l)
    ensures HasNode(img, nodeSize, Start(levels, mapNodes, l) + i)
    ensures ReadsAs(NodeAt(img, nodeSize, Start(levels, mapNodes, l) + i), KindAt(l), (l + 1) % 0x100,
                    NodeRecords(levels, mapNodes, l, i))
  {
    hide ReadRecord, PageHolds, NodeAt, Start, ReadsAs;
    var recs := NodeRecords(levels, mapNodes, l, i);
    assert NodePlaced(img, nodeSize, Start(levels, mapNodes, l), levels[l].Count(), i, KindAt(l), (l + 1) % 0x100, recs);
    PageReadsAs(NodeAt(img, nodeSize, Start(levels, mapNodes, l) + i),
                DescAt(Start(levels, mapNodes, l), levels[l].Count(), i, KindAt(l), (l + 1) % 0x100, |recs|), recs);
  }

  lemma LeafStands(img: seq<byte>, nodeSize: nat, levels: seq<Level>, mapNodes: nat, i: nat)
    requires PlacedTo(img, nodeSize, levels, mapNodes, 0) && i < levels[0].Count()
    ensures Stands(img, nodeSize, levels, mapNodes, 0, i)
  {
    hide ReadRecord, NodeAt, Start;
    PlacedReads(img, nodeSize, levels, mapNodes, 0, i);
    assert levels[0].leaves[i] != [];
    hide LevelPlaced;
  }

  /** The index record names the kid: by its first key and its node number. */
  ghost predicate KidNamed(img: seq<byte>, nodeSize: nat, r: Record, kid: Tree, depth: nat) {
    && Solid(kid) && r.key == FirstKeyOf(kid) && |r.data| == 4
    && Represents(img, nodeSize, Get32(r.data, 0), kid, depth)
  }

  /** The child of entry `j`, as the index record written for it names it. */
  ghost predicate KidRepresented(img: seq<byte>, nodeSize: nat, levels: seq<Level>, mapNodes: nat, l: nat,
                                 entries: seq<IdxRec>, j: nat)
  {
    && Linked(levels) && 1 <= l < |levels| && j < |entries| && ChildrenIn(entries, levels[l - 1].Count())
    && KidNamed(img, nodeSize, Resolved(entries, Start(levels, mapNodes, l - 1))[j],
                TreeAt(levels, l - 1, entries[j].child), l)
  }

  lemma KidKnown(img: seq<byte>, nodeSize: nat, levels: seq<Level>, mapNodes: nat, l: nat, i: nat, j: nat)
    requires PlacedTo(img, nodeSize, levels, mapNodes, l) && 1 <= l && i < levels[l].Count()
    requires NodeLinked(levels, l, i) && j < |levels[l].nodes[i]|
    requires Stands(img, nodeSize, levels, mapNodes, l - 1, levels[l].nodes[i][j].child)
    ensures ChildrenIn(levels[l].nodes[i], levels[l - 1].Count())
    ensures KidRepresented(img, nodeSize, levels, mapNodes, l, levels[l].nodes[i], j)
  {
    hide Represents, TreeAt, Solid, FirstKeyOf, Get32, U32, LevelPlaced;
    var child := levels[l].nodes[i][j].child;
    TreeIsSolid(levels, l - 1, child);
    StartMonotone(levels, mapNodes, l - 1, |levels|);
    U32RoundTrip(Start(levels, mapNodes, l - 1) + child);
  }

  lemma IndexStands(img: seq<byte>, nodeSize: nat, levels: seq<Level>, mapNodes: nat, l: nat, i: nat, entries: seq<IdxRec>)
    requires Kinds(levels) && Linked(levels)
    requires 1 <= l < |levels| && levels[l].Indices? && i < levels[l].Count() && entries == levels[l].nodes[i]
    requires LevelPlaced(img, nodeSize, levels, mapNodes, l) && ChildrenIn(entries, levels[l - 1].Count())
    requires forall j :: 0 <= j < |entries| ==> KidRepresented(img, nodeSize, levels, mapNodes, l, entries, j)
    ensures Stands(img, nodeSize, levels, mapNodes, l, i)
  {
    hide Kinds;
    hide NodeAt, Start, LevelPlaced, NodeLinked, TreeAt, KidNamed, KidRepresented, ReadsAs, KidsOf, Represents, Linked,
         ChildrenIn, NodeRecords, Solid;
    PlacedReads(img, nodeSize, levels, mapNodes, l, i);
    TreeIsSolid(levels, l, i);
    TreeIsIndex(levels, l, i);
    var num := Start(levels, mapNodes, l) + i;
    KidsAreNamed(img, nodeSize, levels, mapNodes, l, i, entries);
    KidsRead(img, nodeSize, num, NodeAt(img, nodeSize, num), NodeRecords(levels, mapNodes, l, i),
             KidsOf(levels, l - 1, entries), l);
  }

  lemma KidsAreNamed(img: seq<byte>, nodeSize: nat, levels: seq<Level>, mapNodes: nat, l: nat, i: nat,
                     entries: seq<IdxRec>)
    requires Linked(levels) && 1 <= l < |levels| && i < levels[l].Count() && entries == levels[l].nodes[i]
    requires ChildrenIn(entries, levels[l - 1].Count())
    requires forall j :: 0 <= j < |entries| ==> KidRepresented(img, nodeSize, levels, mapNodes, l, entries, j)
    ensures |NodeRecords(levels, mapNodes, l, i)| == |entries|
    ensures forall j :: 0 <= j < |entries| ==>
      KidNamed(img, nodeSize, NodeRecords(levels, mapNodes, l, i)[j], KidsOf(levels, l - 1, entries)[j], l)
  {
    hide Start, NodeLinked, TreeAt, KidNamed, KidsOf;
    var recs, kids := NodeRecords(levels, mapNodes, l, i), KidsOf(levels, l - 1, entries);
    forall j | 0 <= j < |recs| ensures KidNamed(img, nodeSize, recs[j], kids[j], l) {
      assert KidRepresented(img, nodeSize, levels, mapNodes, l, entries, j);
    }
  }

  lemma KidsRead(img: seq<byte>, nodeSize: nat, num: nat, node: seq<byte>, recs: seq<Record>, kids: seq<Tree>, l: nat)
    requires 1 <= l && |kids| == |recs| && Solid(Index(kids))
    requires HasNode(img, nodeSize, num) && node == NodeAt(img, nodeSize, num)
    requires ReadsAs(node, INDEX_KIND, (l + 1) % 0x100, recs)
    requires forall j :: 0 <= j < |recs| ==> KidNamed(img, nodeSize, recs[j], kids[j], l)
    ensures Represents(img, nodeSize, num, Index(kids), l + 1)
  {
    hide ReadRecord, NodeAt, FirstKeyOf, Represents;
    forall j | 0 <= j < |kids| ensures KidRead(img, nodeSize, node, kids[j], j, l) {
      assert ReadRecord(node, j) == Some(recs[j]);
      assert KidNamed(img, nodeSize, recs[j], kids[j], l);
    }
    KidsMakeIndex(img, nodeSize, num, kids, l + 1);
  }

  lemma KidsMakeIndex(img: seq<byte>, nodeSize: nat, num: nat, kids: seq<Tree>, depth: nat)
    requires Solid(Index(kids)) && HasNode(img, nodeSize, num) && depth > 1
    requires KindOf(NodeAt(img, nodeSize, num)) == INDEX_KIND && HeightOf(NodeAt(img, nodeSize, num)) == depth % 0x100
    requires NumRecords(NodeAt(img, nodeSize, num)) == |kids|
    requires forall j :: 0 <= j < |kids| ==> KidRead(img, nodeSize, NodeAt(img, nodeSize, num), kids[j], j, depth - 1)
    ensures Represents(img, nodeSize, num, Index(kids), depth)
  {
    hide NodeAt, ReadRecord, FirstKeyOf;
    forall j | 0 <= j < |kids|
      ensures ReadRecord(NodeAt(img, nodeSize, num), j).Some?
      ensures ReadRecord(NodeAt(img, nodeSize, num), j).value.key == FirstKeyOf(kids[j])
      ensures |ReadRecord(NodeAt(img, nodeSize, num), j).value.data| == 4
      ensures Represents(img, nodeSize, Get32(ReadRecord(NodeAt(img, nodeSize, num), j).value.data, 0), kids[j], depth - 1)
    {
      assert KidRead(img, nodeSize, NodeAt(img, nodeSize, num), kids[j], j, depth - 1);
    }
  }

  lemma TreeIsIndex(levels: seq<Level>, l: nat, i: nat)
    requires Linked(levels) && 1 <= l < |levels| && i < levels[l].Count()
    requires ChildrenIn(levels[l].nodes[i], levels[l - 1].Count())
    ensures TreeAt(levels, l, i) == Index(KidsOf(levels, l - 1, levels[l].nodes[i]))
  {
  }

  /** Record `j` of an index node leads to the kid. */
  ghost predicate KidRead(img: seq<byte>, nodeSize: nat, node: seq<byte>, kid: Tree, j: nat, depth: nat) {
    ReadRecord(node, j).Some? && KidNamed(img, nodeSize, ReadRecord(node, j).value, kid, depth)
  }

  /** The leaf level is chained both ways. */
  lemma PlacedChained(img: seq<byte>, nodeSize: nat, levels: seq<Level>, mapNodes: nat)
    requires Linked(levels) && LevelPlaced(img, nodeSize, levels, mapNodes, 0)
    requires TotalNodes(levels, mapNodes) <= 0x1_0000_0000
    ensures Chained(img, nodeSize, 1 + mapNodes, levels[0].leaves)
  {
    hide ReadRecord, PageHolds, NodeAt, ReadsAs;
    var leaves, start := levels[0].leaves, 1 + mapNodes;
    StartMonotone(levels, mapNodes, 0, |levels|);
    assert Start(levels, mapNodes, 0) == start;
    forall i | 0 <= i < |leaves| ensures ChainedAt(img, nodeSize, start, leaves, i) {
      LeafChained(img, nodeSize, levels, mapNodes, i);
    }
  }

  lemma LinksRead(node: seq<byte>, desc: Desc, recs: seq<Record>)
    requires PageHolds(node, desc, recs) && desc.numRecords == |recs|
    requires desc.fLink < 0x1_0000_0000 && desc.bLink < 0x1_0000_0000
    ensures ReadsAs(node, desc.kind, desc.height, recs)
    ensures FLink(node) == desc.fLink && BLink(node) == desc.bLink
  {
    hide PageHolds, ReadsAs, FLink, BLink;
    PageReadsAs(node, desc, recs);
    DescReadsBack(node, desc, recs);
  }

  lemma LeafChained(img: seq<byte>, nodeSize: nat, levels: seq<Level>, mapNodes: nat, i: nat)
    requires Kinds(levels) && LevelPlaced(img, nodeSize, levels, mapNodes, 0) && i < levels[0].Count()
    requires 1 + mapNodes + levels[0].Count() <= 0x1_0000_0000
    ensures ChainedAt(img, nodeSize, 1 + mapNodes, levels[0].leaves, i)
  {
    hide ReadRecord, PageHolds, NodeAt, ReadsAs, FLink, BLink;
    var leaves, start := levels[0].leaves, 1 + mapNodes;
    var desc := DescAt(start, |leaves|, i, LEAF_KIND, 1, |leaves[i]|);
    assert NodePlaced(img, nodeSize, Start(levels, mapNodes, 0), levels[0].Count(), i, KindAt(0), (0 + 1) % 0x100,
                      NodeRecords(levels, mapNodes, 0, i));
    hide LevelPlaced;
    LinksRead(NodeAt(img, nodeSize, start + i), desc, leaves[i]);
  }

  // ----- the tree holds all the records

  ghost function Forest(levels: seq<Level>, l: nat, n: nat): (ts: seq<Tree>)
    requires Linked(levels) && l < |levels| && n <= levels[l].Count()
    ensures |ts| == n && forall i :: 0 <= i < n ==> ts[i] == TreeAt(levels, l, i)
  {
    seq(n, i requires 0 <= i < n => TreeAt(levels, l, i))
  }

  lemma {:induction false} LeavesUnder(levels: seq<Level>, n: nat)
    requires Linked(levels) && n <= levels[0].Count()
    ensures UnderAll(Forest(levels, 0, n)) == Concat(levels[0].leaves[..n])
  {
    if n > 0 {
      LeavesUnder(levels, n - 1);
      var t := TreeAt(levels, 0, n - 1);
      assert Forest(levels, 0, n) == Forest(levels, 0, n - 1) + [t];
      UnderAllAppend(Forest(levels, 0, n - 1), [t]);
      OneUnder(t);
      assert levels[0].leaves[..n] == levels[0].leaves[..n - 1] + [levels[0].leaves[n - 1]];
      ConcatSnoc(levels[0].leaves[..n - 1], levels[0].leaves[n - 1]);
    }
  }

  lemma OneUnder(t: Tree)
    ensures UnderAll([t]) == Under(t)
  {
    assert UnderAll([t][1..]) == [];
  }

  lemma {:induction false} KidsAppend(levels: seq<Level>, l: nat, a: seq<IdxRec>, b: seq<IdxRec>)
    requires Linked(levels) && l < |levels|
    requires ChildrenIn(a, levels[l].Count()) && ChildrenIn(b, levels[l].Count())
    ensures ChildrenIn(a + b, levels[l].Count())
    ensures KidsOf(levels, l, a + b) == KidsOf(levels, l, a) + KidsOf(levels, l, b)
  {
  }

  /** The first `n` nodes of level `l` cover what their entries cover below. */
  lemma {:induction false} NodesUnder(levels: seq<Level>, l: nat, n: nat)
    requires Linked(levels) && 1 <= l < |levels| && n <= levels[l].Count()
    ensures ChildrenIn(Concat(levels[l].nodes[..n]), levels[l - 1].Count())
    ensures UnderAll(Forest(levels, l, n)) == UnderAll(KidsOf(levels, l - 1, Concat(levels[l].nodes[..n])))
    decreases n
  {
    if n > 0 {
      NodesUnder(levels, l, n - 1);
      NodesUnderStep(levels, l, n - 1);
    }
  }

  lemma NodesUnderStep(levels: seq<Level>, l: nat, n: nat)
    requires Linked(levels) && 1 <= l < |levels| && n < levels[l].Count()
    requires ChildrenIn(Concat(levels[l].nodes[..n]), levels[l - 1].Count())
    requires UnderAll(Forest(levels, l, n)) == UnderAll(KidsOf(levels, l - 1, Concat(levels[l].nodes[..n])))
    ensures ChildrenIn(Concat(levels[l].nodes[..n + 1]), levels[l - 1].Count())
    ensures UnderAll(Forest(levels, l, n + 1)) == UnderAll(KidsOf(levels, l - 1, Concat(levels[l].nodes[..n + 1])))
  {
    assert NodeLinked(levels, l, n);
    var node, t := levels[l].nodes[n], TreeAt(levels, l, n);
    assert t == Index(KidsOf(levels, l - 1, node));
    assert Under(t) == UnderAll(KidsOf(levels, l - 1, node));
    hide Linked, TreeAt, KidsOf, UnderAll, Under, Concat;
    var before := Concat(levels[l].nodes[..n]);
    assert Forest(levels, l, n + 1) == Forest(levels, l, n) + [t];
    UnderAllAppend(Forest(levels, l, n), [t]);
    OneUnder(t);
    assert levels[l].nodes[..n + 1] == levels[l].nodes[..n] + [node];
    ConcatSnoc(levels[l].nodes[..n], node);
    KidsAppend(levels, l - 1, before, node);
    UnderAllAppend(KidsOf(levels, l - 1, before), KidsOf(levels, l - 1, node));
  }

  /** Every level's forest covers the records, in order. */
  lemma {:induction false} ForestCovers(records: seq<Record>, nodeSize: nat, levels: seq<Level>, l: nat)
    requires nodeSize >= MIN_NODE_SIZE && IsTower(records, nodeSize, levels) && Linked(levels) && l < |levels|
    ensures UnderAll(Forest(levels, l, levels[l].Count())) == records
    decreases l
  {
    if l == 0 {
      LeavesUnder(levels, levels[0].Count());
      assert levels[0].leaves[..levels[0].Count()] == levels[0].leaves;
    } else {
      ForestCovers(records, nodeSize, levels, l - 1);
      NodesUnder(levels, l, levels[l].Count());
      assert levels[l].nodes[..levels[l].Count()] == levels[l].nodes;
      assert LevelOver(levels[l - 1], levels[l], nodeSize);
      var entries := Entries(levels[l - 1].FirstKeys());
      assert KidsOf(levels, l - 1, entries) == Forest(levels, l - 1, levels[l - 1].Count());
    }
  }

  /** The root of a finished tower covers exactly the records. */
  lemma RootCovers(records: seq<Record>, nodeSize: nat, levels: seq<Level>)
    requires nodeSize >= MIN_NODE_SIZE && IsTower(records, nodeSize, levels) && Finished(levels) && Linked(levels)
    ensures Under(TreeAt(levels, |levels| - 1, 0)) == records
  {
    var top := |levels| - 1;
    ForestCovers(records, nodeSize, levels, top);
    assert Forest(levels, top, 1) == [TreeAt(levels, top, 0)];
    OneUnder(TreeAt(levels, top, 0));
  }
}
