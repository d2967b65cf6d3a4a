/** Finding a listed record in the tree over a sorted rearrangement of the list. */
module SortedTree {
  import opened Bytes
  import opened Wrappers
  import opened Tower
  import opened NodeCodec
  import opened TreeReader
  import opened NodeMap
  import opened Packing
  import opened TreeBytes
  import opened BTree
  import opened TreeShape

  lemma OnlyAnswer(recs: seq<Record>, q: Key, data: seq<byte>, found: Option<seq<byte>>, lt: Order, dom: Key -> bool)
    requires StrictOrder(lt, dom) && Sorted(recs, lt, dom) && Record(q, data) in recs && IsLookup(recs, q, found)
    ensures found == Some(data)
  {
    var i :| 0 <= i < |recs| && recs[i] == Record(q, data);
    if found.Some? {
      var j :| 0 <= j < |recs| && recs[j] == Record(q, found.value);
      LaterIsAbove(recs, i, j, lt, dom);
      LaterIsAbove(recs, j, i, lt, dom);
    }
  }

  lemma LaterIsAbove(recs: seq<Record>, i: nat, j: nat, lt: Order, dom: Key -> bool)
    requires Sorted(recs, lt, dom)
    ensures i < j < |recs| ==> lt(recs[i].key, recs[j].key)
  {
  }

  /** A record of the list is found under its key, whatever order it was in. */
  lemma RecordFound(img: seq<byte>, nodeSize: nat, p: Packed, h: HeaderRec, listed: seq<Record>, r: Record,
                    lt: Order, dom: Key -> bool)
    requires TreeHolds(img, nodeSize, p.records, p.levels, p.mapNodes, h)
    requires h.totalNodes < 0x1_0000_0000 && |p.levels| < 0x1_0000
    requires multiset(p.records) == multiset(listed) && r in listed && dom(r.key)
    requires StrictOrder(lt, dom) && Sorted(p.records, lt, dom)
    ensures |img| >= MIN_NODE_SIZE && Lookup(img, nodeSize, r.key, lt) == Some(r.data)
  {
    hide TreeHolds, Sorted, StrictOrder, IsLookup, Lookup;
    assert r in multiset(p.records);
    LookupFinds(img, nodeSize, p.records, p.levels, p.mapNodes, h, r.key, lt, dom);
    OnlyAnswer(p.records, r.key, r.data, Lookup(img, nodeSize, r.key, lt), lt, dom);
  }

  // ----- record offsets

  ghost predicate EvenSized(recs: seq<Record>) {
    forall i :: 0 <= i < |recs| ==> |recs[i].key| % 2 == 0 && |recs[i].data| % 2 == 0
  }

  /** Records of even sizes start at even offsets, and so does free space. */
  lemma {:induction false} EvenOffsets(recs: seq<Record>, i: nat)
    requires EvenSized(recs) && i <= |recs|
    ensures OffsetOf(recs, i) % 2 == 0
    decreases i
  {
    if i > 0 {
      EvenOffsets(recs, i - 1);
      assert recs[..i][..i - 1] == recs[..i - 1] && recs[..i][i - 1] == recs[i - 1];
      assert |recs[i - 1].key| % 2 == 0;
    }
  }

  /** In every node of the tree, leaf or index. */
  lemma NodeOffsetsEven(records: seq<Record>, nodeSize: nat, levels: seq<Level>, mapNodes: nat, l: nat, n: nat, i: nat)
    requires nodeSize >= MIN_NODE_SIZE && IsTower(records, nodeSize, levels) && Kinds(levels) && EvenSized(records)
    requires l < |levels| && n < levels[l].Count() && i <= |NodeRecords(levels, mapNodes, l, n)|
    ensures OffsetOf(NodeRecords(levels, mapNodes, l, n), i) % 2 == 0
  {
    hide OffsetOf, Greedy;
    var recs := NodeRecords(levels, mapNodes, l, n);
    forall j | 0 <= j < |recs| ensures |recs[j].key| % 2 == 0 && |recs[j].data| % 2 == 0 {
      if l == 0 {
        LeafRecordListed(records, nodeSize, levels, n, j);
      } else {
        IndexKeyListed(records, nodeSize, levels, l, n, j);
      }
    }
    EvenOffsets(recs, i);
  }

  lemma LeafRecordListed(records: seq<Record>, nodeSize: nat, levels: seq<Level>, n: nat, j: nat)
    requires nodeSize >= MIN_NODE_SIZE && IsTower(records, nodeSize, levels) && EvenSized(records)
    requires n < levels[0].Count() && j < |levels[0].leaves[n]|
    ensures var r := levels[0].leaves[n][j]; |r.key| % 2 == 0 && |r.data| % 2 == 0
  {
    var k := ConcatIndex(levels[0].leaves, n, j);
    assert records[k] == levels[0].leaves[n][j];
  }

  lemma IndexKeyListed(records: seq<Record>, nodeSize: nat, levels: seq<Level>, l: nat, n: nat, j: nat)
    requires nodeSize >= MIN_NODE_SIZE && IsTower(records, nodeSize, levels) && EvenSized(records)
    requires 0 < l < |levels| && n < levels[l].Count() && levels[l].Indices? && j < |levels[l].nodes[n]|
    ensures |levels[l].nodes[n][j].key| % 2 == 0
  {
    assert LevelOver(levels[l - 1], levels[l], nodeSize);
    var k := ConcatIndex(levels[l].nodes, n, j);
    assert Entries(levels[l - 1].FirstKeys())[k] == levels[l].nodes[n][j];
    var m := FirstKeysAreKeys(records, nodeSize, levels, l - 1, k);
    assert |records[m].key| % 2 == 0;
  }
}
