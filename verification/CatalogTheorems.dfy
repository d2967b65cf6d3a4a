/** What the catalog tree is good for: every entry is found under its own name,
    the order of the input does not matter, and neither do the values the second
    pass fills in. */
module CatalogTheorems {
  import opened Bytes
  import opened Wrappers
  import opened Unicode
  import opened Tower
  import opened TreeReader
  import opened NodeMap
  import opened TreeBytes
  import opened BTree
  import opened BTreeBuilder
  import opened TreeShape
  import opened Keys
  import opened Seqs
  import opened Sorting
  import opened TreeIdentity
  import opened SortedTree
  import opened Catalog

  // ----- looking entries up

  function CatalogLess(): Order { LessBy(CompareCatalog) }

  /** Looking up a name in a folder. */
  function FindRecord(img: seq<byte>, nodeSize: nat, parent: nat, name: Name): Option<seq<byte>>
  {
    if |img| < MIN_NODE_SIZE then None else Lookup(img, nodeSize, CatalogKey(parent, name), CatalogLess())
  }

  /** Every entry is found under its parent and name, and its CNID leads back. */
  lemma EntryFound(img: seq<byte>, nodeSize: nat, vs: seq<EntryView>, p: Packed, h: HeaderRec, i: nat)
    requires TreeHolds(img, nodeSize, p.records, p.levels, p.mapNodes, h)
    requires h.totalNodes < 0x1_0000_0000 && |p.levels| < 0x1_0000
    requires multiset(p.records) == multiset(CatalogRecords(vs)) && Sorted(p.records, CatalogLess(), IsCatalogKey)
    requires i < |vs| && vs[i].cnid != ROOT_PARENT
    ensures FindRecord(img, nodeSize, vs[i].parent, vs[i].name) == Some(ForwardRecord(vs[i]))
    ensures FindRecord(img, nodeSize, vs[i].cnid, []) == Some(ThreadRecord(vs[i]))
  {
    var v := vs[i];
    EntryHasRecords(vs, i);
    CatalogKeyReads(v.parent, v.name);
    CatalogKeyReads(v.cnid, []);
    hide TreeHolds, Sorted, Lookup, IsCatalogKey, CompareCatalog, CatalogRecords, CatalogKey, ForwardRecord, ThreadRecord;
    CatalogOrder();
    hide StrictOrder;
    RecordFound(img, nodeSize, p, h, CatalogRecords(vs), Record(CatalogKey(v.parent, v.name), ForwardRecord(v)),
                CatalogLess(), IsCatalogKey);
    RecordFound(img, nodeSize, p, h, CatalogRecords(vs), Record(CatalogKey(v.cnid, []), ThreadRecord(v)),
                CatalogLess(), IsCatalogKey);
  }

  // ----- the order of the input

  lemma {:induction false} RecordsAppend(a: seq<EntryView>, b: seq<EntryView>)
    ensures CatalogRecords(a + b) == CatalogRecords(a) + CatalogRecords(b)
    decreases |b|
  {
    hide PairOf;
    if b == [] {
      assert a + b == a;
    } else {
      var n := |b| - 1;
      assert (a + b)[..|a + b| - 1] == a + b[..n] && (a + b)[|a + b| - 1] == b[n];
      RecordsAppend(a, b[..n]);
    }
  }

  lemma OneEntry(v: EntryView)
    ensures CatalogRecords([v]) == PairOf(v)
  {
    hide PairOf;
    assert CatalogRecords([v][..0]) == [];
  }

  /** Rearranged entries give the same records, rearranged. */
  lemma {:induction false} RecordsOfPermutation(a: seq<EntryView>, b: seq<EntryView>)
    requires multiset(a) == multiset(b)
    ensures multiset(CatalogRecords(a)) == multiset(CatalogRecords(b))
    decreases |a|
  {
    hide PairOf, CatalogRecords;
    if a == [] {
      assert |multiset(b)| == |b|;
      assert a == b;
    } else {
      var v, rest := a[0], a[1..];
      assert a == [v] + rest;
      var j := TakeOut(a, b);
      var front, back := b[..j], b[j + 1..];
      assert b == front + [v] + back;
      RecordsOfPermutation(rest, front + back);
      RecordsAppend([v], rest);
      RecordsAppend(front, back);
      RecordsAppend(front + [v], back);
      RecordsAppend(front, [v]);
      OneEntry(v);
    }
  }

  /** Whatever order the entries come in, the tree is the same, byte for byte. */
  lemma InputOrderIsIrrelevant(img: seq<byte>, img': seq<byte>, vs: seq<EntryView>, vs': seq<EntryView>,
                               nodeSize: nat, p: Packed, p': Packed)
    requires nodeSize >= MIN_NODE_SIZE && multiset(vs) == multiset(vs')
    requires HoldsCatalog(img, vs, nodeSize, p) && HoldsCatalog(img', vs', nodeSize, p')
    ensures img == img' && p.records == p'.records
  {
    hide CatalogRecords, CompareCatalog, IsCatalogKey, Built, StrictOrder, Sorted;
    RecordsOfPermutation(vs, vs');
    CatalogOrder();
    SortedIsUnique(p.records, p'.records, CatalogLess(), IsCatalogKey);
    SameRecordsSameBytes(img, img', CatalogOpts(nodeSize), p, p');
  }

  // ----- the second pass

  /** The same objects: only what the planner fills in may differ. */
  ghost predicate SameObjects(vs: seq<EntryView>, vs': seq<EntryView>) {
    && |vs| == |vs'|
    && forall i :: 0 <= i < |vs| ==>
         && vs[i].cnid == vs'[i].cnid && vs[i].parent == vs'[i].parent && vs[i].name == vs'[i].name
         && vs[i].kind == vs'[i].kind
  }

  /** A record with its data blanked. */
  function Blanked(r: Record): Record {
    Record(r.key, Zero(|r.data|))
  }

  function BlankedAll(recs: seq<Record>): (bs: seq<Record>)
    ensures |bs| == |recs| && forall i :: 0 <= i < |recs| ==> bs[i] == Blanked(recs[i])
  {
    seq(|recs|, i requires 0 <= i < |recs| => Blanked(recs[i]))
  }

  lemma PairBlanked(v: EntryView, v': EntryView)
    requires v.cnid == v'.cnid && v.parent == v'.parent && v.name == v'.name && v.kind == v'.kind
    ensures BlankedAll(PairOf(v)) == BlankedAll(PairOf(v'))
  {
    assert |ForwardRecord(v)| == |ForwardRecord(v')| && |ThreadRecord(v)| == |ThreadRecord(v')|;
    hide CatalogKey, ForwardRecord, ThreadRecord, Zero;
  }

  /** Filling in extents, sizes and counters changes no key and no length. */
  lemma {:induction false} ListBlanked(vs: seq<EntryView>, vs': seq<EntryView>)
    requires SameObjects(vs, vs')
    ensures BlankedAll(CatalogRecords(vs)) == BlankedAll(CatalogRecords(vs'))
    decreases |vs|
  {
    if vs != [] {
      var n := |vs| - 1;
      ListBlanked(vs[..n], vs'[..n]);
      PairBlanked(vs[n], vs'[n]);
      BlankedAppend(CatalogRecords(vs[..n]), PairOf(vs[n]));
      BlankedAppend(CatalogRecords(vs'[..n]), PairOf(vs'[n]));
    }
  }

  lemma BlankedAppend(a: seq<Record>, b: seq<Record>)
    ensures BlankedAll(a + b) == BlankedAll(a) + BlankedAll(b)
  {
  }

  lemma {:induction false} BlankedPermutation(a: seq<Record>, b: seq<Record>)
    requires multiset(a) == multiset(b)
    ensures multiset(BlankedAll(a)) == multiset(BlankedAll(b))
    decreases |a|
  {
    hide Blanked;
    if a == [] {
      assert |multiset(b)| == |b|;
      assert a == b;
    } else {
      var r, rest := a[0], a[1..];
      assert a == [r] + rest;
      var j := TakeOut(a, b);
      var front, back := b[..j], b[j + 1..];
      assert b == front + [r] + back;
      BlankedPermutation(rest, front + back);
      BlankedAppend([r], rest);
      BlankedAppend(front, back);
      BlankedAppend(front + [r], back);
      BlankedAppend(front, [r]);
    }
  }

  lemma BlankedSorted(recs: seq<Record>, lt: Order, dom: Key -> bool)
    requires Sorted(recs, lt, dom)
    ensures Sorted(BlankedAll(recs), lt, dom)
  {
    forall i | 0 <= i < |recs| ensures BlankedAll(recs)[i].key == recs[i].key {
    }
  }

  lemma BlankedSizes(a: seq<Record>, b: seq<Record>)
    requires BlankedAll(a) == BlankedAll(b)
    ensures SameSizes(a, b)
  {
    forall i | 0 <= i < |a| ensures |b| == |a| && a[i].key == b[i].key && |a[i].data| == |b[i].data| {
      assert BlankedAll(a)[i] == BlankedAll(b)[i];
    }
    assert |BlankedAll(a)| == |BlankedAll(b)|;
  }

  /** Two-pass stability: packing again after the planner has filled in the
      entries gives the same record order, header, node count and byte length. */
  lemma SecondPassIsStable(img: seq<byte>, img': seq<byte>, vs: seq<EntryView>, vs': seq<EntryView>,
                           nodeSize: nat, p: Packed, p': Packed)
    requires SameObjects(vs, vs') && HoldsCatalog(img, vs, nodeSize, p) && HoldsCatalog(img', vs', nodeSize, p')
    ensures SameSizes(p.records, p'.records)
    ensures p.mapNodes == p'.mapNodes && p.header == p'.header && |img| == |img'|
  {
    hide CatalogRecords, CompareCatalog, IsCatalogKey, ImageHolds, LevelPlaced, StrictOrder, IsTower, Sorted, Blanked,
         SameObjects;
    ListBlanked(vs, vs');
    BlankedPermutation(p.records, CatalogRecords(vs));
    BlankedPermutation(p'.records, CatalogRecords(vs'));
    CatalogOrder();
    BlankedSorted(p.records, CatalogLess(), IsCatalogKey);
    BlankedSorted(p'.records, CatalogLess(), IsCatalogKey);
    SortedIsUnique(BlankedAll(p.records), BlankedAll(p'.records), CatalogLess(), IsCatalogKey);
    BlankedSizes(p.records, p'.records);
    BuiltSameShape(img, img', CatalogOpts(nodeSize), p.records, p'.records, p.levels, p'.levels,
                   p.mapNodes, p'.mapNodes, p.header, p'.header);
  }
}
