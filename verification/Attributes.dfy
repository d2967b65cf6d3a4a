/** The attributes tree: one inline record for every (file, name) pair. */
module Attributes {
  import opened Bytes
  import opened Wrappers
  import opened Unicode
  import opened Tower
  import opened TreeReader
  import opened NodeMap
  import opened BTree
  import opened BTreeBuilder
  import opened TreeShape
  import opened Keys
  import opened Sorting
  import opened SortedTree
  import opened Seqs
  import opened TreeIdentity

  datatype Attr = Attr(fileID: u32, name: seq<Rune>, data: seq<byte>)

  const MAX_ATTR_NAME: nat := 127
  const ATTR_NODE: nat := 8192
  const ATTR_MAX_KEY: nat := 266
  const INLINE: nat := 0x10

  datatype AttrError =
    | BadAttrName
    | AttrNameTooLong
    | AttrTooBig(fileID: nat, size: nat)
    | TwoAttrs(fileID: nat, name: Name)
    | AttrBuild(error: BuildError)

  /** The node less its descriptor, two slots and the largest overhead of a record. */
  function MaxInlineAttrData(nodeSize: nat): int {
    nodeSize - 14 - 2 - 2 - (2 + 266 + 16)
  }

  /** The limit is the largest for which every attribute name still leaves room:
      a value of that size fits a node, and one byte more does not. */
  lemma InlineLimitIsExact(nodeSize: nat)
    requires nodeSize >= MIN_NODE_SIZE && nodeSize % 2 == 0
    ensures MaxInlineAttrData(nodeSize) >= 0
    ensures var most := MaxInlineAttrData(nodeSize) as nat;
      && 2 + ATTR_MAX_KEY + |InlineRecord(Zero(most))| + 2 == Room(nodeSize)
      && 2 + ATTR_MAX_KEY + |InlineRecord(Zero(most + 1))| + 2 > Room(nodeSize)
  {
  }

  /** Record type, reserved words, length, data, and a pad byte after an odd length. */
  function InlineRecord(data: seq<byte>): (b: seq<byte>)
    ensures |b| == 16 + |data| + |data| % 2
  {
    U32(INLINE) + Zero(8) + U32(|data|) + data + Zero(|data| % 2)
  }

  method EncodeInlineAttrData(data: seq<byte>) returns (rec: seq<byte>)
    ensures rec == InlineRecord(data)
  {
    hide U32;
    var size := 4 + 8 + 4 + |data|;
    if size % 2 != 0 {
      size := size + 1;
    }
    var buf := new byte[size](_ => 0);
    ghost var blank := buf[..];
    Put(buf, 0, U32(INLINE));
    Put(buf, 12, U32(|data|));
    Put(buf, 16, data);
    InlineAssembled(blank, data);
    return buf[..];
  }

  lemma InlineAssembled(blank: seq<byte>, data: seq<byte>)
    requires blank == Zero(16 + |data| + |data| % 2)
    ensures Splice(Splice(Splice(blank, 0, U32(INLINE)), 12, U32(|data|)), 16, data) == InlineRecord(data)
  {
    hide U32;
  }

  /** What a reader takes for the attribute's value. */
  function InlineValue(rec: seq<byte>): Option<seq<byte>> {
    if |rec| < 16 || Get32(rec, 0) != INLINE || 16 + Get32(rec, 12) > |rec| then None
    else Some(rec[16..16 + Get32(rec, 12)])
  }

  /** The value reads back, without its pad byte. */
  lemma InlineReadsBack(data: seq<byte>)
    requires |data| < 0x1_0000_0000
    ensures InlineValue(InlineRecord(data)) == Some(data)
    ensures var rec := InlineRecord(data);
      && |rec| % 2 == 0 && 16 + |data| <= |rec| <= 17 + |data|
      && Get32(rec, 0) == 16 && Get32(rec, 12) == |data| && rec[16..16 + |data|] == data
      && (forall i :: 4 <= i < 12 || 16 + |data| <= i < |rec| ==> rec[i] == 0)
  {
    var rec := InlineRecord(data);
    hide U32, Get32;
    assert rec[0..4] == U32(INLINE) && rec[12..16] == U32(|data|) && rec[16..16 + |data|] == data;
    Get32Slice(rec, 0, INLINE);
    Get32Slice(rec, 12, |data|);
  }

  // ----- the record list

  function NameOf(a: Attr, nfd: Normalizer): Name {
    Utf16(nfd(a.name))
  }

  function RecordOf(a: Attr, nfd: Normalizer): Record {
    Record(AttrKey(a.fileID, 0, NameOf(a, nfd)), InlineRecord(a.data))
  }

  function AttrRecords(attrs: seq<Attr>, nfd: Normalizer): (rs: seq<Record>)
    ensures |rs| == |attrs| && forall i :: 0 <= i < |attrs| ==> rs[i] == RecordOf(attrs[i], nfd)
  {
    seq(|attrs|, i requires 0 <= i < |attrs| => RecordOf(attrs[i], nfd))
  }

  /** Within both limits. */
  predicate Accepted(a: Attr, nfd: Normalizer) {
    |NameOf(a, nfd)| <= MAX_ATTR_NAME && |a.data| <= MaxInlineAttrData(ATTR_NODE)
  }

  /** In numbers, and what is said of one that is not accepted. */
  lemma AcceptedInNumbers(a: Attr, nfd: Normalizer)
    ensures Accepted(a, nfd) <==> |Utf16(nfd(a.name))| <= 127 && |a.data| <= 7890
  {
  }

  ghost predicate Refuses(e: AttrError, a: Attr, nfd: Normalizer) {
    match e
    case BadAttrName => |Utf16(nfd(a.name))| > 255
    case AttrNameTooLong => 127 < |Utf16(nfd(a.name))| <= 255
    case AttrTooBig(fileID, size) => fileID == a.fileID && size == |a.data| > 7890 && |Utf16(nfd(a.name))| <= 127
    case TwoAttrs(_, _) => false
    case AttrBuild(_) => false
  }

  method BuildAttrRecords(attrs: seq<Attr>, nfd: Normalizer) returns (r: Result<seq<Record>, AttrError>)
    ensures r.Ok? <==> forall i :: 0 <= i < |attrs| ==> Accepted(attrs[i], nfd)
    ensures r.Ok? ==> r.value == AttrRecords(attrs, nfd)
    ensures r.Err? ==> exists i :: 0 <= i < |attrs| && Refuses(r.error, attrs[i], nfd)
                                   && forall j :: 0 <= j < i ==> Accepted(attrs[j], nfd)
  {
    hide AttrKey, InlineRecord, Utf16;
    var out: seq<Record> := [];
    for i := 0 to |attrs|
      invariant |out| == i && forall j :: 0 <= j < i ==> out[j] == RecordOf(attrs[j], nfd) && Accepted(attrs[j], nfd)
    {
      var a := attrs[i];
      var name := NewName(a.name, nfd);
      if name.Err? {
        return Err(BadAttrName);
      }
      if |name.value| > MAX_ATTR_NAME {
        return Err(AttrNameTooLong);
      }
      if |a.data| > MaxInlineAttrData(ATTR_NODE) {
        return Err(AttrTooBig(a.fileID, |a.data|));
      }
      var key := EncodeAttrKey(a.fileID, 0, name.value);
      var data := EncodeInlineAttrData(a.data);
      out := out + [Record(key, data)];
    }
    return Ok(out);
  }

  /** Accepted attributes have different keys exactly if no two share file and name. */
  lemma KeysArePairs(attrs: seq<Attr>, nfd: Normalizer)
    requires forall i :: 0 <= i < |attrs| ==> Accepted(attrs[i], nfd)
    ensures DistinctKeys(AttrRecords(attrs, nfd)) <==>
      forall i, j :: 0 <= i < j < |attrs| ==> attrs[i].fileID != attrs[j].fileID || nfd(attrs[i].name) != nfd(attrs[j].name)
  {
    hide AttrKey, InlineRecord, Utf16;
    var recs := AttrRecords(attrs, nfd);
    forall i, j | 0 <= i < j < |attrs|
      ensures recs[i].key == recs[j].key <==> attrs[i].fileID == attrs[j].fileID && nfd(attrs[i].name) == nfd(attrs[j].name)
    {
      SameKeySamePair(attrs[i], attrs[j], nfd);
    }
  }

  lemma SameKeySamePair(a: Attr, b: Attr, nfd: Normalizer)
    requires Accepted(a, nfd) && Accepted(b, nfd)
    ensures RecordOf(a, nfd).key == RecordOf(b, nfd).key <==> a.fileID == b.fileID && nfd(a.name) == nfd(b.name)
  {
    AttrKeyReads(a.fileID, 0, NameOf(a, nfd));
    AttrKeyReads(b.fileID, 0, NameOf(b, nfd));
    SameNameSameForm(a.name, b.name, nfd);
    hide AttrKey, AttrRank, AttrName, IsAttrKey, Utf16, InlineRecord;
  }

  // ----- sizes

  /** A record an 8192-byte node has room for, with a key of which many fit. */
  ghost predicate AttrSized(r: Record) {
    && IsAttrKey(r.key) && |r.key| <= ATTR_MAX_KEY && |r.data| <= 16 + MaxInlineAttrData(ATTR_NODE)
    && |r.key| % 2 == 0 && |r.data| % 2 == 0
  }

  lemma SizedWithin(fileID: u32, name: Name, data: seq<byte>)
    requires |name| <= MAX_ATTR_NAME && |data| <= MaxInlineAttrData(ATTR_NODE)
    ensures AttrSized(Record(AttrKey(fileID, 0, name), InlineRecord(data)))
  {
    AttrKeyReads(fileID, 0, name);
    hide AttrKey, IsAttrKey, InlineRecord;
    var n := |data|;
    assert MaxInlineAttrData(ATTR_NODE) == 7890;
    assert n + n % 2 <= 7890 && (16 + n + n % 2) % 2 == 0;
  }

  lemma AcceptedIsSized(a: Attr, nfd: Normalizer)
    requires Accepted(a, nfd)
    ensures AttrSized(RecordOf(a, nfd))
  {
    hide AttrSized, Utf16, AttrKey, InlineRecord;
    SizedWithin(a.fileID, NameOf(a, nfd), a.data);
  }

  /** Attributes within the name and size limits always pack. */
  lemma AttrsPack(recs: seq<Record>, listed: seq<Record>)
    requires multiset(recs) == multiset(listed) && forall i :: 0 <= i < |listed| ==> AttrSized(listed[i])
    ensures LeavesFit(recs, ATTR_NODE) && NarrowKeys(recs, ATTR_NODE) && InDomain(recs, IsAttrKey) && EvenSized(recs)
  {
    hide IsAttrKey;
    forall i | 0 <= i < |recs| ensures AttrSized(recs[i]) {
      assert recs[i] in multiset(listed);
      assert recs[i] in listed;
    }
    forall i | 0 <= i < |recs|
      ensures LeafSize()(recs[i]) <= Room(ATTR_NODE) && 2 * (2 + |recs[i].key| + 4 + 2) <= Room(ATTR_NODE)
    {
      assert AttrSized(recs[i]);
    }
    forall i | 0 <= i < |recs| ensures IsAttrKey(recs[i].key) && |recs[i].key| % 2 == 0 && |recs[i].data| % 2 == 0 {
      assert AttrSized(recs[i]);
    }
  }

  // ----- the tree

  function AttrOpts(): BuildOpts {
    BuildOpts(ATTR_NODE, 6, 0xBC, 0, ATTR_MAX_KEY, 0)
  }

  function AttrLess(): Order { LessBy(CompareAttr) }

  ghost predicate HoldsAttrs(img: seq<byte>, attrs: seq<Attr>, nfd: Normalizer, p: Packed) {
    && multiset(p.records) == multiset(AttrRecords(attrs, nfd)) && Sorted(p.records, AttrLess(), IsAttrKey)
    && Built(img, AttrOpts(), p.records, p.levels, p.mapNodes, p.header)
  }

  method FindRepeatedAttr(sorted: seq<Record>) returns (at: nat)
    requires InDomain(sorted, IsAttrKey)
    ensures at >= |sorted| ==> NeighboursDiffer(sorted, CompareAttr)
    ensures at < |sorted| ==> KeyTwice(sorted, sorted[at].key)
  {
    hide CompareAttr, IsAttrKey;
    AttrOrder();
    at := 1;
    while at < |sorted|
      invariant 1 <= at
      invariant forall j :: 0 < j < at && j < |sorted| ==> CompareAttr(sorted[j - 1].key, sorted[j].key) != 0
    {
      var c := CompareAttrKeys(sorted[at - 1].key, sorted[at].key);
      if c == 0 {
        assert sorted[at - 1].key == sorted[at].key;
        return at;
      }
      at := at + 1;
    }
  }

  lemma AttrKeyHasName(k: Key)
    requires IsAttrKey(k)
    ensures |k| >= ATTR_NAME_AT
  {
  }

  /** Sort, and refuse two values for one (file, name) pair. */
  method ArrangeAttrs(records: seq<Record>) returns (r: Result<seq<Record>, AttrError>)
    requires forall i :: 0 <= i < |records| ==> AttrSized(records[i])
    ensures r.Err? ==> r.error.TwoAttrs?
    ensures r.Err? ==> exists start :: KeyTwice(records, AttrKey(r.error.fileID, start, r.error.name))
    ensures r.Ok? <==> DistinctKeys(records)
    ensures r.Ok? ==> multiset(r.value) == multiset(records) && Sorted(r.value, AttrLess(), IsAttrKey)
  {
    hide CompareAttr, IsAttrKey;
    AttrsPack(records, records);
    AttrOrder();
    var sorted := Sort(records, CompareAttr, IsAttrKey);
    DistinctElsewhere(records, sorted);
    NeighboursDecide(sorted, CompareAttr, IsAttrKey);
    var at := FindRepeatedAttr(sorted);
    if at < |sorted| {
      AttrKeyHasName(sorted[at].key);
      var fileID, name := DescribeAttrKey(sorted[at].key);
      TwiceElsewhere(sorted, records, sorted[at].key);
      return Err(TwoAttrs(fileID, name));
    }
    return Ok(sorted);
  }

  lemma AttrNodeIsPower()
    ensures PowerOfTwo(ATTR_NODE)
  {
    assert PowerOfTwo(64);
    assert PowerOfTwo(1024);
  }

  method BuildAttributesTree(attrs: seq<Attr>, nfd: Normalizer)
    returns (r: Result<BuildResult, AttrError>, ghost p: Packed)
    ensures r.Ok? <==>
      (forall i :: 0 <= i < |attrs| ==> Accepted(attrs[i], nfd)) && DistinctKeys(AttrRecords(attrs, nfd))
    ensures r.Ok? ==>
      && fresh(r.value) && fresh(r.value.bytes)
      && r.value.opts == AttrOpts() && r.value.Agrees(p.header, p.mapNodes)
      && HoldsAttrs(r.value.bytes[..], attrs, nfd, p)
  {
    p := NothingPacked();
    var listed := BuildAttrRecords(attrs, nfd);
    if listed.Err? {
      return Err(listed.error), p;
    }
    forall i | 0 <= i < |attrs| ensures AttrSized(listed.value[i]) {
      AcceptedIsSized(attrs[i], nfd);
    }
    hide AttrRecords, HoldsAttrs, DistinctKeys, KeyTwice, AttrSized, Accepted;
    var arranged := ArrangeAttrs(listed.value);
    if arranged.Err? {
      return Err(arranged.error), p;
    }
    var result;
    result, p := PackAttrs(arranged.value, attrs, nfd);
    return Ok(result), p;
  }

  method PackAttrs(sorted: seq<Record>, ghost attrs: seq<Attr>, ghost nfd: Normalizer)
    returns (r: BuildResult, ghost p: Packed)
    requires forall i :: 0 <= i < |attrs| ==> AttrSized(AttrRecords(attrs, nfd)[i])
    requires multiset(sorted) == multiset(AttrRecords(attrs, nfd)) && Sorted(sorted, AttrLess(), IsAttrKey)
    ensures fresh(r) && fresh(r.bytes) && r.opts == AttrOpts() && r.Agrees(p.header, p.mapNodes)
    ensures HoldsAttrs(r.bytes[..], attrs, nfd, p)
  {
    hide AttrRecords, CompareAttr, IsAttrKey, Sorted, Built, AttrSized, LeavesFit, NarrowKeys, PowerOfTwo;
    AttrsPack(sorted, AttrRecords(attrs, nfd));
    AttrNodeIsPower();
    var built, levels, mapNodes, h := BuildTree(sorted, AttrOpts());
    p := Packed(sorted, levels, mapNodes, h);
    return built.value, p;
  }

  /** Every attribute's value is found under its file and name. */
  lemma AttrFound(img: seq<byte>, attrs: seq<Attr>, nfd: Normalizer, p: Packed, h: HeaderRec, i: nat)
    requires TreeHolds(img, ATTR_NODE, p.records, p.levels, p.mapNodes, h)
    requires h.totalNodes < 0x1_0000_0000 && |p.levels| < 0x1_0000
    requires multiset(p.records) == multiset(AttrRecords(attrs, nfd)) && Sorted(p.records, AttrLess(), IsAttrKey)
    requires i < |attrs| && Accepted(attrs[i], nfd)
    ensures |img| >= MIN_NODE_SIZE
    ensures Lookup(img, ATTR_NODE, AttrKey(attrs[i].fileID, 0, NameOf(attrs[i], nfd)), AttrLess())
         == Some(InlineRecord(attrs[i].data))
    ensures InlineValue(InlineRecord(attrs[i].data)) == Some(attrs[i].data)
  {
    var a := attrs[i];
    AttrKeyReads(a.fileID, 0, NameOf(a, nfd));
    InlineReadsBack(a.data);
    hide TreeHolds, Sorted, Lookup, IsAttrKey, CompareAttr, AttrKey, InlineRecord, InlineValue, Utf16;
    AttrOrder();
    hide StrictOrder;
    var rs := AttrRecords(attrs, nfd);
    assert rs[i] in rs;
    RecordFound(img, ATTR_NODE, p, h, rs, rs[i], AttrLess(), IsAttrKey);
  }

  // ----- the order of the input

  /** Rearranged attributes give the same records, rearranged. */
  lemma {:induction false} RecordsOfPermutation(a: seq<Attr>, b: seq<Attr>, nfd: Normalizer)
    requires multiset(a) == multiset(b)
    ensures multiset(AttrRecords(a, nfd)) == multiset(AttrRecords(b, nfd))
    decreases |a|
  {
    hide RecordOf;
    if a == [] {
      assert |multiset(b)| == |b|;
      assert a == b;
    } else {
      var j := TakeOut(a, b);
      var front, back := b[..j], b[j + 1..];
      RecordsOfPermutation(a[1..], front + back, nfd);
      assert AttrRecords(a, nfd) == [RecordOf(a[0], nfd)] + AttrRecords(a[1..], nfd);
      assert AttrRecords(front + back, nfd) == AttrRecords(front, nfd) + AttrRecords(back, nfd);
      assert AttrRecords(b, nfd) == AttrRecords(front, nfd) + [RecordOf(b[j], nfd)] + AttrRecords(back, nfd);
    }
  }

  /** Whatever order the attributes come in, the tree is the same, byte for byte. */
  lemma AttrInputOrderIsIrrelevant(img: seq<byte>, img': seq<byte>, attrs: seq<Attr>, attrs': seq<Attr>, nfd: Normalizer,
                                   p: Packed, p': Packed)
    requires multiset(attrs) == multiset(attrs')
    requires HoldsAttrs(img, attrs, nfd, p) && HoldsAttrs(img', attrs', nfd, p')
    ensures img == img' && p.records == p'.records
  {
    hide AttrRecords, CompareAttr, IsAttrKey, Built, StrictOrder, Sorted;
    RecordsOfPermutation(attrs, attrs', nfd);
    AttrOrder();
    SortedIsUnique(p.records, p'.records, AttrLess(), IsAttrKey);
    SameRecordsSameBytes(img, img', AttrOpts(), p, p');
  }
}
