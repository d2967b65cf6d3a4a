/** One B-tree node as bytes: descriptor, records from the front, offset table
    from the back; and a reader for it. TN1150, "B-Trees". */
module NodeCodec {
  import opened Bytes
  import opened Wrappers
  import opened Seqs
  import opened Tower

  const LEAF_KIND: byte := 0xFF
  const INDEX_KIND: byte := 0
  const HEADER_KIND: byte := 1
  const MAP_KIND: byte := 2

  /** No node is larger than a power of two that fits 16 bits. */
  const MAX_NODE_SIZE: nat := 0x8000

  datatype Desc = Desc(fLink: nat, bLink: nat, kind: byte, height: byte, numRecords: nat)

  function DescBytes(d: Desc): (b: seq<byte>)
    ensures |b| == DESCRIPTOR_SIZE
  {
    U32(d.fLink) + U32(d.bLink) + [d.kind, d.height] + U16(d.numRecords) + U16(0)
  }

  function RecordBytes(r: Record): (b: seq<byte>)
    ensures |b| == 2 + |r.key| + |r.data|
  {
    U16(|r.key|) + r.key + r.data
  }

  function Body(recs: seq<Record>): seq<byte>
  {
    if recs == [] then [] else Body(recs[..|recs| - 1]) + RecordBytes(recs[|recs| - 1])
  }

  /** Where record `i` starts; for `i == |recs|`, where free space starts. */
  function OffsetOf(recs: seq<Record>, i: nat): nat
    requires i <= |recs|
  {
    DESCRIPTOR_SIZE + |Body(recs[..i])|
  }

  function Offsets(recs: seq<Record>): (o: seq<nat>)
    ensures |o| == |recs| + 1
  {
    seq(|recs| + 1, i requires 0 <= i <= |recs| => OffsetOf(recs, i))
  }

  /** The offset table in memory order: the last offset comes first. */
  function Table(offsets: seq<nat>): (b: seq<byte>)
    ensures |b| == 2 * |offsets|
  {
    if offsets == [] then [] else U16(offsets[|offsets| - 1]) + Table(offsets[..|offsets| - 1])
  }

  /** Descriptor, records and offset table all have their own bytes. */
  predicate Fits(recs: seq<Record>, nodeSize: nat) {
    DESCRIPTOR_SIZE + |Body(recs)| + 2 * (|recs| + 1) <= nodeSize <= MAX_NODE_SIZE
  }

  ghost predicate Blank(s: seq<byte>, lo: nat, hi: nat) {
    lo <= hi <= |s| && forall i :: lo <= i < hi ==> s[i] == 0
  }

  /** `node` holds exactly these records behind this descriptor, and zeros in
      between. */
  ghost predicate PageHolds(node: seq<byte>, desc: Desc, recs: seq<Record>) {
    && Fits(recs, |node|)
    && node[..DESCRIPTOR_SIZE] == DescBytes(desc)
    && node[DESCRIPTOR_SIZE..DESCRIPTOR_SIZE + |Body(recs)|] == Body(recs)
    && node[|node| - 2 * (|recs| + 1)..] == Table(Offsets(recs))
    && Blank(node, DESCRIPTOR_SIZE + |Body(recs)|, |node| - 2 * (|recs| + 1))
  }

  /** The packer's size of a node's records is what they occupy, slots included. */
  lemma {:induction false} SizeIsBody(recs: seq<Record>)
    ensures Total(recs, LeafSize()) == |Body(recs)| + 2 * |recs|
  {
    if recs != [] {
      var n := |recs| - 1;
      SizeIsBody(recs[..n]);
      TotalAppend(recs[..n], [recs[n]], LeafSize());
      assert recs[..n] + [recs[n]] == recs;
    }
  }

  // ----- the writer

  method PutDesc(out: array<byte>, at: nat, d: Desc)
    requires at + DESCRIPTOR_SIZE <= out.Length
    modifies out
    ensures out[..] == Splice(old(out[..]), at, DescBytes(d))
  {
    Put(out, at, U32(d.fLink));
    Put(out, at + 4, U32(d.bLink));
    SpliceTwice(old(out[..]), at, U32(d.fLink), U32(d.bLink));
    Put(out, at + 8, [d.kind, d.height]);
    SpliceTwice(old(out[..]), at, U32(d.fLink) + U32(d.bLink), [d.kind, d.height]);
    Put(out, at + 10, U16(d.numRecords));
    SpliceTwice(old(out[..]), at, U32(d.fLink) + U32(d.bLink) + [d.kind, d.height], U16(d.numRecords));
    Put(out, at + 12, U16(0));
    SpliceTwice(old(out[..]), at, U32(d.fLink) + U32(d.bLink) + [d.kind, d.height] + U16(d.numRecords), U16(0));
  }

  method PutRecord(out: array<byte>, at: nat, r: Record)
    requires at + 2 + |r.key| + |r.data| <= out.Length
    modifies out
    ensures out[..] == Splice(old(out[..]), at, RecordBytes(r))
  {
    Put(out, at, U16(|r.key|));
    Put(out, at + 2, r.key);
    SpliceTwice(old(out[..]), at, U16(|r.key|), r.key);
    Put(out, at + 2 + |r.key|, r.data);
    SpliceTwice(old(out[..]), at, U16(|r.key|) + r.key, r.data);
  }

  /** Outside `[lo, hi)` nothing has changed. */
  ghost predicate Only<T>(before: seq<T>, after: seq<T>, lo: nat, hi: nat) {
    lo <= hi <= |before| == |after| && after[..lo] == before[..lo] && after[hi..] == before[hi..]
  }

  lemma OnlySplice<T>(before: seq<T>, s: seq<T>, at: nat, bs: seq<T>, lo: nat, hi: nat)
    requires Only(before, s, lo, hi) && lo <= at && at + |bs| <= hi
    ensures Only(before, Splice(s, at, bs), lo, hi)
  {
    SpliceOther(s, at, bs, 0, lo);
    SpliceOther(s, at, bs, hi, |s|);
    assert s[0..lo] == s[..lo] && s[hi..|s|] == s[hi..];
    assert Splice(s, at, bs)[0..lo] == Splice(s, at, bs)[..lo];
    assert Splice(s, at, bs)[hi..|s|] == Splice(s, at, bs)[hi..];
  }

  lemma {:induction false} BodyMonotone(recs: seq<Record>, i: nat)
    requires i <= |recs|
    ensures |Body(recs[..i])| <= |Body(recs)|
    decreases |recs|
  {
    if i < |recs| {
      var n := |recs| - 1;
      BodyMonotone(recs[..n], i);
      assert recs[..n][..i] == recs[..i];
    } else {
      assert recs[..i] == recs;
    }
  }

  lemma BodyStep(recs: seq<Record>, i: nat)
    requires i < |recs|
    ensures Body(recs[..i + 1]) == Body(recs[..i]) + RecordBytes(recs[i])
    ensures OffsetOf(recs, i + 1) == OffsetOf(recs, i) + |RecordBytes(recs[i])|
    ensures |Body(recs[..i])| + |RecordBytes(recs[i])| <= |Body(recs)|
  {
    assert recs[..i + 1][..i] == recs[..i];
    BodyMonotone(recs, i + 1);
  }

  /** The descriptor and the first `i` records are in place. */
  ghost predicate FrontHolds(s: seq<byte>, base: nat, desc: Desc, recs: seq<Record>, i: nat)
    requires i <= |recs| && base + OffsetOf(recs, i) <= |s|
  {
    && s[base..base + DESCRIPTOR_SIZE] == DescBytes(desc)
    && s[base + DESCRIPTOR_SIZE..base + OffsetOf(recs, i)] == Body(recs[..i])
  }

  lemma FrontStep(s: seq<byte>, base: nat, desc: Desc, recs: seq<Record>, i: nat)
    requires i < |recs| && base + OffsetOf(recs, i + 1) <= |s| && OffsetOf(recs, i) <= OffsetOf(recs, i + 1)
    requires FrontHolds(s, base, desc, recs, i)
    requires base + OffsetOf(recs, i) + |RecordBytes(recs[i])| <= |s|
    ensures FrontHolds(Splice(s, base + OffsetOf(recs, i), RecordBytes(recs[i])), base, desc, recs, i + 1)
  {
    hide Body, RecordBytes, DescBytes, Splice;
    var at := base + OffsetOf(recs, i);
    BodyStep(recs, i);
    SpliceOther(s, at, RecordBytes(recs[i]), base, base + DESCRIPTOR_SIZE);
    SpliceExtend(s, base + DESCRIPTOR_SIZE, at, RecordBytes(recs[i]));
  }

  lemma FrontKept(s: seq<byte>, t: seq<byte>, base: nat, desc: Desc, recs: seq<Record>, lo: nat, hi: nat)
    requires base + OffsetOf(recs, |recs|) <= lo && Only(s, t, lo, hi)
    requires FrontHolds(s, base, desc, recs, |recs|)
    ensures FrontHolds(t, base, desc, recs, |recs|)
  {
    hide Body, DescBytes;
    var end := base + OffsetOf(recs, |recs|);
    SameBelow(s, t, lo, base, base + DESCRIPTOR_SIZE);
    SameBelow(s, t, lo, base + DESCRIPTOR_SIZE, end);
  }

  lemma TableStep(s: seq<byte>, end: nat, offsets: seq<nat>, i: nat)
    requires i < |offsets| && 2 * (i + 1) <= end <= |s|
    requires s[end - 2 * i..end] == Table(offsets[..i])
    ensures Splice(s, end - 2 * (i + 1), U16(offsets[i]))[end - 2 * (i + 1)..end] == Table(offsets[..i + 1])
  {
    SpliceExtendLeft(s, end - 2 * (i + 1), U16(offsets[i]), end);
    assert offsets[..i + 1][..i] == offsets[..i];
  }

  /** The table is written offset by offset, downwards from `end`. */
  method PutTable(out: array<byte>, end: nat, offsets: seq<nat>)
    requires 2 * |offsets| <= end <= out.Length
    modifies out
    ensures Only(old(out[..]), out[..], end - 2 * |offsets|, end)
    ensures out[..][end - 2 * |offsets|..end] == Table(offsets)
  {
    hide Splice, Table, U16, Only;
    ghost var before, lo := out[..], end - 2 * |offsets|;
    NothingChanged(before, lo, end);
    assert offsets[..0] == [] && offsets[..|offsets|] == offsets;
    EmptyTable();
    for i := 0 to |offsets|
      invariant Only(before, out[..], lo, end)
      invariant out[..][end - 2 * i..end] == Table(offsets[..i])
    {
      TableStep(out[..], end, offsets, i);
      OnlySplice(before, out[..], end - 2 * (i + 1), U16(offsets[i]), lo, end);
      Put(out, end - 2 * (i + 1), U16(offsets[i]));
    }
  }

  lemma NothingChanged<T>(s: seq<T>, lo: nat, hi: nat)
    requires lo <= hi <= |s|
    ensures Only(s, s, lo, hi)
  {
  }

  lemma BlankKept(s: seq<byte>, t: seq<byte>, lo: nat, hi: nat, a: nat, b: nat)
    requires Only(s, t, lo, hi) && Blank(s, a, b) && (b <= lo || hi <= a)
    ensures Blank(t, a, b)
  {
    if b <= lo {
      SameBelow(s, t, lo, a, b);
    } else {
      SameAbove(s, t, hi, a, b);
    }
    forall i | a <= i < b ensures t[i] == 0 {
      assert t[a..b][i - a] == s[a..b][i - a];
    }
  }

  /** A write at the front of a blank stretch leaves the rest of it blank. */
  lemma BlankBehind(s: seq<byte>, at: nat, bs: seq<byte>, end: nat)
    requires Blank(s, at, end) && at + |bs| <= end
    ensures Blank(Splice(s, at, bs), at + |bs|, end)
  {
  }

  lemma BlankPart(s: seq<byte>, lo: nat, hi: nat, a: nat, b: nat)
    requires Blank(s, lo, hi) && lo <= a <= b <= hi
    ensures Blank(s, a, b)
  {
  }

  /** A blank stretch inside a node is blank in the node. */
  lemma BlankInside(s: seq<byte>, base: nat, end: nat, a: nat, b: nat)
    requires base <= end <= |s| && a <= b <= end - base && Blank(s, base + a, base + b)
    ensures Blank(s[base..end], a, b)
  {
  }

  lemma OnlyTwice<T>(a: seq<T>, b: seq<T>, c: seq<T>, lo: nat, hi: nat, lo': nat)
    requires Only(a, b, lo, hi) && Only(b, c, lo', hi) && lo <= lo'
    ensures Only(a, c, lo, hi)
  {
    SameBelow(b, c, lo', 0, lo);
    assert c[0..lo] == c[..lo] && b[0..lo] == b[..lo];
  }

  method WriteRecordsNode(out: array<byte>, base: nat, nodeSize: nat, desc: Desc, recs: seq<Record>)
    requires base + nodeSize <= out.Length && Fits(recs, nodeSize) && Blank(out[..], base, base + nodeSize)
    modifies out
    ensures Only(old(out[..]), out[..], base, base + nodeSize)
    ensures PageHolds(out[..][base..base + nodeSize], desc, recs)
  {
    hide Body, RecordBytes, DescBytes, Splice, Table, U16, Only, FrontHolds, Blank;
    ghost var before := out[..];
    BodyMonotone(recs, |recs|);
    assert recs[..|recs|] == recs && recs[..0] == [];
    BlankBehind(before, base, DescBytes(desc), base + nodeSize);
    PutDesc(out, base, desc);
    WriteFront(out[..], before, base, nodeSize, desc, recs);
    var cur := DESCRIPTOR_SIZE;
    var offsets: seq<nat> := [];
    for i := 0 to |recs|
      invariant cur == OffsetOf(recs, i) && cur <= nodeSize
      invariant |offsets| == i && forall j :: 0 <= j < i ==> offsets[j] == OffsetOf(recs, j)
      invariant FrontHolds(out[..], base, desc, recs, i) && Blank(out[..], base + cur, base + nodeSize)
      invariant Only(before, out[..], base, base + nodeSize)
    {
      BodyStep(recs, i);
      offsets := offsets + [cur];
      FrontStep(out[..], base, desc, recs, i);
      OnlySplice(before, out[..], base + cur, RecordBytes(recs[i]), base, base + nodeSize);
      BlankBehind(out[..], base + cur, RecordBytes(recs[i]), base + nodeSize);
      PutRecord(out, base + cur, recs[i]);
      cur := cur + 2 + |recs[i].key| + |recs[i].data|;
    }
    offsets := offsets + [cur];
    assert offsets == Offsets(recs);
    ghost var filled, slots := out[..], base + nodeSize - 2 * |offsets|;
    PutTable(out, base + nodeSize, offsets);
    BlankPart(filled, base + cur, base + nodeSize, base + cur, slots);
    BlankKept(filled, out[..], slots, base + nodeSize, base + cur, slots);
    FrontKept(filled, out[..], base, desc, recs, slots, base + nodeSize);
    OnlyTwice(before, filled, out[..], base, base + nodeSize, slots);
    FrontAndTable(out[..], base, nodeSize, desc, recs);
  }

  lemma EmptyTable()
    ensures Table([]) == []
  {
  }

  lemma WriteFront(s: seq<byte>, before: seq<byte>, base: nat, nodeSize: nat, desc: Desc, recs: seq<Record>)
    requires base + nodeSize <= |before| && DESCRIPTOR_SIZE <= nodeSize
    requires s == Splice(before, base, DescBytes(desc))
    ensures OffsetOf(recs, 0) == DESCRIPTOR_SIZE
    ensures FrontHolds(s, base, desc, recs, 0)
    ensures Only(before, s, base, base + nodeSize)
  {
    SpliceSame(before, base, DescBytes(desc));
    OnlySplice(before, before, base, DescBytes(desc), base, base + nodeSize);
  }

  lemma FrontAndTable(s: seq<byte>, base: nat, nodeSize: nat, desc: Desc, recs: seq<Record>)
    requires base + nodeSize <= |s| && Fits(recs, nodeSize)
    requires base + OffsetOf(recs, |recs|) <= |s| && FrontHolds(s, base, desc, recs, |recs|)
    requires s[base + nodeSize - 2 * (|recs| + 1)..base + nodeSize] == Table(Offsets(recs))
    requires Blank(s, base + OffsetOf(recs, |recs|), base + nodeSize - 2 * (|recs| + 1))
    ensures PageHolds(s[base..base + nodeSize], desc, recs)
  {
    hide Body, DescBytes, Table, Blank;
    var node := s[base..base + nodeSize];
    assert recs[..|recs|] == recs;
    var end := DESCRIPTOR_SIZE + |Body(recs)|;
    SubSlice(s, base, base + nodeSize, 0, DESCRIPTOR_SIZE);
    SubSlice(s, base, base + nodeSize, DESCRIPTOR_SIZE, end);
    SubSlice(s, base, base + nodeSize, nodeSize - 2 * (|recs| + 1), nodeSize);
    assert node[0..DESCRIPTOR_SIZE] == node[..DESCRIPTOR_SIZE];
    assert node[nodeSize - 2 * (|recs| + 1)..nodeSize] == node[nodeSize - 2 * (|recs| + 1)..];
    assert base + end == base + OffsetOf(recs, |recs|);
    BlankInside(s, base, base + nodeSize, end, nodeSize - 2 * (|recs| + 1));
  }

  // ----- the reader

  function KindOf(node: seq<byte>): byte requires |node| >= DESCRIPTOR_SIZE { node[8] }
  function HeightOf(node: seq<byte>): byte requires |node| >= DESCRIPTOR_SIZE { node[9] }
  function NumRecords(node: seq<byte>): nat requires |node| >= DESCRIPTOR_SIZE { Get16(node, 10) }
  function FLink(node: seq<byte>): nat requires |node| >= DESCRIPTOR_SIZE { Get32(node, 0) }
  function BLink(node: seq<byte>): nat requires |node| >= DESCRIPTOR_SIZE { Get32(node, 4) }

  /** Record `i` of a node, found through the offset table; none when the table
      or the record points outside the node. */
  function ReadRecord(node: seq<byte>, i: nat): Option<Record>
  {
    if 2 * (i + 2) > |node| then None
    else
      var off, next := Get16(node, |node| - 2 * (i + 1)), Get16(node, |node| - 2 * (i + 2));
      if off + 2 > |node| then None
      else
        var keyEnd := off + 2 + Get16(node, off);
        if keyEnd <= next <= |node| then Some(Record(node[off + 2..keyEnd], node[keyEnd..next])) else None
  }

  lemma {:induction false} TableAt(offsets: seq<nat>, i: nat)
    requires i < |offsets|
    ensures Table(offsets)[2 * (|offsets| - 1 - i)..2 * (|offsets| - i)] == U16(offsets[i])
    decreases |offsets|
  {
    var n := |offsets| - 1;
    var rest := Table(offsets[..n]);
    if i < n {
      TableAt(offsets[..n], i);
      hide U16;
      assert Table(offsets) == U16(offsets[n]) + rest;
      assert Table(offsets)[2 * (n - i)..2 * (n + 1 - i)] == rest[2 * (n - 1 - i)..2 * (n - i)];
    }
  }

  lemma {:induction false} BodyAt(recs: seq<Record>, i: nat)
    requires i < |recs|
    ensures OffsetOf(recs, i) + |RecordBytes(recs[i])| == OffsetOf(recs, i + 1) <= DESCRIPTOR_SIZE + |Body(recs)|
    ensures Body(recs)[OffsetOf(recs, i) - DESCRIPTOR_SIZE..OffsetOf(recs, i + 1) - DESCRIPTOR_SIZE]
         == RecordBytes(recs[i])
    decreases |recs|
  {
    hide RecordBytes;
    BodyStep(recs, i);
    var n := |recs| - 1;
    if i < n {
      BodyAt(recs[..n], i);
      assert recs[..n][..i] == recs[..i] && recs[..n][..i + 1] == recs[..i + 1];
    } else {
      assert recs[..i + 1] == recs;
    }
  }

  /** The descriptor reads back. */
  lemma DescReadsBack(node: seq<byte>, desc: Desc, recs: seq<Record>)
    requires PageHolds(node, desc, recs)
    ensures KindOf(node) == desc.kind && HeightOf(node) == desc.height
    ensures FLink(node) == desc.fLink % 0x1_0000_0000 && BLink(node) == desc.bLink % 0x1_0000_0000
    ensures NumRecords(node) == desc.numRecords % 0x1_0000
  {
    var d := DescBytes(desc);
    assert d == node[..DESCRIPTOR_SIZE];
    hide PageHolds;
    DescFields(desc);
    assert node[0..4] == d[0..4] && node[4..8] == d[4..8] && node[10..12] == d[10..12];
    assert node[8] == d[8] && node[9] == d[9];
    hide DescBytes, U16, U32;
    Get32Slice(node, 0, desc.fLink);
    Get32Slice(node, 4, desc.bLink);
    Get16Slice(node, 10, desc.numRecords);
  }

  lemma FewRecords(node: seq<byte>, desc: Desc, recs: seq<Record>)
    requires PageHolds(node, desc, recs)
    ensures DESCRIPTOR_SIZE <= |node| && |recs| < MAX_NODE_SIZE
  {
    hide Body, DescBytes, Table, Blank;
  }

  lemma DescFields(desc: Desc)
    ensures var d := DescBytes(desc);
      d[0..4] == U32(desc.fLink) && d[4..8] == U32(desc.bLink) && d[8] == desc.kind && d[9] == desc.height
      && d[10..12] == U16(desc.numRecords)
  {
    hide U16, U32;
  }

  lemma OffsetReadsBack(node: seq<byte>, desc: Desc, recs: seq<Record>, i: nat)
    requires PageHolds(node, desc, recs) && i <= |recs|
    ensures Get16(node, |node| - 2 * (i + 1)) == OffsetOf(recs, i)
  {
    hide Body, DescBytes, Table, U16, Get16;
    var at := |node| - 2 * (i + 1);
    var table := node[|node| - 2 * (|recs| + 1)..];
    TableAt(Offsets(recs), i);
    assert node[at..at + 2] == table[2 * (|recs| - i)..2 * (|recs| + 1 - i)];
    Get16Slice(node, at, OffsetOf(recs, i));
    BodyMonotone(recs, i);
  }

  /** The reader finds every record the writer put into the node. */
  lemma RecordReadsBack(node: seq<byte>, desc: Desc, recs: seq<Record>, i: nat)
    requires PageHolds(node, desc, recs) && i < |recs|
    ensures ReadRecord(node, i) == Some(recs[i])
  {
    hide Body, DescBytes, Table, U16, RecordBytes, Get16;
    OffsetReadsBack(node, desc, recs, i);
    OffsetReadsBack(node, desc, recs, i + 1);
    BodyAt(recs, i);
    var off, next := OffsetOf(recs, i), OffsetOf(recs, i + 1);
    var body := node[DESCRIPTOR_SIZE..DESCRIPTOR_SIZE + |Body(recs)|];
    SubSlice(node, DESCRIPTOR_SIZE, DESCRIPTOR_SIZE + |Body(recs)|, off - DESCRIPTOR_SIZE, next - DESCRIPTOR_SIZE);
    assert node[off..next] == body[off - DESCRIPTOR_SIZE..next - DESCRIPTOR_SIZE];
    hide PageHolds, Offsets, OffsetOf;
    RecordSlices(node, off, recs[i]);
  }

  lemma RecordSlices(node: seq<byte>, off: nat, r: Record)
    requires off + |RecordBytes(r)| <= |node| <= MAX_NODE_SIZE && node[off..off + |RecordBytes(r)|] == RecordBytes(r)
    ensures off + 2 <= |node| && Get16(node, off) == |r.key|
    ensures node[off + 2..off + 2 + |r.key|] == r.key
    ensures node[off + 2 + |r.key|..off + |RecordBytes(r)|] == r.data
  {
    hide U16, Get16;
    var b := RecordBytes(r);
    var k := |r.key|;
    assert b[0..2] == U16(k) && b[2..2 + k] == r.key && b[2 + k..] == r.data;
    assert node[off..off + 2] == node[off..off + |b|][0..2];
    assert node[off + 2..off + 2 + k] == node[off..off + |b|][2..2 + k];
    assert node[off + 2 + k..off + |b|] == node[off..off + |b|][2 + k..];
    Get16Slice(node, off, k);
  }
}
