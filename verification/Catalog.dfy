/** The catalog: entries, their two records each, and the tree over them. */
module Catalog {
  import opened Bytes
  import opened Wrappers
  import opened Unicode
  import opened Tower
  import opened TreeReader
  import opened BTree
  import opened BTreeBuilder
  import opened TreeShape
  import opened Keys
  import opened Sorting

  const ROOT_PARENT: u32 := 1
  const ROOT_FOLDER: u32 := 2

  type u16 = x: int | 0 <= x < 0x1_0000
  type u64 = x: int | 0 <= x < 0x1_0000_0000_0000_0000

  datatype Kind = Folder | File | Symlink | Unknown(code: nat)

  datatype Owner = Owner(mode: u16, ownerID: u32, groupID: u32)

  datatype Dates = Dates(create: u32, contentMod: u32, attributeMod: u32, access: u32, backup: u32)

  /** A contiguous run of blocks. */
  datatype Extent = Extent(start: u32, count: u32)

  /** A fork in at most one extent; the seven further slots stay zero. */
  datatype ForkData = ForkData(logicalSize: u64, clumpSize: u32, totalBlocks: u32, extent: Extent)

  /** One catalog object. The planner fills in the fork, the walk the counters. */
  class Entry {
    const cnid: u32
    const parent: u32
    const name: HfsName
    const kind: Kind
    const owner: Owner
    const dates: Dates
    var valence: u32
    var subFolders: u32
    var size: u64
    var blocks: u32
    var extent: Extent
    var hasAttributes: bool

    constructor (cnid: u32, parent: u32, name: HfsName, kind: Kind, owner: Owner, dates: Dates, size: u64)
      ensures View() == EntryView(cnid, parent, name, kind, owner, dates, 0, 0, size, 0, Extent(0, 0), false)
    {
      this.cnid, this.parent, this.name, this.kind, this.owner, this.dates := cnid, parent, name, kind, owner, dates;
      valence, subFolders, this.size, blocks, extent, hasAttributes := 0, 0, size, 0, Extent(0, 0), false;
    }

    function View(): EntryView
      reads this
    {
      EntryView(cnid, parent, name, kind, owner, dates, valence, subFolders, size, blocks, extent, hasAttributes)
    }
  }

  /** What an entry says at one moment. */
  datatype EntryView = EntryView(
    cnid: u32, parent: u32, name: HfsName, kind: Kind, owner: Owner, dates: Dates,
    valence: u32, subFolders: u32, size: u64, blocks: u32, extent: Extent, hasAttributes: bool)

  function Views(entries: seq<Entry>): (vs: seq<EntryView>)
    reads entries
    ensures |vs| == |entries| && forall i :: 0 <= i < |entries| ==> vs[i] == entries[i].View()
  {
    seq(|entries|, i requires 0 <= i < |entries| reads entries => entries[i].View())
  }

  // ----- records

  function ForkBytes(f: ForkData): (b: seq<byte>)
    ensures |b| == 80
  {
    U64(f.logicalSize) + U32(f.clumpSize) + U32(f.totalBlocks) + U32(f.extent.start) + U32(f.extent.count) + Zero(56)
  }

  function DateBytes(d: Dates): (b: seq<byte>)
    ensures |b| == 20
  {
    U32(d.create) + U32(d.contentMod) + U32(d.attributeMod) + U32(d.access) + U32(d.backup)
  }

  function OwnerBytes(o: Owner): (b: seq<byte>)
    ensures |b| == 16
  {
    U32(o.ownerID) + U32(o.groupID) + Zero(2) + U16(o.mode) + U32(0)
  }

  /** MacRoman for printable ASCII, Unicode for anything else. */
  function TextEncodingHint(name: Name): nat {
    if forall i :: 0 <= i < |name| ==> 0x20 <= name[i] < 0x7F then 0 else 0x7F
  }

  const FOLDER_RECORD: nat := 1
  const FILE_RECORD: nat := 2
  const FOLDER_THREAD: nat := 3
  const FILE_THREAD: nat := 4
  const HAS_ATTRIBUTES: nat := 4
  const HAS_FOLDER_COUNT: nat := 16
  const LINK_TYPE: nat := 0x736C6E6B
  const LINK_CREATOR: nat := 0x72686170

  /** The fields every forward record starts with: type, flags, one word, CNID. */
  function RecordHead(kind: nat, flags: nat, word: nat, cnid: nat): (b: seq<byte>)
    ensures |b| == 12
  {
    U16(kind) + U16(flags) + U32(word) + U32(cnid)
  }

  function FolderRecord(v: EntryView): (b: seq<byte>)
    ensures |b| == 88
  {
    RecordHead(FOLDER_RECORD, HAS_FOLDER_COUNT + if v.hasAttributes then HAS_ATTRIBUTES else 0, v.valence, v.cnid)
    + DateBytes(v.dates) + OwnerBytes(v.owner) + Zero(32) + U32(TextEncodingHint(v.name)) + U32(v.subFolders)
  }

  function FinderType(v: EntryView): (b: seq<byte>)
    ensures |b| == 8
  {
    if v.kind.Symlink? then U32(LINK_TYPE) + U32(LINK_CREATOR) else Zero(8)
  }

  /** A file record up to its forks. */
  function FileFront(v: EntryView): (b: seq<byte>)
    ensures |b| == 88
  {
    RecordHead(FILE_RECORD, if v.hasAttributes then HAS_ATTRIBUTES else 0, 0, v.cnid)
    + DateBytes(v.dates) + OwnerBytes(v.owner) + FinderType(v) + Zero(24) + U32(TextEncodingHint(v.name)) + Zero(4)
  }

  function FileRecord(v: EntryView): (b: seq<byte>)
    ensures |b| == 248
  {
    FileFront(v) + ForkBytes(ForkData(v.size, 0, v.blocks, v.extent)) + Zero(80)
  }

  function ThreadRecord(v: EntryView): (b: seq<byte>)
    ensures |b| == 10 + 2 * |v.name|
  {
    U16(if v.kind.Folder? then FOLDER_THREAD else FILE_THREAD) + U16(0) + U32(v.parent) + U16(|v.name|) + NameBytes(v.name)
  }

  method EncodeFolderRecord(v: EntryView) returns (rec: seq<byte>)
    ensures rec == FolderRecord(v)
  {
    hide U16, U32, DateBytes, OwnerBytes, Zero, RecordHead;
    var flags := HAS_FOLDER_COUNT;
    if v.hasAttributes {
      flags := flags + HAS_ATTRIBUTES;
    }
    var buf := new byte[88](_ => 0);
    assert buf[..0] == [];
    var at := PutNext(buf, 0, RecordHead(FOLDER_RECORD, flags, v.valence, v.cnid));
    at := PutNext(buf, at, DateBytes(v.dates));
    at := PutNext(buf, at, OwnerBytes(v.owner));
    at := PutNext(buf, at, Zero(32));
    at := PutNext(buf, at, U32(TextEncodingHint(v.name)));
    at := PutNext(buf, at, U32(v.subFolders));
    return buf[..at];
  }

  method EncodeFileRecord(v: EntryView) returns (rec: seq<byte>)
    ensures rec == FileRecord(v)
  {
    hide Zero, FileFront, ForkBytes;
    var buf := new byte[248](_ => 0);
    var at := PutFileFront(buf, v);
    at := PutNext(buf, at, ForkBytes(ForkData(v.size, 0, v.blocks, v.extent)));
    at := PutNext(buf, at, Zero(80));
    return buf[..at];
  }

  method PutFileFront(buf: array<byte>, v: EntryView) returns (at: nat)
    requires buf.Length >= 88
    modifies buf
    ensures at == 88 && buf[..at] == FileFront(v)
  {
    hide U16, U32, DateBytes, OwnerBytes, Zero, RecordHead, FinderType, TextEncodingHint;
    assert buf[..0] == [];
    at := PutNext(buf, 0, RecordHead(FILE_RECORD, if v.hasAttributes then HAS_ATTRIBUTES else 0, 0, v.cnid));
    at := PutNext(buf, at, DateBytes(v.dates));
    at := PutNext(buf, at, OwnerBytes(v.owner));
    at := PutNext(buf, at, FinderType(v));
    at := PutNext(buf, at, Zero(24));
    at := PutNext(buf, at, U32(TextEncodingHint(v.name)));
    at := PutNext(buf, at, Zero(4));
  }

  method EncodeThreadRecord(v: EntryView) returns (rec: seq<byte>)
    ensures rec == ThreadRecord(v)
  {
    hide U16, U32, NameBytes, Splice;
    var buf := new byte[10 + 2 * |v.name|](_ => 0);
    assert buf[..0] == [];
    var at := PutNext(buf, 0, U16(if v.kind.Folder? then FOLDER_THREAD else FILE_THREAD));
    at := PutNext(buf, at, U16(0));
    at := PutNext(buf, at, U32(v.parent));
    at := PutNext(buf, at, U16(|v.name|));
    ghost var before := buf[..];
    PutName(buf, at, v.name);
    SpliceExtend(before, 0, at, NameBytes(v.name));
    assert before[0..at] == before[..at] && buf[..][0..buf.Length] == buf[..];
    return buf[..];
  }

  // ----- what a reader finds in a record

  lemma ForkReads(f: ForkData)
    ensures var b := ForkBytes(f);
      && Get64(b, 0) == f.logicalSize && Get32(b, 8) == f.clumpSize && Get32(b, 12) == f.totalBlocks
      && Get32(b, 16) == f.extent.start && Get32(b, 20) == f.extent.count
  {
    var b := ForkBytes(f);
    hide U32, U64, Get32, Get64, Zero;
    assert b[0..8] == U64(f.logicalSize) && b[8..12] == U32(f.clumpSize) && b[12..16] == U32(f.totalBlocks);
    assert b[16..20] == U32(f.extent.start) && b[20..24] == U32(f.extent.count);
    Get64Slice(b, 0, f.logicalSize);
    Get32Slice(b, 8, f.clumpSize);
    Get32Slice(b, 12, f.totalBlocks);
    Get32Slice(b, 16, f.extent.start);
    Get32Slice(b, 20, f.extent.count);
  }

  /** A fork found inside a buffer reads the same as on its own. */
  lemma ForkReadsAt(b: seq<byte>, at: nat, f: ForkData)
    requires at + 80 <= |b| && b[at..at + 80] == ForkBytes(f)
    ensures Get64(b, at) == f.logicalSize && Get32(b, at + 8) == f.clumpSize && Get32(b, at + 12) == f.totalBlocks
    ensures Get32(b, at + 16) == f.extent.start && Get32(b, at + 20) == f.extent.count
  {
    ForkReads(f);
    hide ForkBytes;
    var c := b[at..at + 80];
    assert forall i :: 0 <= i < 24 ==> c[i] == b[at + i];
  }

  lemma HeadReads(kind: nat, flags: nat, word: nat, cnid: nat)
    requires kind < 0x1_0000 && flags < 0x1_0000 && word < 0x1_0000_0000 && cnid < 0x1_0000_0000
    ensures var b := RecordHead(kind, flags, word, cnid);
      Get16(b, 0) == kind && Get16(b, 2) == flags && Get32(b, 4) == word && Get32(b, 8) == cnid
  {
    var b := RecordHead(kind, flags, word, cnid);
    hide U16, U32, Get16, Get32;
    assert b[0..2] == U16(kind) && b[2..4] == U16(flags) && b[4..8] == U32(word) && b[8..12] == U32(cnid);
    Get16Slice(b, 0, kind);
    Get16Slice(b, 2, flags);
    Get32Slice(b, 4, word);
    Get32Slice(b, 8, cnid);
  }

  lemma HeadReadsAt(rec: seq<byte>, kind: nat, flags: nat, word: nat, cnid: nat)
    requires kind < 0x1_0000 && flags < 0x1_0000 && word < 0x1_0000_0000 && cnid < 0x1_0000_0000
    requires |rec| >= 12 && rec[..12] == RecordHead(kind, flags, word, cnid)
    ensures Get16(rec, 0) == kind && Get16(rec, 2) == flags && Get32(rec, 4) == word && Get32(rec, 8) == cnid
  {
    HeadReads(kind, flags, word, cnid);
    hide RecordHead;
    var c := rec[..12];
    assert forall i :: 0 <= i < 12 ==> c[i] == rec[i];
  }

  /** Five dates, owner, group and mode, at the same places in every forward record. */
  ghost predicate StampsRead(rec: seq<byte>, d: Dates, o: Owner) {
    && |rec| >= 48
    && Get32(rec, 12) == d.create && Get32(rec, 16) == d.contentMod && Get32(rec, 20) == d.attributeMod
    && Get32(rec, 24) == d.access && Get32(rec, 28) == d.backup
    && Get32(rec, 32) == o.ownerID && Get32(rec, 36) == o.groupID && Get16(rec, 40) == 0 && Get16(rec, 42) == o.mode
    && Get32(rec, 44) == 0
  }

  lemma DatesRead(rec: seq<byte>, d: Dates)
    requires |rec| >= 48 && rec[12..32] == DateBytes(d)
    ensures Get32(rec, 12) == d.create && Get32(rec, 16) == d.contentMod && Get32(rec, 20) == d.attributeMod
    ensures Get32(rec, 24) == d.access && Get32(rec, 28) == d.backup
  {
    var b := DateBytes(d);
    hide U32, Get32;
    assert b[0..4] == U32(d.create) && b[4..8] == U32(d.contentMod) && b[8..12] == U32(d.attributeMod);
    assert b[12..16] == U32(d.access) && b[16..20] == U32(d.backup);
    hide DateBytes;
    SubSlice(rec, 12, 32, 0, 4);
    SubSlice(rec, 12, 32, 4, 8);
    SubSlice(rec, 12, 32, 8, 12);
    SubSlice(rec, 12, 32, 12, 16);
    SubSlice(rec, 12, 32, 16, 20);
    Get32Slice(rec, 12, d.create);
    Get32Slice(rec, 16, d.contentMod);
    Get32Slice(rec, 20, d.attributeMod);
    Get32Slice(rec, 24, d.access);
    Get32Slice(rec, 28, d.backup);
  }

  lemma OwnerPieces(o: Owner)
    ensures var b := OwnerBytes(o);
      && b[0..4] == U32(o.ownerID) && b[4..8] == U32(o.groupID) && b[8..10] == U16(0) && b[10..12] == U16(o.mode)
      && b[12..16] == U32(0)
  {
    assert Zero(2) == U16(0);
    hide U32, U16;
  }

  lemma OwnerReads(rec: seq<byte>, o: Owner)
    requires |rec| >= 48 && rec[32..48] == OwnerBytes(o)
    ensures Get32(rec, 32) == o.ownerID && Get32(rec, 36) == o.groupID && Get16(rec, 40) == 0 && Get16(rec, 42) == o.mode
    ensures Get32(rec, 44) == 0
  {
    hide U32, U16, Get32, Get16, OwnerBytes;
    OwnerPieces(o);
    SubSlice(rec, 32, 48, 0, 4);
    SubSlice(rec, 32, 48, 4, 8);
    SubSlice(rec, 32, 48, 8, 10);
    SubSlice(rec, 32, 48, 10, 12);
    SubSlice(rec, 32, 48, 12, 16);
    Get32Slice(rec, 32, o.ownerID);
    Get32Slice(rec, 36, o.groupID);
    Get16Slice(rec, 40, 0);
    Get16Slice(rec, 42, o.mode);
    Get32Slice(rec, 44, 0);
  }

  /** 0 for a name of printable ASCII, 0x7F for any other. */
  ghost predicate HintReads(rec: seq<byte>, name: Name) {
    && |rec| >= 84
    && (Get32(rec, 80) == 0 <==> forall i :: 0 <= i < |name| ==> 0x20 <= name[i] < 0x7F)
    && (Get32(rec, 80) != 0 ==> Get32(rec, 80) == 0x7F)
  }

  lemma HintIsRead(rec: seq<byte>, name: Name)
    requires |rec| >= 84 && rec[80..84] == U32(TextEncodingHint(name))
    ensures HintReads(rec, name)
  {
    hide U32, Get32;
    Get32Slice(rec, 80, TextEncodingHint(name));
  }

  /** A file record names its CNID, its size and its extent; its flags say whether it
      has attributes, its Finder type whether it is a link. */
  lemma FileRecordReads(v: EntryView)
    ensures var rec := FileRecord(v);
      && Get16(rec, 0) == 2 && Get32(rec, 8) == v.cnid && Get64(rec, 88) == v.size
      && Get32(rec, 100) == v.blocks && Get32(rec, 104) == v.extent.start && Get32(rec, 108) == v.extent.count
    ensures var rec := FileRecord(v);
      && Get16(rec, 2) == (if v.hasAttributes then 4 else 0) && Get32(rec, 4) == 0 && Get32(rec, 96) == 0
  {
    var rec := FileRecord(v);
    var flags := if v.hasAttributes then HAS_ATTRIBUTES else 0;
    var head := RecordHead(FILE_RECORD, flags, 0, v.cnid);
    var fork := ForkData(v.size, 0, v.blocks, v.extent);
    assert FileFront(v)[..12] == head;
    hide FileFront, RecordHead, Zero, ForkBytes, Get16, Get32, Get64;
    assert rec[..12] == FileFront(v)[..12] && rec[88..168] == ForkBytes(fork);
    hide FileRecord;
    HeadReadsAt(rec, FILE_RECORD, flags, 0, v.cnid);
    ForkReadsAt(rec, 88, fork);
  }

  /** Its dates and owner, its Finder type, its encoding hint, and zeros. */
  lemma FileRecordStamps(v: EntryView)
    ensures StampsRead(FileRecord(v), v.dates, v.owner) && HintReads(FileRecord(v), v.name)
    ensures Get32(FileRecord(v), 48) == (if v.kind == Symlink then 0x736C6E6B else 0)
    ensures Get32(FileRecord(v), 52) == (if v.kind == Symlink then 0x72686170 else 0)
    ensures forall i :: 56 <= i < 80 || 84 <= i < 88 || 112 <= i < 248 ==> FileRecord(v)[i] == 0
  {
    var rec, front := FileRecord(v), FileFront(v);
    FilePieces(v);
    ForkTail(ForkData(v.size, 0, v.blocks, v.extent));
    hide FileFront, ForkBytes, DateBytes, OwnerBytes, U32, FinderType, TextEncodingHint, Get32, Get16;
    assert rec[12..32] == front[12..32] && rec[32..48] == front[32..48] && rec[80..84] == front[80..84];
    assert rec[48..56] == front[48..56] && rec[56..80] == front[56..80] && rec[84..88] == front[84..88];
    FileZeros(v);
    hide FileRecord;
    DatesRead(rec, v.dates);
    OwnerReads(rec, v.owner);
    HintIsRead(rec, v.name);
    FinderReads(rec, v);
  }

  lemma FilePieces(v: EntryView)
    ensures var f := FileFront(v);
      && f[12..32] == DateBytes(v.dates) && f[32..48] == OwnerBytes(v.owner) && f[48..56] == FinderType(v)
      && f[56..80] == Zero(24) && f[80..84] == U32(TextEncodingHint(v.name)) && f[84..88] == Zero(4)
  {
    hide RecordHead, DateBytes, OwnerBytes, FinderType, Zero, U32, TextEncodingHint;
  }

  lemma ForkTail(f: ForkData)
    ensures forall i :: 24 <= i < 80 ==> ForkBytes(f)[i] == 0
  {
    hide U32, U64;
  }

  lemma FileZeros(v: EntryView)
    ensures forall i :: 56 <= i < 80 || 84 <= i < 88 || 112 <= i < 248 ==> FileRecord(v)[i] == 0
  {
    var rec, front := FileRecord(v), FileFront(v);
    var fork := ForkBytes(ForkData(v.size, 0, v.blocks, v.extent));
    FilePieces(v);
    ForkTail(ForkData(v.size, 0, v.blocks, v.extent));
    hide FileFront, ForkBytes, DateBytes, OwnerBytes, U32, FinderType, TextEncodingHint;
    forall i | 56 <= i < 80 || 84 <= i < 88 || 112 <= i < 248 ensures rec[i] == 0 {
      if i < 80 {
        assert rec[i] == front[56..80][i - 56];
      } else if i < 88 {
        assert rec[i] == front[84..88][i - 84];
      } else if i < 168 {
        assert rec[i] == fork[i - 88];
      } else {
        assert rec[i] == Zero(80)[i - 168];
      }
    }
  }

  lemma FinderReads(rec: seq<byte>, v: EntryView)
    requires |rec| >= 56 && rec[48..56] == FinderType(v)
    ensures Get32(rec, 48) == (if v.kind == Symlink then 0x736C6E6B else 0)
    ensures Get32(rec, 52) == (if v.kind == Symlink then 0x72686170 else 0)
  {
    var b := FinderType(v);
    var first, second := if v.kind == Symlink then LINK_TYPE else 0, if v.kind == Symlink then LINK_CREATOR else 0;
    assert b[0..4] == U32(first) && b[4..8] == U32(second);
    hide FinderType, U32, Get32;
    SubSlice(rec, 48, 56, 0, 4);
    SubSlice(rec, 48, 56, 4, 8);
    Get32Slice(rec, 48, first);
    Get32Slice(rec, 52, second);
  }

  /** A folder record names its CNID and counts its children and subfolders; its flags
      say that it counts subfolders, and whether it has attributes. */
  lemma FolderRecordReads(v: EntryView)
    ensures var rec := FolderRecord(v);
      && Get16(rec, 0) == 1 && Get32(rec, 4) == v.valence && Get32(rec, 8) == v.cnid
      && Get32(rec, 84) == v.subFolders
    ensures Get16(FolderRecord(v), 2) == 16 + if v.hasAttributes then 4 else 0
  {
    var rec := FolderRecord(v);
    var flags := HAS_FOLDER_COUNT + if v.hasAttributes then HAS_ATTRIBUTES else 0;
    var head := RecordHead(FOLDER_RECORD, flags, v.valence, v.cnid);
    var middle := DateBytes(v.dates) + OwnerBytes(v.owner) + Zero(32) + U32(TextEncodingHint(v.name));
    assert rec == head + middle + U32(v.subFolders);
    hide FolderRecord, RecordHead, DateBytes, OwnerBytes, Zero, U32, Get16, Get32;
    assert rec[..12] == head && rec[84..88] == U32(v.subFolders);
    HeadReadsAt(rec, FOLDER_RECORD, flags, v.valence, v.cnid);
    Get32Slice(rec, 84, v.subFolders);
  }

  /** Its dates and owner, its encoding hint, and zeros. */
  lemma FolderRecordStamps(v: EntryView)
    ensures StampsRead(FolderRecord(v), v.dates, v.owner) && HintReads(FolderRecord(v), v.name)
    ensures forall i :: 48 <= i < 80 ==> FolderRecord(v)[i] == 0
  {
    var rec := FolderRecord(v);
    FolderPieces(v);
    hide FolderRecord, DateBytes, OwnerBytes, U32, TextEncodingHint, Get32, Get16;
    forall i | 48 <= i < 80 ensures rec[i] == 0 {
      assert rec[i] == rec[48..80][i - 48];
    }
    DatesRead(rec, v.dates);
    OwnerReads(rec, v.owner);
    HintIsRead(rec, v.name);
  }

  lemma FolderPieces(v: EntryView)
    ensures var rec := FolderRecord(v);
      && rec[12..32] == DateBytes(v.dates) && rec[32..48] == OwnerBytes(v.owner) && rec[48..80] == Zero(32)
      && rec[80..84] == U32(TextEncodingHint(v.name))
  {
    hide RecordHead, DateBytes, OwnerBytes, Zero, U32, TextEncodingHint;
  }

  /** A thread record leads back to the forward key. */
  lemma ThreadRecordReads(v: EntryView)
    ensures var rec := ThreadRecord(v);
      && Get16(rec, 0) == (if v.kind == Folder then 3 else 4) && Get16(rec, 2) == 0
      && Get32(rec, 4) == v.parent && Get16(rec, 8) == |v.name| && UnitsAt(rec, 10, |v.name|) == v.name
  {
    var rec := ThreadRecord(v);
    var kind := if v.kind.Folder? then FOLDER_THREAD else FILE_THREAD;
    hide U16, U32, NameBytes, Get16, Get32, UnitsAt;
    assert rec[0..2] == U16(kind) && rec[2..4] == U16(0) && rec[4..8] == U32(v.parent) && rec[8..10] == U16(|v.name|);
    assert rec[10..10 + 2 * |v.name|] == NameBytes(v.name);
    Get16Slice(rec, 0, kind);
    Get16Slice(rec, 2, 0);
    Get32Slice(rec, 4, v.parent);
    Get16Slice(rec, 8, |v.name|);
    NameReadsBack(rec, 10, v.name);
  }

  // ----- the record list

  function ForwardRecord(v: EntryView): seq<byte> {
    match v.kind
    case Folder => FolderRecord(v)
    case File => FileRecord(v)
    case Symlink => FileRecord(v)
    case Unknown(_) => []
  }

  /** The implicit parent of the root has no records; everything else has two. */
  function PairOf(v: EntryView): seq<Record> {
    if v.cnid == ROOT_PARENT then []
    else [Record(CatalogKey(v.parent, v.name), ForwardRecord(v)), Record(CatalogKey(v.cnid, []), ThreadRecord(v))]
  }

  function CatalogRecords(vs: seq<EntryView>): (rs: seq<Record>)
    ensures |rs| <= 2 * |vs|
  {
    if vs == [] then [] else CatalogRecords(vs[..|vs| - 1]) + PairOf(vs[|vs| - 1])
  }

  predicate KnownKind(v: EntryView) {
    v.cnid == ROOT_PARENT || !v.kind.Unknown?
  }

  ghost predicate AllKnown(vs: seq<EntryView>) {
    forall i :: 0 <= i < |vs| ==> KnownKind(vs[i])
  }

  /** The entry of unknown kind has this CNID. */
  ghost predicate UnknownAt(vs: seq<EntryView>, cnid: u32) {
    exists i :: 0 <= i < |vs| && !KnownKind(vs[i]) && vs[i].cnid == cnid
  }

  datatype CatalogError =
    | UnknownKind(cnid: u32)
    | TwoRecords(parent: nat, name: Name)
    | CatalogBuild(error: BuildError)

  method EncodePair(v: EntryView) returns (r: Result<seq<Record>, CatalogError>)
    ensures r.Ok? ==> KnownKind(v) && r.value == PairOf(v)
    ensures r.Err? ==> !KnownKind(v) && r.error == UnknownKind(v.cnid)
  {
    hide CatalogKey, ThreadRecord, FolderRecord, FileRecord;
    if v.cnid == ROOT_PARENT {
      return Ok([]);
    }
    var forwardKey := EncodeCatalogKey(v.parent, v.name);
    var forwardData;
    match v.kind {
      case Folder => forwardData := EncodeFolderRecord(v);
      case File => forwardData := EncodeFileRecord(v);
      case Symlink => forwardData := EncodeFileRecord(v);
      case Unknown(_) => return Err(UnknownKind(v.cnid));
    }
    var threadKey := EncodeCatalogKey(v.cnid, []);
    var threadData := EncodeThreadRecord(v);
    return Ok([Record(forwardKey, forwardData), Record(threadKey, threadData)]);
  }

  method BuildCatalogRecords(entries: seq<Entry>, ghost vs: seq<EntryView>) returns (r: Result<seq<Record>, CatalogError>)
    requires vs == Views(entries)
    ensures r.Ok? <==> AllKnown(vs)
    ensures r.Ok? ==> r.value == CatalogRecords(vs)
    ensures r.Err? ==> r.error.UnknownKind? && UnknownAt(vs, r.error.cnid)
  {
    var out: seq<Record> := [];
    assert CatalogRecords(vs[..0]) == [] && AllKnown(vs[..0]);
    hide CatalogRecords, PairOf, Views, KnownKind, AllKnown, UnknownAt;
    for i := 0 to |entries|
      invariant out == CatalogRecords(vs[..i]) && AllKnown(vs[..i])
    {
      RecordsStep(vs, i);
      KnownStep(vs, i);
      var view := entries[i].View();
      assert view == vs[i];
      var pair := EncodePair(view);
      if pair.Err? {
        return Err(pair.error);
      }
      out := out + pair.value;
    }
    assert vs[..|entries|] == vs;
    return Ok(out);
  }

  lemma KnownStep(vs: seq<EntryView>, i: nat)
    requires i < |vs| && AllKnown(vs[..i])
    ensures KnownKind(vs[i]) ==> AllKnown(vs[..i + 1])
    ensures !KnownKind(vs[i]) ==> !AllKnown(vs) && UnknownAt(vs, vs[i].cnid)
  {
    hide KnownKind;
    forall k | 0 <= k < i ensures KnownKind(vs[k]) {
      assert vs[..i][k] == vs[k];
    }
  }

  lemma RecordsStep(vs: seq<EntryView>, i: nat)
    requires i < |vs|
    ensures CatalogRecords(vs[..i + 1]) == CatalogRecords(vs[..i]) + PairOf(vs[i])
  {
    hide CatalogKey, ThreadRecord, ForwardRecord;
    assert vs[..i + 1][..i] == vs[..i] && vs[..i + 1][i] == vs[i];
  }

  /** Every entry's two records are in the list. */
  lemma {:induction false} EntryHasRecords(vs: seq<EntryView>, i: nat)
    requires i < |vs| && vs[i].cnid != ROOT_PARENT
    ensures Record(CatalogKey(vs[i].parent, vs[i].name), ForwardRecord(vs[i])) in CatalogRecords(vs)
    ensures Record(CatalogKey(vs[i].cnid, []), ThreadRecord(vs[i])) in CatalogRecords(vs)
    decreases |vs|
  {
    hide CatalogKey, ThreadRecord, ForwardRecord;
    var n := |vs| - 1;
    var pair := PairOf(vs[n]);
    var front := CatalogRecords(vs[..n]);
    assert CatalogRecords(vs) == front + pair;
    if i < n {
      EntryHasRecords(vs[..n], i);
      assert vs[..n][i] == vs[i];
    } else {
      assert pair[0] in front + pair && pair[1] in front + pair;
    }
  }

  // ----- sizes

  const CATALOG_NODE: nat := 4096
  const CATALOG_MAX_KEY: nat := 516

  /** A record any 4096-byte node has room for, with a key of which three fit. */
  ghost predicate CatalogSized(r: Record) {
    && IsCatalogKey(r.key) && |r.key| <= CATALOG_MAX_KEY && |r.data| <= 520
    && |r.key| + |r.data| <= 764 && |r.key| % 2 == 0 && |r.data| % 2 == 0
  }

  lemma PairSized(v: EntryView)
    ensures forall i :: 0 <= i < |PairOf(v)| ==> CatalogSized(PairOf(v)[i])
  {
    hide CatalogSized;
    ForwardSized(v);
    ThreadSized(v);
    hide CatalogKey, FolderRecord, FileRecord, ThreadRecord, ForwardRecord;
  }

  lemma ForwardSized(v: EntryView)
    ensures CatalogSized(Record(CatalogKey(v.parent, v.name), ForwardRecord(v)))
  {
    assert |ForwardRecord(v)| == 0 || |ForwardRecord(v)| == 88 || |ForwardRecord(v)| == 248;
    hide CatalogSized, ForwardRecord;
    SizedBy(v.parent, v.name, ForwardRecord(v));
  }

  lemma SizedBy(parent: u32, name: HfsName, data: seq<byte>)
    requires |data| == 0 || |data| == 88 || |data| == 248
    ensures CatalogSized(Record(CatalogKey(parent, name), data))
  {
    CatalogKeyReads(parent, name);
    hide IsCatalogKey, CatalogKey;
  }

  lemma ThreadSized(v: EntryView)
    ensures CatalogSized(Record(CatalogKey(v.cnid, []), ThreadRecord(v)))
  {
    CatalogKeyReads(v.cnid, []);
    hide IsCatalogKey, CatalogKey, ThreadRecord;
  }

  lemma {:induction false} RecordsSized(vs: seq<EntryView>)
    ensures forall i :: 0 <= i < |CatalogRecords(vs)| ==> CatalogSized(CatalogRecords(vs)[i])
  {
    if vs != [] {
      RecordsSized(vs[..|vs| - 1]);
      PairSized(vs[|vs| - 1]);
      hide CatalogSized, PairOf;
    }
  }

  lemma SizedElsewhere(a: seq<Record>, b: seq<Record>)
    requires multiset(a) == multiset(b) && forall i :: 0 <= i < |a| ==> CatalogSized(a[i])
    ensures forall i :: 0 <= i < |b| ==> CatalogSized(b[i])
  {
    hide CatalogSized;
    forall i | 0 <= i < |b| ensures CatalogSized(b[i]) {
      assert b[i] in multiset(a);
      assert b[i] in a;
    }
  }

  /** The name limit is enough: neither the leaf-size check nor the guard against
      levels that do not shrink can fire. */
  lemma SizedRecordsPack(recs: seq<Record>)
    requires forall i :: 0 <= i < |recs| ==> CatalogSized(recs[i])
    ensures LeavesFit(recs, CATALOG_NODE) && NarrowKeys(recs, CATALOG_NODE) && InDomain(recs, IsCatalogKey)
  {
    hide IsCatalogKey;
    forall i | 0 <= i < |recs|
      ensures LeafSize()(recs[i]) <= Room(CATALOG_NODE) && 2 * (2 + |recs[i].key| + 4 + 2) <= Room(CATALOG_NODE)
    {
      assert CatalogSized(recs[i]);
    }
    forall i | 0 <= i < |recs| ensures IsCatalogKey(recs[i].key) {
      assert CatalogSized(recs[i]);
    }
  }

  // ----- the tree

  function CatalogOpts(nodeSize: nat): BuildOpts {
    BuildOpts(nodeSize, 6, 0xBC, 0, CATALOG_MAX_KEY, 0)
  }

  /** The image holds the catalog of these entries: their records, in key order. */
  ghost predicate HoldsCatalog(img: seq<byte>, vs: seq<EntryView>, nodeSize: nat, p: Packed) {
    && multiset(p.records) == multiset(CatalogRecords(vs))
    && Sorted(p.records, LessBy(CompareCatalog), IsCatalogKey)
    && Built(img, CatalogOpts(nodeSize), p.records, p.levels, p.mapNodes, p.header)
  }

  /** The first record whose key its neighbour already has, or the end. */
  method FindRepeat(sorted: seq<Record>) returns (at: nat)
    requires InDomain(sorted, IsCatalogKey)
    ensures at >= |sorted| ==> NeighboursDiffer(sorted, CompareCatalog)
    ensures at < |sorted| ==> KeyTwice(sorted, sorted[at].key)
  {
    hide CompareCatalog, IsCatalogKey;
    CatalogOrder();
    at := 1;
    while at < |sorted|
      invariant 1 <= at
      invariant forall j :: 0 < j < at && j < |sorted| ==> CompareCatalog(sorted[j - 1].key, sorted[j].key) != 0
    {
      var c := CompareCatalogKeys(sorted[at - 1].key, sorted[at].key);
      if c == 0 {
        assert sorted[at - 1].key == sorted[at].key;
        return at;
      }
      at := at + 1;
    }
  }

  method BuildCatalogTree(entries: seq<Entry>, size: nat)
    returns (r: Result<BuildResult, CatalogError>, ghost p: Packed)
    requires size < 0x1_0000
    ensures !AllKnown(Views(entries)) <==> r.Err? && r.error.UnknownKind?
    ensures r.Err? && r.error.TwoRecords? ==>
      KeyTwice(CatalogRecords(Views(entries)), CatalogKey(r.error.parent, r.error.name))
    ensures r.Err? && r.error.TwoRecords? ==> !DistinctKeys(CatalogRecords(Views(entries)))
    ensures r.Ok? ==> DistinctKeys(CatalogRecords(Views(entries)))
    ensures size == 0 || size == CATALOG_NODE ==> !(r.Err? && r.error.CatalogBuild?)
    ensures AllKnown(Views(entries)) && DistinctKeys(CatalogRecords(Views(entries))) ==>
      && multiset(p.records) == multiset(CatalogRecords(Views(entries)))
      && Sorted(p.records, LessBy(CompareCatalog), IsCatalogKey)
      && (r.Ok? <==> TreeBuilds(p.records, if size == 0 then CATALOG_NODE else size))
    ensures r.Ok? ==>
      && fresh(r.value) && fresh(r.value.bytes)
      && var nodeSize := if size == 0 then CATALOG_NODE else size;
         r.value.opts == CatalogOpts(nodeSize) && r.value.Agrees(p.header, p.mapNodes)
         && HoldsCatalog(r.value.bytes[..], Views(entries), nodeSize, p)
  {
    p := NothingPacked();
    var nodeSize := if size == 0 then CATALOG_NODE else size;
    ghost var vs := Views(entries);
    var listed := BuildCatalogRecords(entries, vs);
    if listed.Err? {
      return Err(listed.error), p;
    }
    hide TreeBuilds, AllKnown, UnknownAt, Views, CatalogRecords, HoldsCatalog, DistinctKeys, KeyTwice;
    RecordsSized(Views(entries));
    var arranged := ArrangeRecords(listed.value);
    if arranged.Err? {
      return Err(arranged.error), p;
    }
    r, p := PackCatalog(arranged.value, nodeSize, listed.value, Views(entries));
  }

  lemma KeyHasName(k: Key)
    requires IsCatalogKey(k)
    ensures |k| >= CATALOG_NAME_AT
  {
  }

  /** Sort, and refuse equal keys. */
  method ArrangeRecords(records: seq<Record>) returns (r: Result<seq<Record>, CatalogError>)
    requires forall i :: 0 <= i < |records| ==> CatalogSized(records[i])
    ensures r.Err? ==> r.error.TwoRecords? && KeyTwice(records, CatalogKey(r.error.parent, r.error.name))
    ensures r.Ok? <==> DistinctKeys(records)
    ensures r.Ok? ==> multiset(r.value) == multiset(records) && Sorted(r.value, LessBy(CompareCatalog), IsCatalogKey)
  {
    hide CompareCatalog, IsCatalogKey;
    SizedRecordsPack(records);
    CatalogOrder();
    var sorted := Sort(records, CompareCatalog, IsCatalogKey);
    DistinctElsewhere(records, sorted);
    NeighboursDecide(sorted, CompareCatalog, IsCatalogKey);
    var at := FindRepeat(sorted);
    if at < |sorted| {
      KeyHasName(sorted[at].key);
      var parent, name := DescribeCatalogKey(sorted[at].key);
      TwiceElsewhere(sorted, records, sorted[at].key);
      return Err(TwoRecords(parent, name));
    }
    return Ok(sorted);
  }

  lemma CatalogNodeIsPower()
    ensures PowerOfTwo(CATALOG_NODE)
  {
    assert PowerOfTwo(64);
    assert PowerOfTwo(1024);
  }

  method PackCatalog(sorted: seq<Record>, nodeSize: nat, ghost records: seq<Record>, ghost vs: seq<EntryView>)
    returns (r: Result<BuildResult, CatalogError>, ghost p: Packed)
    requires nodeSize < 0x1_0000 && records == CatalogRecords(vs)
    requires forall i :: 0 <= i < |records| ==> CatalogSized(records[i])
    requires multiset(sorted) == multiset(records) && Sorted(sorted, LessBy(CompareCatalog), IsCatalogKey)
    ensures r.Err? ==> r.error.CatalogBuild? && nodeSize != CATALOG_NODE
    ensures p.records == sorted && (r.Ok? <==> TreeBuilds(sorted, nodeSize))
    ensures r.Ok? ==>
      && fresh(r.value) && fresh(r.value.bytes)
      && r.value.opts == CatalogOpts(nodeSize) && r.value.Agrees(p.header, p.mapNodes)
      && HoldsCatalog(r.value.bytes[..], vs, nodeSize, p)
  {
    hide TreeBuilds, CatalogRecords, CompareCatalog, IsCatalogKey, Sorted, Built, CatalogSized, LeavesFit, NarrowKeys,
         PowerOfTwo;
    SizedElsewhere(records, sorted);
    SizedRecordsPack(sorted);
    CatalogNodeIsPower();
    var built, levels, mapNodes, h := BuildTree(sorted, CatalogOpts(nodeSize));
    p := Packed(sorted, levels, mapNodes, h);
    if built.Err? {
      return Err(CatalogBuild(built.error)), p;
    }
    return Ok(built.value), p;
  }
}
