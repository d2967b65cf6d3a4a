/** The partition map that frames a volume as a disk: both halves as bytes, the
    same geometry as a list of spans, and a reader that checks one against the other. */
module Gpt {
  import opened Bytes
  import opened Wrappers

  const SECTOR: nat := 512
  const ENTRY_SIZE: nat := 128
  const ENTRY_COUNT: nat := 128
  const ARRAY_LEN: nat := 16384
  const ARRAY_SECTORS: nat := 32
  const HEADER_LEN: nat := 92
  const ARRAY_LBA: nat := 2
  const FIRST_USABLE: nat := 34
  const BACKUP_SECTORS: nat := 33
  const PARTITION_START: nat := 40

  type Guid = b: seq<byte> | |b| == 16 witness Zero(16)

  /** GUIDs come from a hash of the seeds; here any function of tag and sectors. */
  type GuidSource = (string, nat) -> Guid

  /** The checksum is any function of the bytes. */
  type Checksum32 = seq<byte> -> u32

  datatype GptError = EmptyVolume | PartialSector

  datatype Frame = Frame(volumeSectors: nat, totalSectors: nat, diskGuid: Guid, partitionGuid: Guid)
  {
    /** The framed disk in bytes, and the 64-bit product that stands for it. */
    function Length(): nat { totalSectors * SECTOR }
    function DiskSize(): nat { totalSectors * SECTOR % U64_LIMIT }
    function LastLba(): int { totalSectors - 1 }
    function LastUsableLba(): int { totalSectors - BACKUP_SECTORS - 1 }
    function PartitionLastLba(): int { PARTITION_START + volumeSectors - 1 }

    predicate Valid() {
      && 0 < volumeSectors && totalSectors == PARTITION_START + volumeSectors + BACKUP_SECTORS
      && volumeSectors < U64_LIMIT / SECTOR
    }
  }

  method New(volumeSize: nat, guid: GuidSource) returns (r: Result<Frame, GptError>)
    requires volumeSize < U64_LIMIT
    ensures r.Ok? <==> volumeSize > 0 && volumeSize % SECTOR == 0
    ensures r.Ok? ==> r.value.Valid() && r.value.volumeSectors * SECTOR == volumeSize
    ensures r.Ok? ==> r.value.diskGuid == guid("gpt:disk", r.value.totalSectors)
    ensures r.Ok? ==> r.value.partitionGuid == guid("gpt:partition", r.value.volumeSectors)
    ensures r.Err? ==> r.error == if volumeSize == 0 then EmptyVolume else PartialSector
  {
    if volumeSize == 0 {
      return Err(EmptyVolume);
    }
    if volumeSize % SECTOR != 0 {
      return Err(PartialSector);
    }
    var sectors := volumeSize / SECTOR;
    var total := PARTITION_START + sectors + BACKUP_SECTORS;
    return Ok(Frame(sectors, total, guid("gpt:disk", total), guid("gpt:partition", sectors)));
  }

  // ----- little-endian fields

  function L16(v: nat): (b: seq<byte>)
    ensures |b| == 2
  {
    [v % 0x100, v / 0x100 % 0x100]
  }

  function L32(v: nat): (b: seq<byte>)
    ensures |b| == 4
  {
    L16(v) + L16(v / 0x1_0000)
  }

  function L64(v: nat): (b: seq<byte>)
    ensures |b| == 8
  {
    L32(v) + L32(v / 0x1_0000_0000)
  }

  function Le16(b: seq<byte>, at: nat): (v: nat)
    requires at + 2 <= |b|
    ensures v < 0x1_0000
  {
    var lo: nat, hi: nat := b[at], b[at + 1];
    lo + hi * 0x100
  }

  function Le32(b: seq<byte>, at: nat): (v: nat)
    requires at + 4 <= |b|
    ensures v < 0x1_0000_0000
  {
    Le16(b, at) + Le16(b, at + 2) * 0x1_0000
  }

  function Le64(b: seq<byte>, at: nat): nat
    requires at + 8 <= |b|
  {
    Le32(b, at) + Le32(b, at + 4) * 0x1_0000_0000
  }

  /** The least significant byte comes first. */
  lemma LittleEndian(b: seq<byte>, at: nat)
    ensures at + 2 <= |b| ==> var b0: nat, b1: nat := b[at], b[at + 1]; Le16(b, at) == b0 + 256 * b1
    ensures at + 4 <= |b| ==>
      var b0: nat, b1: nat, b2: nat, b3: nat := b[at], b[at + 1], b[at + 2], b[at + 3];
      Le32(b, at) == b0 + 256 * b1 + 0x1_0000 * b2 + 0x100_0000 * b3
    ensures at + 8 <= |b| ==> Le64(b, at) == Le32(b, at) + 0x1_0000_0000 * Le32(b, at + 4)
  {
  }

  lemma L16Reads(b: seq<byte>, at: nat, v: nat)
    requires at + 2 <= |b| && b[at..at + 2] == L16(v)
    ensures Le16(b, at) == v % 0x1_0000
  {
    assert b[at] == b[at..at + 2][0] && b[at + 1] == b[at..at + 2][1];
    Digits(v, 0x100);
  }

  /** Two digits in base `d` are the remainder by its square. */
  lemma Digits(v: nat, d: nat)
    requires d == 0x100 || d == 0x1_0000
    ensures v % d + v / d % d * d == v % (d * d)
  {
    var w, lo := v / d, v % d;
    var top, hi := w / d, w % d;
    assert v == w * d + lo && w == top * d + hi;
    assert v == top * (d * d) + (hi * d + lo);
    assert hi * d + lo < d * d;
    Remainder(v, d * d, top, hi * d + lo);
  }

  lemma Remainder(v: nat, m: nat, q: nat, r: nat)
    requires v == q * m + r && r < m
    ensures v % m == r
  {
    var p := v / m;
    assert v == p * m + v % m;
    assert p <= q - 1 ==> p * m <= (q - 1) * m;
    assert p >= q + 1 ==> p * m >= (q + 1) * m;
  }

  lemma L32Reads(b: seq<byte>, at: nat, v: nat)
    requires at + 4 <= |b| && b[at..at + 4] == L32(v)
    ensures Le32(b, at) == v % 0x1_0000_0000
  {
    SubSlice(b, at, at + 4, 0, 2);
    SubSlice(b, at, at + 4, 2, 4);
    assert L32(v)[0..2] == L16(v) && L32(v)[2..4] == L16(v / 0x1_0000);
    hide L16, Le16, L32;
    L16Reads(b, at, v);
    L16Reads(b, at + 2, v / 0x1_0000);
    Digits(v, 0x1_0000);
  }

  lemma L64Reads(b: seq<byte>, at: nat, v: nat)
    requires at + 8 <= |b| && b[at..at + 8] == L64(v) && v < U64_LIMIT
    ensures Le64(b, at) == v
  {
    SubSlice(b, at, at + 8, 0, 4);
    SubSlice(b, at, at + 8, 4, 8);
    assert L64(v)[0..4] == L32(v) && L64(v)[4..8] == L32(v / 0x1_0000_0000);
    hide L32, Le32, L64;
    L32Reads(b, at, v);
    L32Reads(b, at + 4, v / 0x1_0000_0000);
    Rejoined(v);
  }

  lemma Rejoined(v: nat)
    requires v < U64_LIMIT
    ensures v % 0x1_0000_0000 + v / 0x1_0000_0000 % 0x1_0000_0000 * 0x1_0000_0000 == v
  {
  }

  // ----- the pieces of the map

  /** "disk image" in UTF-16, little-endian. */
  function PartitionName(): (b: seq<byte>)
    ensures |b| == 20
  {
    [0x64, 0, 0x69, 0, 0x73, 0, 0x6B, 0, 0x20, 0, 0x69, 0, 0x6D, 0, 0x61, 0, 0x67, 0, 0x65, 0]
  }

  const APPLE_HFS: Guid := [0x00, 0x53, 0x46, 0x48, 0x00, 0x00, 0xAA, 0x11, 0xAA, 0x11, 0x00, 0x30, 0x65, 0x43, 0xEC, 0xAC]

  /** The one used entry. */
  function Entry(f: Frame): (b: seq<byte>)
    requires f.Valid()
    ensures |b| == ENTRY_SIZE
  {
    APPLE_HFS + f.partitionGuid + L64(PARTITION_START) + L64(f.PartitionLastLba()) + Zero(8) + PartitionName() + Zero(52)
  }

  function EntryArray(f: Frame): (b: seq<byte>)
    requires f.Valid()
    ensures |b| == ARRAY_LEN
  {
    Entry(f) + Zero(ARRAY_LEN - ENTRY_SIZE)
  }

  datatype Role = Primary | Backup

  function MyLba(f: Frame, role: Role): nat
    requires f.Valid()
  {
    if role.Backup? then f.LastLba() else 1
  }

  function AlternateLba(f: Frame, role: Role): nat
    requires f.Valid()
  {
    if role.Backup? then 1 else f.LastLba()
  }

  function EntryLba(f: Frame, role: Role): nat
    requires f.Valid()
  {
    if role.Backup? then f.LastUsableLba() + 1 else ARRAY_LBA
  }

  /** Signature, revision, length. */
  function HeaderStart(): (b: seq<byte>)
    ensures |b| == 16
  {
    [0x45, 0x46, 0x49, 0x20, 0x50, 0x41, 0x52, 0x54] + L32(0x1_0000) + L32(HEADER_LEN)
  }

  /** Everything behind the header's own checksum. */
  function HeaderRest(f: Frame, role: Role, entries: seq<byte>, crc: Checksum32): (b: seq<byte>)
    requires f.Valid()
    ensures |b| == 72
  {
    Zero(4) + L64(MyLba(f, role)) + L64(AlternateLba(f, role)) + L64(FIRST_USABLE) + L64(f.LastUsableLba()) + f.diskGuid
    + L64(EntryLba(f, role)) + L32(ENTRY_COUNT) + L32(ENTRY_SIZE) + L32(crc(entries))
  }

  /** The header checksums itself with its checksum field zero. */
  function Blanked(f: Frame, role: Role, entries: seq<byte>, crc: Checksum32): (b: seq<byte>)
    requires f.Valid()
    ensures |b| == HEADER_LEN
  {
    HeaderStart() + Zero(4) + HeaderRest(f, role, entries, crc)
  }

  function HeaderOf(f: Frame, role: Role, entries: seq<byte>, crc: Checksum32): (b: seq<byte>)
    requires f.Valid()
    ensures |b| == HEADER_LEN
  {
    HeaderStart() + L32(crc(Blanked(f, role, entries, crc))) + HeaderRest(f, role, entries, crc)
  }

  /** One 0xEE partition over the whole disk, its size saturating at 32 bits. */
  function ProtectiveMbr(f: Frame): (b: seq<byte>)
    requires f.Valid()
    ensures |b| == SECTOR
  {
    Zero(446) + [0x00, 0xFE, 0xFF, 0xFF, 0xEE, 0xFE, 0xFF, 0xFF] + L32(1)
    + L32(if f.totalSectors - 1 > 0xFFFF_FFFF then 0xFFFF_FFFF else f.totalSectors - 1) + Zero(48) + [0x55, 0xAA]
  }

  // ----- building them in place

  method BuildEntryArray(f: Frame) returns (entries: seq<byte>)
    requires f.Valid()
    ensures entries == EntryArray(f)
  {
    hide L64, Zero;
    var buf := new byte[ARRAY_LEN](_ => 0);
    ghost var blank := buf[..];
    Put(buf, 0, APPLE_HFS);
    Put(buf, 16, f.partitionGuid);
    Put(buf, 32, L64(PARTITION_START));
    Put(buf, 40, L64(f.PartitionLastLba()));
    Put(buf, 56, PartitionName());
    EntriesAssembled(blank, f);
    return buf[..];
  }

  lemma EntriesAssembled(blank: seq<byte>, f: Frame)
    requires f.Valid() && |blank| == ARRAY_LEN && forall i :: 0 <= i < |blank| ==> blank[i] == 0
    ensures Splice(Splice(Splice(Splice(Splice(blank, 0, APPLE_HFS), 16, f.partitionGuid), 32, L64(PARTITION_START)),
                          40, L64(f.PartitionLastLba())), 56, PartitionName()) == EntryArray(f)
  {
    hide L64, PartitionName;
    SpliceTwice(blank, 0, APPLE_HFS, f.partitionGuid);
    SpliceTwice(blank, 0, APPLE_HFS + f.partitionGuid, L64(PARTITION_START));
    var front := APPLE_HFS + f.partitionGuid + L64(PARTITION_START);
    SpliceTwice(blank, 0, front, L64(f.PartitionLastLba()));
    NameInPlace(blank, front + L64(f.PartitionLastLba()), PartitionName());
  }

  lemma NameInPlace(blank: seq<byte>, front: seq<byte>, name: seq<byte>)
    requires |blank| == ARRAY_LEN && |front| == 48 && |name| == 20 && forall i :: 0 <= i < |blank| ==> blank[i] == 0
    ensures Splice(Splice(blank, 0, front), 56, name) == front + Zero(8) + name + Zero(52) + Zero(ARRAY_LEN - ENTRY_SIZE)
  {
  }

  /** The checksum goes in last, over the header with its field still zero. */
  method BuildHeader(f: Frame, entries: seq<byte>, role: Role, crc: Checksum32) returns (h: seq<byte>)
    requires f.Valid()
    ensures h == HeaderOf(f, role, entries, crc)
  {
    hide L32, HeaderStart, HeaderRest, Zero, Splice;
    var buf := new byte[HEADER_LEN](_ => 0);
    assert buf[..0] == [];
    var at := PutNext(buf, 0, HeaderStart());
    at := PutNext(buf, at, Zero(4));
    at := PutNext(buf, at, HeaderRest(f, role, entries, crc));
    assert buf[..at] == buf[..];
    ghost var blanked := buf[..];
    assert blanked == Blanked(f, role, entries, crc);
    Put(buf, 16, L32(crc(buf[..])));
    ChecksumIn(HeaderStart(), HeaderRest(f, role, entries, crc), L32(crc(blanked)));
    return buf[..];
  }

  lemma ChecksumIn(front: seq<byte>, rest: seq<byte>, sum: seq<byte>)
    requires |front| == 16 && |rest| == 72 && |sum| == 4
    ensures Splice(front + Zero(4) + rest, 16, sum) == front + sum + rest
  {
  }

  function LeadingMap(f: Frame, crc: Checksum32): (b: seq<byte>)
    requires f.Valid()
    ensures |b| == PARTITION_START * SECTOR
  {
    ProtectiveMbr(f) + HeaderOf(f, Primary, EntryArray(f), crc) + Zero(SECTOR - HEADER_LEN) + EntryArray(f)
    + Zero((PARTITION_START - FIRST_USABLE) * SECTOR)
  }

  function TrailingMap(f: Frame, crc: Checksum32): (b: seq<byte>)
    requires f.Valid()
    ensures |b| == BACKUP_SECTORS * SECTOR
  {
    EntryArray(f) + HeaderOf(f, Backup, EntryArray(f), crc) + Zero(SECTOR - HEADER_LEN)
  }

  method BuildLeadingMap(f: Frame, crc: Checksum32) returns (out: seq<byte>)
    requires f.Valid()
    ensures out == LeadingMap(f, crc)
  {
    hide ProtectiveMbr, HeaderOf, EntryArray, Splice;
    var entries := BuildEntryArray(f);
    var header := BuildHeader(f, entries, Primary, crc);
    var buf := new byte[PARTITION_START * SECTOR](_ => 0);
    ghost var blank := buf[..];
    Put(buf, 0, ProtectiveMbr(f));
    Put(buf, SECTOR, header);
    Put(buf, ARRAY_LBA * SECTOR, entries);
    LeadingAssembled(blank, ProtectiveMbr(f), header, entries);
    return buf[..];
  }

  lemma LeadingAssembled(blank: seq<byte>, mbr: seq<byte>, header: seq<byte>, entries: seq<byte>)
    requires |blank| == PARTITION_START * SECTOR && forall i :: 0 <= i < |blank| ==> blank[i] == 0
    requires |mbr| == SECTOR && |header| == HEADER_LEN && |entries| == ARRAY_LEN
    ensures Splice(Splice(Splice(blank, 0, mbr), SECTOR, header), ARRAY_LBA * SECTOR, entries)
         == mbr + header + Zero(SECTOR - HEADER_LEN) + entries + Zero((PARTITION_START - FIRST_USABLE) * SECTOR)
  {
    SpliceTwice(blank, 0, mbr, header);
  }

  method BuildTrailingMap(f: Frame, crc: Checksum32) returns (out: seq<byte>)
    requires f.Valid()
    ensures out == TrailingMap(f, crc)
  {
    hide HeaderOf, EntryArray, Splice;
    var entries := BuildEntryArray(f);
    var header := BuildHeader(f, entries, Backup, crc);
    var buf := new byte[BACKUP_SECTORS * SECTOR](_ => 0);
    ghost var blank := buf[..];
    Put(buf, 0, entries);
    Put(buf, (BACKUP_SECTORS - 1) * SECTOR, header);
    TrailingAssembled(blank, header, entries);
    return buf[..];
  }

  lemma TrailingAssembled(blank: seq<byte>, header: seq<byte>, entries: seq<byte>)
    requires |blank| == BACKUP_SECTORS * SECTOR && forall i :: 0 <= i < |blank| ==> blank[i] == 0
    requires |header| == HEADER_LEN && |entries| == ARRAY_LEN
    ensures Splice(Splice(blank, 0, entries), (BACKUP_SECTORS - 1) * SECTOR, header)
         == entries + header + Zero(SECTOR - HEADER_LEN)
  {
    SpliceTwice(blank, 0, entries, header);
  }
}
