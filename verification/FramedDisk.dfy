/** The framed disk: leading map, volume, trailing map. Its two headers, its
    entries and its list of spans agree with each other and with the bytes. */
module FramedDisk {
  import opened Bytes
  import opened Wrappers
  import opened Gpt
  import U = UdifWriter

  ghost function Disk(f: Frame, volume: seq<byte>, crc: Checksum32): seq<byte>
    requires f.Valid()
  {
    LeadingMap(f, crc) + volume + TrailingMap(f, crc)
  }

  ghost predicate Framed(f: Frame, volume: seq<byte>) {
    f.Valid() && |volume| == f.volumeSectors * SECTOR
  }

  /** `n` bytes from the start of a sector. */
  function AtLba(disk: seq<byte>, lba: nat, n: nat): Option<seq<byte>> {
    if lba * SECTOR + n <= |disk| then Some(disk[lba * SECTOR..lba * SECTOR + n]) else None
  }

  lemma DiskLength(f: Frame, volume: seq<byte>, crc: Checksum32)
    requires Framed(f, volume)
    ensures |Disk(f, volume, crc)| == f.Length()
  {
    hide LeadingMap, TrailingMap;
  }

  // ----- what lies where

  lemma LeadingPieces(f: Frame, crc: Checksum32)
    requires f.Valid()
    ensures var m := LeadingMap(f, crc);
      && m[0..SECTOR] == ProtectiveMbr(f)
      && m[SECTOR..SECTOR + HEADER_LEN] == HeaderOf(f, Primary, EntryArray(f), crc)
      && m[ARRAY_LBA * SECTOR..ARRAY_LBA * SECTOR + ARRAY_LEN] == EntryArray(f)
  {
    hide ProtectiveMbr, HeaderOf, EntryArray;
  }

  lemma TrailingPieces(f: Frame, crc: Checksum32)
    requires f.Valid()
    ensures var m := TrailingMap(f, crc);
      && m[0..ARRAY_LEN] == EntryArray(f)
      && m[ARRAY_LEN..ARRAY_LEN + HEADER_LEN] == HeaderOf(f, Backup, EntryArray(f), crc)
  {
    hide HeaderOf, EntryArray;
  }

  lemma InThree<T>(a: seq<T>, b: seq<T>, c: seq<T>, lo: nat, hi: nat)
    ensures lo <= hi <= |a| ==> (a + b + c)[lo..hi] == a[lo..hi]
    ensures (a + b + c)[|a|..|a| + |b|] == b
    ensures lo <= hi <= |c| ==> (a + b + c)[|a| + |b| + lo..|a| + |b| + hi] == c[lo..hi]
  {
  }

  /** Both headers and both entry arrays are at the sectors the headers name. */
  lemma HeadersInPlace(f: Frame, volume: seq<byte>, crc: Checksum32, role: Role)
    requires Framed(f, volume)
    ensures AtLba(Disk(f, volume, crc), MyLba(f, role), HEADER_LEN) == Some(HeaderOf(f, role, EntryArray(f), crc))
    ensures AtLba(Disk(f, volume, crc), EntryLba(f, role), ARRAY_LEN) == Some(EntryArray(f))
  {
    var a, c := LeadingMap(f, crc), TrailingMap(f, crc);
    DiskLength(f, volume, crc);
    LeadingPieces(f, crc);
    TrailingPieces(f, crc);
    hide LeadingMap, TrailingMap, HeaderOf, EntryArray, ProtectiveMbr;
    if role.Primary? {
      InThree(a, volume, c, SECTOR, SECTOR + HEADER_LEN);
      InThree(a, volume, c, ARRAY_LBA * SECTOR, ARRAY_LBA * SECTOR + ARRAY_LEN);
    } else {
      InThree(a, volume, c, 0, ARRAY_LEN);
      InThree(a, volume, c, ARRAY_LEN, ARRAY_LEN + HEADER_LEN);
    }
  }

  /** The volume is at sector 40 and nothing else is in its sectors. */
  lemma VolumeInPlace(f: Frame, volume: seq<byte>, crc: Checksum32)
    requires Framed(f, volume)
    ensures AtLba(Disk(f, volume, crc), PARTITION_START, f.volumeSectors * SECTOR) == Some(volume)
  {
    DiskLength(f, volume, crc);
    hide LeadingMap, TrailingMap;
    InThree(LeadingMap(f, crc), volume, TrailingMap(f, crc), 0, 0);
  }

  // ----- what the headers say

  lemma RestPieces(f: Frame, role: Role, entries: seq<byte>, crc: Checksum32)
    requires f.Valid()
    ensures var r := HeaderRest(f, role, entries, crc);
      && r[4..12] == L64(MyLba(f, role)) && r[12..20] == L64(AlternateLba(f, role)) && r[20..28] == L64(FIRST_USABLE)
      && r[28..36] == L64(f.LastUsableLba()) && r[52..60] == L64(EntryLba(f, role)) && r[60..64] == L32(ENTRY_COUNT)
      && r[64..68] == L32(ENTRY_SIZE) && r[68..72] == L32(crc(entries))
  {
    hide L32, L64, Zero;
  }

  lemma RestField(f: Frame, role: Role, entries: seq<byte>, crc: Checksum32, lo: nat, hi: nat)
    requires f.Valid() && lo <= hi <= 72
    ensures HeaderOf(f, role, entries, crc)[20 + lo..20 + hi] == HeaderRest(f, role, entries, crc)[lo..hi]
  {
    hide HeaderRest, HeaderStart, L32;
  }

  /** Each header names itself, the other one, its entries and the usable sectors. */
  lemma HeaderSays(f: Frame, role: Role, entries: seq<byte>, crc: Checksum32)
    requires f.Valid()
    ensures var h := HeaderOf(f, role, entries, crc);
      && Le64(h, 24) == MyLba(f, role) && Le64(h, 32) == AlternateLba(f, role) && Le64(h, 40) == FIRST_USABLE
      && Le64(h, 48) == f.LastUsableLba() && Le64(h, 72) == EntryLba(f, role) && Le32(h, 80) == ENTRY_COUNT
      && Le32(h, 84) == ENTRY_SIZE && Le32(h, 88) == crc(entries)
  {
    var h := HeaderOf(f, role, entries, crc);
    RestPieces(f, role, entries, crc);
    hide HeaderOf, HeaderRest, L32, L64, Le32, Le64;
    RestField(f, role, entries, crc, 4, 12);
    L64Reads(h, 24, MyLba(f, role));
    RestField(f, role, entries, crc, 12, 20);
    L64Reads(h, 32, AlternateLba(f, role));
    RestField(f, role, entries, crc, 20, 28);
    L64Reads(h, 40, FIRST_USABLE);
    RestField(f, role, entries, crc, 28, 36);
    L64Reads(h, 48, f.LastUsableLba());
    RestField(f, role, entries, crc, 52, 60);
    L64Reads(h, 72, EntryLba(f, role));
    HeaderSaysMore(f, role, entries, crc);
  }

  /** In numbers: the primary header is in sector 1 and its entries are in sectors 2
      to 33, the backup's are the last 33 sectors, and the disk's own ID is given. */
  lemma HeaderInNumbers(f: Frame, entries: seq<byte>, crc: Checksum32)
    requires f.Valid()
    ensures var h := HeaderOf(f, Primary, entries, crc);
      && Le64(h, 24) == 1 && Le64(h, 32) == f.totalSectors - 1 && Le64(h, 40) == 34 && Le64(h, 48) == f.totalSectors - 34
      && Le64(h, 72) == 2 && Le32(h, 80) == 128 && Le32(h, 84) == 128
    ensures var h := HeaderOf(f, Backup, entries, crc);
      && Le64(h, 24) == f.totalSectors - 1 && Le64(h, 32) == 1 && Le64(h, 40) == 34 && Le64(h, 48) == f.totalSectors - 34
      && Le64(h, 72) == f.totalSectors - 33 && Le32(h, 80) == 128 && Le32(h, 84) == 128
  {
    HeaderSays(f, Primary, entries, crc);
    HeaderSays(f, Backup, entries, crc);
    hide HeaderOf, Le32, Le64;
  }

  /** "EFI PART", revision 1.0, 92 bytes, the disk's ID. */
  lemma HeaderSigned(f: Frame, role: Role, entries: seq<byte>, crc: Checksum32)
    requires f.Valid()
    ensures var h := HeaderOf(f, role, entries, crc);
      && |h| == 92 && h[..8] == [0x45, 0x46, 0x49, 0x20, 0x50, 0x41, 0x52, 0x54]
      && Le32(h, 8) == 0x1_0000 && Le32(h, 12) == 92 && Le32(h, 20) == 0 && h[56..72] == f.diskGuid
  {
    var h := HeaderOf(f, role, entries, crc);
    var start := HeaderStart();
    assert start[8..12] == L32(0x1_0000) && start[12..16] == L32(92);
    GuidInRest(f, role, entries, crc);
    hide HeaderRest, HeaderStart, L32, Le32;
    assert h[..16] == start;
    SameBelow(h, start, 16, 8, 12);
    SameBelow(h, start, 16, 12, 16);
    L32Reads(h, 8, 0x1_0000);
    L32Reads(h, 12, 92);
    RestField(f, role, entries, crc, 0, 4);
    RestField(f, role, entries, crc, 36, 52);
    L32Reads(h, 20, 0);
  }

  lemma GuidInRest(f: Frame, role: Role, entries: seq<byte>, crc: Checksum32)
    requires f.Valid()
    ensures HeaderRest(f, role, entries, crc)[36..52] == f.diskGuid
    ensures HeaderRest(f, role, entries, crc)[0..4] == L32(0)
  {
    hide L64, Le32, Le64;
    assert Zero(4) == L32(0);
    hide L32;
  }

  lemma HeaderSaysMore(f: Frame, role: Role, entries: seq<byte>, crc: Checksum32)
    requires f.Valid()
    ensures var h := HeaderOf(f, role, entries, crc);
      Le32(h, 80) == ENTRY_COUNT && Le32(h, 84) == ENTRY_SIZE && Le32(h, 88) == crc(entries)
  {
    var h := HeaderOf(f, role, entries, crc);
    RestPieces(f, role, entries, crc);
    hide HeaderOf, HeaderRest, L32, L64, Le32, Le64;
    RestField(f, role, entries, crc, 60, 64);
    L32Reads(h, 80, ENTRY_COUNT);
    RestField(f, role, entries, crc, 64, 68);
    L32Reads(h, 84, ENTRY_SIZE);
    RestField(f, role, entries, crc, 68, 72);
    L32Reads(h, 88, crc(entries));
  }

  /** A header's own checksum is right: it is the checksum of the header with the
      checksum field zeroed. */
  lemma HeaderChecksums(f: Frame, role: Role, entries: seq<byte>, crc: Checksum32)
    requires f.Valid()
    ensures var h := HeaderOf(f, role, entries, crc);
      Le32(h, 16) == crc(Splice(h, 16, Zero(4)))
  {
    var h := HeaderOf(f, role, entries, crc);
    var sum := crc(Blanked(f, role, entries, crc));
    BlankedBack(HeaderStart(), L32(sum), HeaderRest(f, role, entries, crc));
    hide HeaderRest, HeaderStart, L32, Le32, Splice;
    assert h[16..20] == L32(sum);
    L32Reads(h, 16, sum);
  }

  lemma BlankedBack(front: seq<byte>, sum: seq<byte>, rest: seq<byte>)
    requires |front| == 16 && |sum| == 4 && |rest| == 72
    ensures Splice(front + sum + rest, 16, Zero(4)) == front + Zero(4) + rest
  {
  }

  /** From either end: the header there is found through the other, both name the
      same entries, and those have the checksum both give. */
  lemma HeadersAgree(f: Frame, volume: seq<byte>, crc: Checksum32, role: Role)
    requires Framed(f, volume)
    ensures var disk, other := Disk(f, volume, crc), if role.Primary? then Backup else Primary;
      && AtLba(disk, AlternateLba(f, role), HEADER_LEN) == Some(HeaderOf(f, other, EntryArray(f), crc))
      && AlternateLba(f, role) == MyLba(f, other)
      && AtLba(disk, EntryLba(f, role), ARRAY_LEN) == AtLba(disk, EntryLba(f, other), ARRAY_LEN) == Some(EntryArray(f))
      && Le32(HeaderOf(f, role, EntryArray(f), crc), 88) == Le32(HeaderOf(f, other, EntryArray(f), crc), 88) == crc(EntryArray(f))
  {
    var other := if role.Primary? then Backup else Primary;
    HeadersInPlace(f, volume, crc, role);
    HeadersInPlace(f, volume, crc, other);
    HeaderSays(f, role, EntryArray(f), crc);
    HeaderSays(f, other, EntryArray(f), crc);
    hide HeaderOf, EntryArray, Disk, AtLba, Le32, Le64;
  }

  // ----- what the entry says

  lemma EntryPieces(f: Frame)
    requires f.Valid()
    ensures EntryArray(f)[32..40] == L64(PARTITION_START) && EntryArray(f)[40..48] == L64(f.PartitionLastLba())
    ensures EntryArray(f)[0..16] == APPLE_HFS
    ensures forall i :: ENTRY_SIZE <= i < ARRAY_LEN ==> EntryArray(f)[i] == 0
  {
    hide L64, PartitionName;
  }

  /** The entry is an Apple HFS partition under its own ID, called "disk image". */
  lemma EntryNamed(f: Frame)
    requires f.Valid()
    ensures var e := EntryArray(f);
      && e[..16] == [0x00, 0x53, 0x46, 0x48, 0x00, 0x00, 0xAA, 0x11, 0xAA, 0x11, 0x00, 0x30, 0x65, 0x43, 0xEC, 0xAC]
      && e[16..32] == f.partitionGuid
      && (forall i :: 48 <= i < 56 || 76 <= i < 128 ==> e[i] == 0)
      && forall i :: 0 <= i < 10 ==>
           Le16(e, 56 + 2 * i) == [0x64, 0x69, 0x73, 0x6B, 0x20, 0x69, 0x6D, 0x61, 0x67, 0x65][i]
  {
    hide L64;
  }

  /** The protective record: one entry of type 0xEE from sector 1 to the end of the
      disk, or as far as 32 bits count, and the boot signature. */
  lemma ProtectiveSays(f: Frame, volume: seq<byte>, crc: Checksum32)
    requires Framed(f, volume)
    ensures |Disk(f, volume, crc)| >= SECTOR
    ensures var d := Disk(f, volume, crc);
      && (forall i :: 0 <= i < 446 || 462 <= i < 510 ==> d[i] == 0)
      && d[446..454] == [0x00, 0xFE, 0xFF, 0xFF, 0xEE, 0xFE, 0xFF, 0xFF] && d[510] == 0x55 && d[511] == 0xAA
      && Le32(d, 454) == 1
      && Le32(d, 458) == if f.totalSectors <= 0x1_0000_0000 then f.totalSectors - 1 else 0xFFFF_FFFF
  {
    hide Disk, L32, Le32, ProtectiveMbr;
    var d := Disk(f, volume, crc);
    var last := if f.totalSectors - 1 > 0xFFFF_FFFF then 0xFFFF_FFFF else f.totalSectors - 1;
    RecordPieces(f, last);
    RecordInFront(f, volume, crc);
    var m := d[0..SECTOR];
    assert forall i :: 0 <= i < SECTOR ==> d[i] == m[i];
    SubSlice(d, 0, SECTOR, 446, 454);
    SubSlice(d, 0, SECTOR, 454, 458);
    SubSlice(d, 0, SECTOR, 458, 462);
    L32Reads(d, 454, 1);
    L32Reads(d, 458, last);
  }

  lemma RecordInFront(f: Frame, volume: seq<byte>, crc: Checksum32)
    requires Framed(f, volume)
    ensures |Disk(f, volume, crc)| >= SECTOR && Disk(f, volume, crc)[0..SECTOR] == ProtectiveMbr(f)
  {
    DiskLength(f, volume, crc);
    LeadingPieces(f, crc);
    hide LeadingMap, TrailingMap, ProtectiveMbr;
    InThree(LeadingMap(f, crc), volume, TrailingMap(f, crc), 0, SECTOR);
  }

  lemma RecordPieces(f: Frame, last: nat)
    requires f.Valid() && last == if f.totalSectors - 1 > 0xFFFF_FFFF then 0xFFFF_FFFF else f.totalSectors - 1
    ensures var m := ProtectiveMbr(f);
      && (forall i :: 0 <= i < 446 || 462 <= i < 510 ==> m[i] == 0)
      && m[446..454] == [0x00, 0xFE, 0xFF, 0xFF, 0xEE, 0xFE, 0xFF, 0xFF] && m[510] == 0x55 && m[511] == 0xAA
      && m[454..458] == L32(1) && m[458..462] == L32(last)
  {
    hide L32;
  }

  /** The entry covers exactly the volume, up to the last usable sector; no other
      entry is used. */
  lemma EntryCoversVolume(f: Frame, volume: seq<byte>, crc: Checksum32)
    requires Framed(f, volume)
    ensures var e := EntryArray(f);
      && Le64(e, 32) == PARTITION_START >= FIRST_USABLE && Le64(e, 40) == f.PartitionLastLba() == f.LastUsableLba()
      && AtLba(Disk(f, volume, crc), Le64(e, 32), (Le64(e, 40) + 1 - Le64(e, 32)) * SECTOR) == Some(volume)
      && forall i :: ENTRY_SIZE <= i < ARRAY_LEN ==> e[i] == 0
  {
    EntryPieces(f);
    VolumeInPlace(f, volume, crc);
    hide EntryArray, L64, Le64, Disk, AtLba;
    L64Reads(EntryArray(f), 32, PARTITION_START);
    L64Reads(EntryArray(f), 40, f.PartitionLastLba());
  }

  // ----- the spans

  datatype Span = Span(name: string, kind: string, sectors: nat)

  function Regions(f: Frame): (spans: seq<Span>) {
    [Span("Protective Master Boot Record", "MBR", 1),
     Span("GPT Header", "Primary GPT Header", 1),
     Span("GPT Partition Data", "Primary GPT Table", ARRAY_SECTORS),
     Span("", "Apple_Free", PARTITION_START - FIRST_USABLE),
     Span("disk image", "Apple_HFSX", f.volumeSectors),
     Span("GPT Partition Data", "Backup GPT Table", ARRAY_SECTORS),
     Span("GPT Header", "Backup GPT Header", 1)]
  }

  /** The lengths of the spans, as they are handed to the image writer. */
  function SectorCounts(f: Frame): (c: seq<nat>)
    ensures |c| == |Regions(f)| && forall i :: 0 <= i < |c| ==> c[i] == Regions(f)[i].sectors
  {
    seq(|Regions(f)|, i requires 0 <= i < |Regions(f)| => Regions(f)[i].sectors)
  }

  lemma {:induction false} CoveredStep(c: seq<nat>, n: nat)
    requires n < |c|
    ensures U.Covered(c[..n + 1]) == U.Covered(c[..n]) + c[n]
  {
    assert c[..n + 1] == c[..n] + [c[n]];
    U.CoveredSnoc(c[..n], c[n]);
  }

  /** First sectors of the spans, running totals of their lengths. */
  lemma SpanStarts(f: Frame)
    ensures var c := SectorCounts(f);
      && U.Covered(c[..0]) == 0 && U.Covered(c[..1]) == 1 && U.Covered(c[..2]) == ARRAY_LBA
      && U.Covered(c[..3]) == FIRST_USABLE && U.Covered(c[..4]) == PARTITION_START
      && U.Covered(c[..5]) == PARTITION_START + f.volumeSectors
      && U.Covered(c[..6]) == PARTITION_START + f.volumeSectors + ARRAY_SECTORS
      && U.Covered(c) == PARTITION_START + f.volumeSectors + BACKUP_SECTORS
  {
    var c := SectorCounts(f);
    assert |Regions(f)| == 7;
    assert c[..0] == [] && c[..7] == c;
    CoveredStep(c, 0);
    CoveredStep(c, 1);
    CoveredStep(c, 2);
    CoveredStep(c, 3);
    CoveredStep(c, 4);
    CoveredStep(c, 5);
    CoveredStep(c, 6);
    assert U.Covered([]) == 0;
    hide U.Covered;
  }

  /** The spans tile the same disk the bytes describe: headers, entry arrays and the
      volume begin where the header fields say, and the total is the disk. */
  lemma SpansTileDisk(f: Frame)
    requires f.Valid()
    ensures var c := SectorCounts(f);
      && |Regions(f)| == 7 && U.Covered(c) == f.totalSectors
      && U.Covered(c[..1]) == MyLba(f, Primary) && U.Covered(c[..2]) == EntryLba(f, Primary)
      && U.Covered(c[..4]) == PARTITION_START && Regions(f)[4].sectors == f.volumeSectors
      && U.Covered(c[..5]) == EntryLba(f, Backup) && U.Covered(c[..6]) == MyLba(f, Backup)
  {
    SpanStarts(f);
    hide U.Covered;
  }

  /** The spans go to the image writer one by one, and its region check always
      accepts them: table `i` starts where the spans before it end. */
  method AcceptRegions(f: Frame) returns (specs: seq<U.BlkxSpec>)
    requires f.Valid()
    ensures |specs| == |Regions(f)| == 7
    ensures forall i :: 0 <= i < 7 ==>
      specs[i] == U.BlkxSpec(i - 1, i, U.Covered(SectorCounts(f)[..i]) % U.U64, Regions(f)[i].sectors)
  {
    SpansTileDisk(f);
    hide U.Covered;
    var spans := Regions(f);
    var counts: seq<nat> := [];
    for i := 0 to |spans|
      invariant |counts| == i && forall j :: 0 <= j < i ==> counts[j] == spans[j].sectors
    {
      counts := counts + [spans[i].sectors];
    }
    assert counts == SectorCounts(f);
    var r := U.BlkxSpecs(counts, f.totalSectors);
    return r.value.0;
  }

  /** A 64-bit length as the signed number the image writer takes. */
  function Signed(n: nat): int
    requires n < U64_LIMIT
  {
    if n < U64_LIMIT / 2 then n else n - U64_LIMIT
  }

  /** The stream the image writer reads: the map in front, the volume capped at its
      reported size, the map behind. A scratch file that has grown shifts nothing.
      The length handed over is the stream's if and only if that fits 63 bits. */
  method Compose(f: Frame, scratch: seq<byte>, crc: Checksum32) returns (source: seq<byte>, length: int)
    requires f.Valid() && |scratch| >= f.volumeSectors * SECTOR
    ensures source == Disk(f, scratch[..f.volumeSectors * SECTOR], crc)
    ensures |source| == length <==> f.Length() < U64_LIMIT / 2
  {
    hide LeadingMap, TrailingMap;
    var leading := BuildLeadingMap(f, crc);
    var trailing := BuildTrailingMap(f, crc);
    var volumeSize := f.volumeSectors * SECTOR;
    DiskLength(f, scratch[..volumeSize], crc);
    return leading + scratch[..volumeSize] + trailing, Signed(f.DiskSize());
  }
}
