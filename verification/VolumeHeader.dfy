/** The 512-byte volume header: composed from the plan, encoded, and read back. */
module VolumeHeader {
  import opened Bytes
  import opened Bits
  import opened Seqs
  import opened Geometry
  import opened BTree
  import opened Catalog
  import opened Layout

  const SIGNATURE: nat := 0x4858
  const VERSION: nat := 5
  const UNMOUNTED: nat := 0x100
  const LAST_MOUNTED: nat := 0x676F2D64
  const HEADER_SIZE: nat := 512

  datatype Header = Header(
    macTime: u32, fileCount: u32, folderCount: u32, blockSize: u32, totalBlocks: u32, freeBlocks: u32,
    nextAllocation: u32, nextCatalogID: u32,
    allocFile: ForkData, extentsFile: ForkData, catalogFile: ForkData, attributesFile: ForkData)

  /** Signature, version, attributes, and four equal dates. */
  function Identity(v: Header): (b: seq<byte>)
    ensures |b| == 32
  {
    U16(SIGNATURE) + U16(VERSION) + U32(UNMOUNTED) + U32(LAST_MOUNTED) + U32(0)
    + U32(v.macTime) + U32(v.macTime) + U32(v.macTime) + U32(v.macTime)
  }

  function Counters(v: Header): (b: seq<byte>)
    ensures |b| == 36
  {
    U32(v.fileCount) + U32(v.folderCount) + U32(v.blockSize) + U32(v.totalBlocks) + U32(v.freeBlocks)
    + U32(v.nextAllocation) + U32(v.blockSize) + U32(v.blockSize) + U32(v.nextCatalogID)
  }

  /** Write count, the MacRoman bit of the encodings bitmap, no Finder info. */
  function Trailer(): (b: seq<byte>)
    ensures |b| == 44
  {
    U32(1) + U64(1) + Zero(32)
  }

  function Forks(v: Header): (b: seq<byte>)
    ensures |b| == 400
  {
    ForkBytes(v.allocFile) + ForkBytes(v.extentsFile) + ForkBytes(v.catalogFile) + ForkBytes(v.attributesFile) + Zero(80)
  }

  function Encode(v: Header): (b: seq<byte>)
    ensures |b| == HEADER_SIZE
  {
    Identity(v) + Counters(v) + Trailer() + Forks(v)
  }

  method EncodeHeader(v: Header) returns (b: seq<byte>)
    ensures b == Encode(v)
  {
    hide Identity, Counters, Trailer, Forks;
    var buf := new byte[HEADER_SIZE](_ => 0);
    assert buf[..0] == [];
    var at := PutNext(buf, 0, Identity(v));
    at := PutNext(buf, at, Counters(v));
    at := PutNext(buf, at, Trailer());
    at := PutNext(buf, at, Forks(v));
    return buf[..at];
  }

  /** The header of a finished plan; its free count comes from the bitmap. */
  method BuildVolumeHeader(plan: Plan, macTime: u32, ghost m: Map, ghost vs: seq<EntryView>) returns (v: Header)
    requires Made(plan, m, vs) && |vs| < U32_LIMIT
    ensures Describes(v, m) && v.macTime == macTime
    ensures v.fileCount == plan.fileCount && v.folderCount == plan.folderCount && v.nextCatalogID == plan.nextCatalogID
  {
    StartsFit(m);
    FreeIsTheRest(plan.bitmap.bytes[..], m);
    CountsFit(vs);
    hide SumOf, PlacedFrom, MarksPlan, ClearBits, Total, IsMaxCnid, PowerOfTwo, LeastFixedPoint;
    var free := plan.bitmap.FreeBlocks();
    v := Header(macTime, plan.fileCount, plan.folderCount, plan.blockSize, plan.totalBlocks, free, plan.nextAllocation,
                plan.nextCatalogID, plan.allocFile, plan.extentsFile, plan.catalogFile, plan.attributesFile);
  }

  lemma CountsFit(vs: seq<EntryView>)
    ensures Total(vs, FileWeight()) <= |vs| && Total(vs, FolderWeight()) <= |vs|
  {
    TotalBound(vs, FileWeight(), 1);
    TotalBound(vs, FolderWeight(), 1);
  }

  /** The header says where the map puts things and how much of it is free. */
  ghost predicate Describes(v: Header, m: Map)
  {
    && m.Planned() && m.total <= U32_LIMIT - 8
    && v.blockSize == m.blockSize && v.totalBlocks == m.total
    && v.freeBlocks == m.total - SumOf(m.Lengths()) - 1
    && v.nextAllocation == (if m.End() >= m.total - 1 then 0 else m.End())
    && ForkIs(v.allocFile, m.Start(1), m.alloc, m.blockSize) && ForkIs(v.extentsFile, m.Start(3), m.extents, m.blockSize)
    && ForkIs(v.catalogFile, m.Start(2), m.catalog, m.blockSize)
    && ForkIs(v.attributesFile, m.Start(4), m.attrs, m.blockSize)
  }

  // ----- reading it

  /** These 512 bytes read as `v`. */
  ghost predicate HeaderReadsAs(b: seq<byte>, v: Header) {
    && |b| == HEADER_SIZE
    && Get16(b, 0) == SIGNATURE
    && Get32(b, 32) == v.fileCount && Get32(b, 36) == v.folderCount
    && Get32(b, 40) == v.blockSize && Get32(b, 44) == v.totalBlocks && Get32(b, 48) == v.freeBlocks
    && Get32(b, 52) == v.nextAllocation && Get32(b, 64) == v.nextCatalogID
    && ForkAtReads(b, 112, v.allocFile) && ForkAtReads(b, 192, v.extentsFile)
    && ForkAtReads(b, 272, v.catalogFile) && ForkAtReads(b, 352, v.attributesFile)
  }

  ghost predicate ForkAtReads(img: seq<byte>, at: nat, f: ForkData)
    requires at + 80 <= |img|
  {
    && Get64(img, at) == f.logicalSize && Get32(img, at + 8) == f.clumpSize && Get32(img, at + 12) == f.totalBlocks
    && Get32(img, at + 16) == f.extent.start && Get32(img, at + 20) == f.extent.count
  }

  lemma CountersAt(b: seq<byte>, v: Header)
    requires |b| >= 68 && b[32..68] == Counters(v)
    ensures Get32(b, 32) == v.fileCount && Get32(b, 36) == v.folderCount && Get32(b, 40) == v.blockSize
    ensures Get32(b, 44) == v.totalBlocks && Get32(b, 48) == v.freeBlocks
    ensures Get32(b, 52) == v.nextAllocation && Get32(b, 64) == v.nextCatalogID
  {
    var c := Counters(v);
    CounterPieces(v);
    hide U32, Get32, Counters;
    CounterAt(b, v, 0, v.fileCount);
    CounterAt(b, v, 4, v.folderCount);
    CounterAt(b, v, 8, v.blockSize);
    CounterAt(b, v, 12, v.totalBlocks);
    CounterAt(b, v, 16, v.freeBlocks);
    CounterAt(b, v, 20, v.nextAllocation);
    CounterAt(b, v, 32, v.nextCatalogID);
  }

  lemma CounterPieces(v: Header)
    ensures var c := Counters(v);
      && c[0..4] == U32(v.fileCount) && c[4..8] == U32(v.folderCount) && c[8..12] == U32(v.blockSize)
      && c[12..16] == U32(v.totalBlocks) && c[16..20] == U32(v.freeBlocks) && c[20..24] == U32(v.nextAllocation)
      && c[32..36] == U32(v.nextCatalogID)
  {
    hide U32;
  }

  lemma CounterAt(b: seq<byte>, v: Header, at: nat, n: u32)
    requires |b| >= 68 && b[32..68] == Counters(v) && at + 4 <= 36 && Counters(v)[at..at + 4] == U32(n)
    ensures Get32(b, 32 + at) == n
  {
    hide U32, Get32, Counters;
    SubSlice(b, 32, 68, at, at + 4);
    Get32Slice(b, 32 + at, n);
  }

  lemma ForksAt(b: seq<byte>, v: Header)
    requires |b| == HEADER_SIZE && b[112..512] == Forks(v)
    ensures ForkAtReads(b, 112, v.allocFile) && ForkAtReads(b, 192, v.extentsFile)
    ensures ForkAtReads(b, 272, v.catalogFile) && ForkAtReads(b, 352, v.attributesFile)
  {
    hide ForkBytes, Zero, Get32, Get64;
    var f := Forks(v);
    assert f[0..80] == ForkBytes(v.allocFile) && f[80..160] == ForkBytes(v.extentsFile);
    assert f[160..240] == ForkBytes(v.catalogFile) && f[240..320] == ForkBytes(v.attributesFile);
    hide Forks;
    SubSlice(b, 112, 512, 0, 80);
    SubSlice(b, 112, 512, 80, 160);
    SubSlice(b, 112, 512, 160, 240);
    SubSlice(b, 112, 512, 240, 320);
    ForkReadsAt(b, 112, v.allocFile);
    ForkReadsAt(b, 192, v.extentsFile);
    ForkReadsAt(b, 272, v.catalogFile);
    ForkReadsAt(b, 352, v.attributesFile);
  }

  /** An encoded header reads back. */
  lemma EncodedHeaderReads(v: Header)
    ensures HeaderReadsAs(Encode(v), v)
  {
    var b := Encode(v);
    assert b[0..2] == Identity(v)[0..2] == U16(SIGNATURE);
    hide Identity, Counters, Trailer, Forks, Get16, Get32, ForkAtReads;
    assert b[32..68] == Counters(v) && b[112..512] == Forks(v);
    hide Encode;
    Get16Slice(b, 0, SIGNATURE);
    CountersAt(b, v);
    ForksAt(b, v);
  }

  // ----- the constant fields

  /** Signature and version of HFSX, the unmounted bit, the last mounter's mark, four
      dates, clump sizes, write count and encodings; the rest is zero. */
  ghost predicate HeaderSigned(b: seq<byte>, v: Header) {
    && |b| == 512
    && Get16(b, 0) == 0x4858 && Get16(b, 2) == 5 && Get32(b, 4) == 0x100 && Get32(b, 8) == 0x676F_2D64 && Get32(b, 12) == 0
    && Get32(b, 16) == v.macTime && Get32(b, 20) == v.macTime && Get32(b, 24) == v.macTime && Get32(b, 28) == v.macTime
    && Get32(b, 56) == v.blockSize && Get32(b, 60) == v.blockSize
    && Get32(b, 68) == 1 && Get64(b, 72) == 1
    && forall i :: 80 <= i < 112 || 432 <= i < 512 ==> b[i] == 0
  }

  lemma IdentityReads(b: seq<byte>, v: Header)
    requires |b| >= 32 && b[0..32] == Identity(v)
    ensures Get16(b, 0) == 0x4858 && Get16(b, 2) == 5 && Get32(b, 4) == 0x100 && Get32(b, 8) == 0x676F_2D64 && Get32(b, 12) == 0
    ensures Get32(b, 16) == v.macTime && Get32(b, 20) == v.macTime && Get32(b, 24) == v.macTime && Get32(b, 28) == v.macTime
  {
    var c := Identity(v);
    hide U16, U32, Get16, Get32;
    assert c[0..2] == U16(SIGNATURE) && c[2..4] == U16(VERSION) && c[4..8] == U32(UNMOUNTED) && c[8..12] == U32(LAST_MOUNTED);
    assert c[12..16] == U32(0) && c[16..20] == U32(v.macTime) && c[20..24] == U32(v.macTime);
    assert c[24..28] == U32(v.macTime) && c[28..32] == U32(v.macTime);
    hide Identity;
    SubSlice(b, 0, 32, 0, 2);
    SubSlice(b, 0, 32, 2, 4);
    Get16Slice(b, 0, SIGNATURE);
    Get16Slice(b, 2, VERSION);
    IdentityAt(b, v, 4, UNMOUNTED);
    IdentityAt(b, v, 8, LAST_MOUNTED);
    IdentityAt(b, v, 12, 0);
    IdentityAt(b, v, 16, v.macTime);
    IdentityAt(b, v, 20, v.macTime);
    IdentityAt(b, v, 24, v.macTime);
    IdentityAt(b, v, 28, v.macTime);
  }

  lemma IdentityAt(b: seq<byte>, v: Header, at: nat, n: u32)
    requires |b| >= 32 && b[0..32] == Identity(v) && at + 4 <= 32 && Identity(v)[at..at + 4] == U32(n)
    ensures Get32(b, at) == n
  {
    hide U32, Get32, Identity;
    SubSlice(b, 0, 32, at, at + 4);
    Get32Slice(b, at, n);
  }

  lemma ClumpsRead(b: seq<byte>, v: Header)
    requires |b| >= 68 && b[32..68] == Counters(v)
    ensures Get32(b, 56) == v.blockSize && Get32(b, 60) == v.blockSize
  {
    ClumpPieces(v);
    hide U32, Get32, Counters;
    CounterAt(b, v, 24, v.blockSize);
    CounterAt(b, v, 28, v.blockSize);
  }

  lemma ClumpPieces(v: Header)
    ensures Counters(v)[24..28] == U32(v.blockSize) && Counters(v)[28..32] == U32(v.blockSize)
  {
    hide U32;
  }

  lemma TrailerReads(b: seq<byte>)
    requires |b| >= 112 && b[68..112] == Trailer()
    ensures Get32(b, 68) == 1 && Get64(b, 72) == 1
    ensures forall i :: 80 <= i < 112 ==> b[i] == 0
  {
    var c := Trailer();
    hide U32, U64, Get32, Get64;
    assert c[0..4] == U32(1) && c[4..12] == U64(1) && c[12..44] == Zero(32);
    hide Trailer;
    SubSlice(b, 68, 112, 0, 4);
    SubSlice(b, 68, 112, 4, 12);
    SubSlice(b, 68, 112, 12, 44);
    Get32Slice(b, 68, 1);
    Get64Slice(b, 72, 1);
    forall i | 80 <= i < 112 ensures b[i] == 0 {
      assert b[80..112][i - 80] == Zero(32)[i - 80];
    }
  }

  /** The startup fork is empty. */
  lemma NoStartup(b: seq<byte>, v: Header)
    requires |b| == 512 && b[112..512] == Forks(v)
    ensures forall i :: 432 <= i < 512 ==> b[i] == 0
  {
    hide ForkBytes;
    assert Forks(v)[320..400] == Zero(80);
    hide Forks;
    SubSlice(b, 112, 512, 320, 400);
    forall i | 432 <= i < 512 ensures b[i] == 0 {
      assert b[432..512][i - 432] == Zero(80)[i - 432];
    }
  }

  lemma EncodedHeaderSigned(v: Header)
    ensures HeaderSigned(Encode(v), v)
  {
    var b := Encode(v);
    hide Identity, Counters, Trailer, Forks, Get16, Get32, Get64;
    assert b[0..32] == Identity(v) && b[32..68] == Counters(v) && b[68..112] == Trailer() && b[112..512] == Forks(v);
    hide Encode;
    IdentityReads(b, v);
    ClumpsRead(b, v);
    TrailerReads(b);
    NoStartup(b, v);
  }
}
