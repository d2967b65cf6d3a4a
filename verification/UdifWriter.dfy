/** The UDIF wrapper around the pipeline: one blkx table per region, written in
    one pass over the source. */
module UdifWriter {
  import opened Bytes
  import opened Wrappers
  import opened Seqs
  import opened Checksum
  import opened Encoder
  import opened Replay
  import opened ChunkForm
  import P = Pipeline
  import T = PipelineTheorems

  const ENTIRE_DEVICE: nat := 0xFFFF_FFFE
  const DEFAULT_CHUNK_SECTORS: nat := 2048
  const U64: nat := 0x1_0000_0000_0000_0000
  const U32: nat := 0x1_0000_0000

  // ----- small loops of the writer

  /** Compares 64 bytes at a time while it can, then byte by byte. */
  method IsAllZero(buf: seq<byte>) returns (zero: bool)
    ensures zero <==> AllZero(buf)
  {
    var p := buf;
    while |p| >= 64
      invariant |p| <= |buf| && p == buf[|buf| - |p|..]
      invariant AllZero(buf[..|buf| - |p|])
    {
      ghost var at := |buf| - |p|;
      assert p[..64] == buf[at..at + 64];
      if p[..64] != Zeros(64) {
        var i :| 0 <= i < 64 && p[i] != 0;
        assert buf[at + i] != 0;
        return false;
      }
      assert forall j :: at <= j < at + 64 ==> buf[j] == p[..64][j - at];
      p := p[64..];
    }
    var i := 0;
    while i < |p|
      invariant 0 <= i <= |p|
      invariant AllZero(buf[..|buf| - |p| + i])
    {
      assert p[i] == buf[|buf| - |p| + i];
      if p[i] != 0 {
        return false;
      }
      i := i + 1;
    }
    assert buf[..|buf|] == buf;
    return true;
  }

  /** A destination that may take any non-empty part of what it is offered, and
      may fail after taking some of it. */
  class Sink {
    var written: seq<byte>

    method Write(p: seq<byte>) returns (n: nat, ok: bool)
      modifies this
      ensures n <= |p| && written == old(written) + p[..n]
      ensures ok && p != [] ==> n > 0
    {
      n :| 0 <= n <= |p| && (p != [] ==> 0 < n);
      ok := *;
      written := written + p[..n];
    }
  }

  /** Everything arrives, or an error is reported after a prefix. */
  method WriteBytes(w: Sink, p: seq<byte>) returns (ok: bool)
    modifies w
    ensures ok ==> w.written == old(w.written) + p
    ensures old(w.written) <= w.written <= old(w.written) + p
  {
    var rest := p;
    while |rest| > 0
      invariant |rest| <= |p| && rest == p[|p| - |rest|..]
      invariant w.written == old(w.written) + p[..|p| - |rest|]
    {
      var at := |p| - |rest|;
      var n, good := w.Write(rest);
      assert p[..at] + rest[..n] == p[..at + n];
      if !good {
        return false;
      }
      rest := rest[n..];
    }
    assert p[..|p|] == p;
    return true;
  }

  // ----- regions

  datatype BlkxSpec = BlkxSpec(id: int, descriptor: nat, firstSector: nat, sectors: nat)

  datatype ImageVariant = PartitionVariant | DeviceVariant

  datatype WriteError =
    | EmptySource
    | UnalignedSource
    | EmptyRegion(index: nat)
    | WrongCoverage(sectors: nat)
    | EncodeFault(fault: P.Fault)

  function Sectors(): nat -> nat { (n: nat) => n }

  /** The true number of sectors the regions cover. */
  function Covered(regions: seq<nat>): nat { Total(regions, Sectors()) }

  lemma CoveredSnoc(regions: seq<nat>, n: nat)
    ensures Covered(regions + [n]) == Covered(regions) + n
  {
    TotalAppend(regions, [n], Sectors());
  }

  lemma CoveredPrefix(regions: seq<nat>, i: nat)
    requires i < |regions|
    ensures Covered(regions[..i + 1]) == Covered(regions[..i]) + regions[i]
  {
    assert regions[..i + 1] == regions[..i] + [regions[i]];
    CoveredSnoc(regions[..i], regions[i]);
  }

  /** What the region check lets through. */
  predicate RegionsAccepted(regions: seq<nat>, totalSectors: nat) {
    regions == [] || ((forall i :: 0 <= i < |regions| ==> regions[i] > 0) && Covered(regions) % U64 == totalSectors)
  }

  /** The tables to write: one for the whole device, or one per region. */
  function SpecsFor(regions: seq<nat>, totalSectors: nat): (specs: seq<BlkxSpec>)
    ensures specs != []
  {
    if regions == [] then [BlkxSpec(0, ENTIRE_DEVICE, 0, totalSectors)]
    else seq(|regions|, i requires 0 <= i < |regions| => BlkxSpec(i - 1, i, Covered(regions[..i]) % U64, regions[i]))
  }

  function VariantFor(regions: seq<nat>): ImageVariant {
    if regions == [] then PartitionVariant else DeviceVariant
  }

  /** One spec per region; sector positions are 64-bit sums, which wrap. */
  method BlkxSpecs(regions: seq<nat>, totalSectors: nat)
    returns (r: Result<(seq<BlkxSpec>, ImageVariant), WriteError>)
    requires totalSectors < U64 && forall i :: 0 <= i < |regions| ==> regions[i] < U64
    ensures r.Ok? <==> RegionsAccepted(regions, totalSectors)
    ensures r.Ok? ==> r.value == (SpecsFor(regions, totalSectors), VariantFor(regions))
    ensures r.Ok? ==> (r.value.1 == PartitionVariant <==> regions == [])
    ensures r.Ok? && regions == [] ==> r.value.0 == [BlkxSpec(0, 0xFFFF_FFFE, 0, totalSectors)]
    ensures r.Ok? && regions != [] ==>
      && |r.value.0| == |regions|
      && forall i :: 0 <= i < |regions| ==>
           r.value.0[i] == BlkxSpec(i - 1, i, Covered(regions[..i]) % 0x1_0000_0000_0000_0000, regions[i])
    ensures r.Err? ==>
      (r.error.WrongCoverage? || (r.error.EmptyRegion? && r.error.index < |regions| && regions[r.error.index] == 0))
  {
    if |regions| == 0 {
      return Ok(([BlkxSpec(0, ENTIRE_DEVICE, 0, totalSectors)], PartitionVariant));
    }
    var specs: seq<BlkxSpec> := [];
    var first: nat := 0;
    NothingCovered();
    assert regions[..0] == [];
    hide Covered;
    for i := 0 to |regions|
      invariant |specs| == i && first == Covered(regions[..i]) % U64
      invariant forall j :: 0 <= j < i ==> regions[j] > 0
      invariant forall j :: 0 <= j < i ==> specs[j] == BlkxSpec(j - 1, j, Covered(regions[..j]) % U64, regions[j])
    {
      if regions[i] == 0 {
        return Err(EmptyRegion(i));
      }
      CoveredPrefix(regions, i);
      specs := specs + [BlkxSpec(i - 1, i, first, regions[i])];
      first := (first + regions[i]) % U64;
    }
    assert regions[..|regions|] == regions;
    if first != totalSectors {
      return Err(WrongCoverage(first));
    }
    assert specs == SpecsFor(regions, totalSectors);
    return Ok((specs, DeviceVariant));
  }

  /** The check accepts regions that cover the image exactly, and also, because
      the sum wraps, regions that overshoot it by a multiple of 2^64 sectors: it
      is exact if and only if the true sum stays below 2^64. */
  lemma CoverageCheckIsExact(regions: seq<nat>, totalSectors: nat)
    requires totalSectors < U64 && Covered(regions) % U64 == totalSectors
    ensures Covered(regions) == totalSectors <==> Covered(regions) < U64
  {
  }

  lemma CoverageCheckWraps()
    ensures var regions := [U64 - 1, 101]; Covered(regions) % U64 == 100 && Covered(regions) != 100
  {
    CoveredSnoc([U64 - 1], 101);
    CoveredSnoc([], U64 - 1);
    assert [U64 - 1] + [101] == [U64 - 1, 101];
    assert [] + [U64 - 1] == [U64 - 1];
  }

  /** The sector count of the largest run, as the table advertises it: computed
      from byte counts cut to 32 bits. */
  function DecompressBuffer(chunkBytes: nat, regionLen: nat): nat
  {
    var largest := if chunkBytes > regionLen then regionLen % U32 else chunkBytes % U32;
    (largest + SECTOR_SIZE - 1) % U32 / SECTOR_SIZE
  }

  /** It is the largest run's sector count if and only if that run is under
      4 GiB, which a chunk of fewer than 2^23 sectors guarantees. */
  lemma DecompressBufferIsLargestRun(chunkBytes: nat, regionLen: nat)
    requires chunkBytes % SECTOR_SIZE == 0 && regionLen % SECTOR_SIZE == 0
    ensures var largest := if chunkBytes > regionLen then regionLen else chunkBytes;
      DecompressBuffer(chunkBytes, regionLen) == largest / SECTOR_SIZE <==> largest < U32
  {
  }

  // ----- the image

  datatype Table = Table(id: int, descriptor: nat, firstSector: nat, sectors: nat, runs: seq<BlockRun>, crc: Crc,
                         decompressBuffer: nat)

  /** The data fork, its tables and the checksum of the whole fork. */
  datatype Image = Image(fork: seq<byte>, tables: seq<Table>, forkCrc: Crc, variant: ImageVariant)

  /** The table's runs without the terminator. */
  function RunsOf(t: Table): seq<BlockRun>
  {
    if t.runs == [] then [] else t.runs[..|t.runs| - 1]
  }

  /** Where the table's stretch of the fork ends, as its terminator says. */
  function End(t: Table): nat
  {
    if t.runs == [] then 0 else t.runs[|t.runs| - 1].compOffset
  }

  /** A table that a reader can trust: its runs tile its region and its stretch
      of the fork and end in a terminator, they expand to the source's sectors,
      and the checksum is that of the non-zero ones. */
  ghost predicate TableHolds(t: Table, source: seq<byte>, fork: seq<byte>, base: nat,
                             step: CrcStep, start: Crc, inflate: seq<byte> -> seq<byte>)
  {
    && t.runs == RunsOf(t) + [BlockRun(BlockTerminator, t.sectors, 0, End(t), 0)]
    && SECTOR_SIZE * (t.firstSector + t.sectors) <= |source|
    && Tiles(RunsOf(t), base, t.sectors, End(t))
    && RunsReplay(RunsOf(t), source[SECTOR_SIZE * t.firstSector..SECTOR_SIZE * (t.firstSector + t.sectors)],
                  fork, inflate)
    && t.crc == Update(step, start, NonZeroSectors(RunsOf(t), fork, inflate))
  }

  /** The tables hold, tile the source from sector 0 up to `sectors`, and split
      the whole fork between them. */
  ghost predicate TablesHold(tables: seq<Table>, source: seq<byte>, fork: seq<byte>, sectors: nat,
                             step: CrcStep, start: Crc, inflate: seq<byte> -> seq<byte>)
    decreases |tables|
  {
    if tables == [] then sectors == 0 && fork == []
    else
      var n := |tables| - 1;
      var t := tables[n];
      var base := if n == 0 then 0 else End(tables[n - 1]);
      && base <= End(t) == |fork|
      && sectors == t.firstSector + t.sectors
      && TableHolds(t, source, fork, base, step, start, inflate)
      && TablesHold(tables[..n], source, fork[..base], t.firstSector, step, start, inflate)
  }

  /** What a verifier feeds the fork's checksum: the non-zero sectors of every
      table, in order. */
  ghost function AllNonZero(tables: seq<Table>, fork: seq<byte>, inflate: seq<byte> -> seq<byte>): seq<byte>
  {
    if tables == [] then []
    else
      var n := |tables| - 1;
      AllNonZero(tables[..n], fork, inflate) + NonZeroSectors(RunsOf(tables[n]), fork, inflate)
  }

  /** The specs of an accepted region list follow one another. */
  predicate SpecsTile(specs: seq<BlkxSpec>, totalSectors: nat) {
    && specs != []
    && specs[0].firstSector == 0
    && (forall i :: 0 < i < |specs| ==> specs[i].firstSector == specs[i - 1].firstSector + specs[i - 1].sectors)
    && specs[|specs| - 1].firstSector + specs[|specs| - 1].sectors == totalSectors
  }

  lemma AcceptedSpecsTile(regions: seq<nat>, specs: seq<BlkxSpec>, totalSectors: nat)
    requires regions != [] && |specs| == |regions| && Covered(regions) == totalSectors < U64
    requires forall i :: 0 <= i < |regions| ==>
      specs[i] == BlkxSpec(i - 1, i, Covered(regions[..i]) % U64, regions[i])
    ensures SpecsTile(specs, totalSectors)
  {
    hide Covered;
    assert regions[..0] == [] && regions[..|regions|] == regions;
    assert Covered([]) == 0 by { NothingCovered(); }
    forall i | 0 <= i < |regions|
      ensures specs[i].firstSector == Covered(regions[..i])
      ensures Covered(regions[..i + 1]) == specs[i].firstSector + specs[i].sectors
    {
      CoveredPrefix(regions, i);
      CoveredMonotone(regions, i);
    }
  }

  lemma NothingCovered()
    ensures Covered([]) == 0
  {
  }

  lemma CoveredMonotone(regions: seq<nat>, i: nat)
    requires i <= |regions|
    ensures Covered(regions[..i]) <= Covered(regions)
  {
    TotalAppend(regions[..i], regions[i..], Sectors());
    assert regions[..i] + regions[i..] == regions;
  }

  // ----- writing the fork

  function RegionOf(source: seq<byte>, spec: BlkxSpec, base: nat, chunkBytes: nat, zlib: bool,
                    deflate: seq<byte> -> seq<byte>): Region
    requires SECTOR_SIZE * (spec.firstSector + spec.sectors) <= |source|
  {
    Region(source[SECTOR_SIZE * spec.firstSector..SECTOR_SIZE * (spec.firstSector + spec.sectors)],
           base, chunkBytes, zlib, deflate)
  }

  /** The table of a finished region. */
  function TableOf(spec: BlkxSpec, runs: seq<BlockRun>, end: nat, crc: Crc, chunkBytes: nat): Table
  {
    Table(spec.id, spec.descriptor, spec.firstSector, spec.sectors, runs + [BlockRun(BlockTerminator, spec.sectors, 0, end, 0)], crc,
          DecompressBuffer(chunkBytes, SECTOR_SIZE * spec.sectors))
  }

  /** A finished region's table holds on the fork extended by its encoding. */
  lemma FinishedTableHolds(source: seq<byte>, spec: BlkxSpec, fork: seq<byte>, r: Region,
                           step: CrcStep, start: Crc, inflate: seq<byte> -> seq<byte>)
    requires SECTOR_SIZE * (spec.firstSector + spec.sectors) <= |source|
    requires r == RegionOf(source, spec, |fork|, r.chunkBytes, r.zlib, r.deflate)
    requires r.Valid() && r.chunkBytes % SECTOR_SIZE == 0 && Lossless(r.deflate, inflate)
    ensures
      var whole := fork + EncodeAll(r).fork;
      var t := TableOf(spec, EncodeAll(r).runs, |whole|, Update(step, start, EncodeAll(r).crcFed), r.chunkBytes);
      && RunsOf(t) == EncodeAll(r).runs && End(t) == |whole|
      && TableHolds(t, source, whole, |fork|, step, start, inflate)
      && NonZeroSectors(RunsOf(t), whole, inflate) == EncodeAll(r).crcFed
  {
    hide Encode, Split, Tiles, RunsReplay, NonZeroSectors, Update;
    var e := EncodeAll(r);
    var whole := fork + e.fork;
    assert InFork(r, whole);
    var n := |r.Chunks()|;
    ChunkPosition(r, n);
    RegionTiles(r, n);
    RegionReplays(r, whole, inflate);
    RegionChecksum(r, whole, n, inflate);
  }

  ghost predicate InBounds(t: Table, fork: seq<byte>) {
    forall i :: 0 <= i < |RunsOf(t)| ==> RunsOf(t)[i].compOffset + RunsOf(t)[i].compLength <= |fork|
  }

  /** What a reader needs of one table, with the whole fork in hand. */
  ghost predicate TableReplays(t: Table, source: seq<byte>, fork: seq<byte>,
                               step: CrcStep, start: Crc, inflate: seq<byte> -> seq<byte>)
  {
    && InBounds(t, fork)
    && SECTOR_SIZE * (t.firstSector + t.sectors) <= |source|
    && RunsReplay(RunsOf(t), source[SECTOR_SIZE * t.firstSector..SECTOR_SIZE * (t.firstSector + t.sectors)],
                  fork, inflate)
    && t.crc == Update(step, start, NonZeroSectors(RunsOf(t), fork, inflate))
  }

  lemma TableReplaysExtend(t: Table, source: seq<byte>, fork: seq<byte>, more: seq<byte>,
                           step: CrcStep, start: Crc, inflate: seq<byte> -> seq<byte>)
    requires TableReplays(t, source, fork, step, start, inflate)
    ensures TableReplays(t, source, fork + more, step, start, inflate)
  {
    hide ExpandRun, NonZeroSectors, Update;
    ReplayExtends(RunsOf(t), source[SECTOR_SIZE * t.firstSector..SECTOR_SIZE * (t.firstSector + t.sectors)],
                  fork, more, inflate);
    NonZeroExtends(RunsOf(t), fork, more, inflate);
  }

  lemma HeldTableReplays(t: Table, source: seq<byte>, fork: seq<byte>, base: nat,
                         step: CrcStep, start: Crc, inflate: seq<byte> -> seq<byte>)
    requires TableHolds(t, source, fork, base, step, start, inflate)
    ensures TableReplays(t, source, fork, step, start, inflate)
  {
    hide ExpandRun, NonZeroSectors, Update, Tiles;
    forall i | 0 <= i < |RunsOf(t)| ensures RunsOf(t)[i].compOffset + RunsOf(t)[i].compLength <= |fork| {
      assert RunReplays(RunsOf(t)[i],
        source[SECTOR_SIZE * t.firstSector..SECTOR_SIZE * (t.firstSector + t.sectors)], fork, inflate);
    }
  }

  /** Over the whole fork, every table of a finished image replays. */
  lemma {:induction false} TablesReplay(tables: seq<Table>, source: seq<byte>, fork: seq<byte>, sectors: nat,
                                        step: CrcStep, start: Crc, inflate: seq<byte> -> seq<byte>, i: nat)
    requires TablesHold(tables, source, fork, sectors, step, start, inflate) && i < |tables|
    ensures TableReplays(tables[i], source, fork, step, start, inflate)
  {
    hide TableHolds, TableReplays;
    var n := |tables| - 1;
    var t := tables[n];
    var base := if n == 0 then 0 else End(tables[n - 1]);
    if i < n {
      TablesReplay(tables[..n], source, fork[..base], t.firstSector, step, start, inflate, i);
      assert fork[..base] + fork[base..] == fork;
      TableReplaysExtend(tables[i], source, fork[..base], fork[base..], step, start, inflate);
    } else {
      HeldTableReplays(t, source, fork, base, step, start, inflate);
    }
  }

  lemma {:induction false} AllNonZeroExtends(tables: seq<Table>, fork: seq<byte>, more: seq<byte>,
                                             inflate: seq<byte> -> seq<byte>)
    requires forall i :: 0 <= i < |tables| ==> InBounds(tables[i], fork)
    ensures AllNonZero(tables, fork + more, inflate) == AllNonZero(tables, fork, inflate)
  {
    hide NonZeroSectors;
    if tables != [] {
      var n := |tables| - 1;
      AllNonZeroExtends(tables[..n], fork, more, inflate);
      NonZeroExtends(RunsOf(tables[n]), fork, more, inflate);
    }
  }

  /** One more region: the tables, the fork and the fork's checksum all grow
      together. */
  lemma TablesSnoc(tables: seq<Table>, t: Table, source: seq<byte>, fork: seq<byte>, more: seq<byte>,
                   step: CrcStep, start: Crc, inflate: seq<byte> -> seq<byte>)
    requires TablesHold(tables, source, fork, t.firstSector, step, start, inflate)
    requires TableHolds(t, source, fork + more, |fork|, step, start, inflate) && End(t) == |fork| + |more|
    ensures TablesHold(tables + [t], source, fork + more, t.firstSector + t.sectors, step, start, inflate)
    ensures AllNonZero(tables + [t], fork + more, inflate)
         == AllNonZero(tables, fork, inflate) + NonZeroSectors(RunsOf(t), fork + more, inflate)
  {
    hide TableHolds, NonZeroSectors, Tiles, RunsReplay;
    var all := tables + [t];
    assert all[..|tables|] == tables;
    assert (fork + more)[..|fork|] == fork;
    forall i | 0 <= i < |tables| ensures InBounds(tables[i], fork) {
      TablesReplay(tables, source, fork, t.firstSector, step, start, inflate, i);
    }
    AllNonZeroExtends(tables, fork, more, inflate);
    hide InBounds;
  }

  /** One turn of the region loop. */
  lemma RegionStep(tables: seq<Table>, source: seq<byte>, spec: BlkxSpec, fork: seq<byte>, r: Region,
                   step: CrcStep, start: Crc, inflate: seq<byte> -> seq<byte>)
    requires TablesHold(tables, source, fork, spec.firstSector, step, start, inflate)
    requires SECTOR_SIZE * (spec.firstSector + spec.sectors) <= |source|
    requires r == RegionOf(source, spec, |fork|, r.chunkBytes, r.zlib, r.deflate)
    requires r.Valid() && r.chunkBytes % SECTOR_SIZE == 0 && Lossless(r.deflate, inflate)
    ensures
      var e, whole := EncodeAll(r), fork + EncodeAll(r).fork;
      var all := tables + [TableOf(spec, e.runs, |whole|, Update(step, start, e.crcFed), r.chunkBytes)];
      && TablesHold(all, source, whole, spec.firstSector + spec.sectors, step, start, inflate)
      && Update(step, Update(step, start, AllNonZero(tables, fork, inflate)), e.crcFed)
         == Update(step, start, AllNonZero(all, whole, inflate))
  {
    hide TablesHold, TableHolds, Update, AllNonZero, NonZeroSectors, Encode, Split, RunsOf, End;
    FinishedTableHolds(source, spec, fork, r, step, start, inflate);
    var e := EncodeAll(r);
    var t := TableOf(spec, e.runs, |fork| + |e.fork|, Update(step, start, e.crcFed), r.chunkBytes);
    TablesSnoc(tables, t, source, fork, e.fork, step, start, inflate);
    UpdateAppend(step, start, AllNonZero(tables, fork, inflate), e.crcFed);
  }

  // ----- how a table stores its region

  /** The buffer a table asks for holds every run, and some run needs all of it. */
  ghost predicate BufferFits(t: Table) {
    && (forall k :: 0 <= k < |RunsOf(t)| ==> RunsOf(t)[k].sectorCount <= t.decompressBuffer)
    && (t.sectors > 0 ==> exists k :: 0 <= k < |RunsOf(t)| && RunsOf(t)[k].sectorCount == t.decompressBuffer)
  }

  /** The table's runs stand for the chunks of its region, stored in the fork as they
      should be; below 4 GiB a chunk the buffer is that of the largest run. */
  ghost predicate TableStores(t: Table, source: seq<byte>, fork: seq<byte>, chunkBytes: nat, zlib: bool,
                              deflate: seq<byte> -> seq<byte>)
  {
    && 512 * (t.firstSector + t.sectors) <= |source|
    && StoresData(source[512 * t.firstSector..512 * (t.firstSector + t.sectors)], chunkBytes, zlib, deflate,
                  RunsOf(t), fork, 0)
    && (chunkBytes < 0x1_0000_0000 ==> BufferFits(t))
  }

  ghost predicate TablesStore(tables: seq<Table>, source: seq<byte>, fork: seq<byte>, chunkBytes: nat, zlib: bool,
                              deflate: seq<byte> -> seq<byte>)
  {
    forall i :: 0 <= i < |tables| ==> TableStores(tables[i], source, fork, chunkBytes, zlib, deflate)
  }

  lemma FinishedTableStores(source: seq<byte>, spec: BlkxSpec, fork: seq<byte>, r: Region, crc: Crc)
    requires SECTOR_SIZE * (spec.firstSector + spec.sectors) <= |source|
    requires r == RegionOf(source, spec, |fork|, r.chunkBytes, r.zlib, r.deflate)
    requires r.Valid() && r.chunkBytes % SECTOR_SIZE == 0
    ensures
      var whole := fork + EncodeAll(r).fork;
      TableStores(TableOf(spec, EncodeAll(r).runs, |whole|, crc, r.chunkBytes), source, whole, r.chunkBytes, r.zlib, r.deflate)
  {
    hide Encode, Split, StoresData, DecompressBuffer;
    var whole := fork + EncodeAll(r).fork;
    assert InFork(r, whole);
    var t := TableOf(spec, EncodeAll(r).runs, |whole|, crc, r.chunkBytes);
    assert RunsOf(t) == EncodeAll(r).runs;
    RegionStores(r, whole);
    var largest := if r.chunkBytes > |r.data| then |r.data| else r.chunkBytes;
    LargestRun(r.data, r.chunkBytes, r.zlib, r.deflate, RunsOf(t), whole, 0, largest);
    DecompressBufferIsLargestRun(r.chunkBytes, |r.data|);
  }

  lemma TablesStoreNext(tables: seq<Table>, t: Table, source: seq<byte>, fork: seq<byte>, more: seq<byte>, chunkBytes: nat,
                        zlib: bool, deflate: seq<byte> -> seq<byte>)
    requires TablesStore(tables, source, fork, chunkBytes, zlib, deflate)
    requires TableStores(t, source, fork + more, chunkBytes, zlib, deflate)
    ensures TablesStore(tables + [t], source, fork + more, chunkBytes, zlib, deflate)
  {
    hide StoresData, BufferFits;
    forall i | 0 <= i < |tables| ensures TableStores(tables[i], source, fork + more, chunkBytes, zlib, deflate) {
      var x := tables[i];
      assert TableStores(x, source, fork, chunkBytes, zlib, deflate);
      StoresExtends(source[512 * x.firstSector..512 * (x.firstSector + x.sectors)], chunkBytes, zlib, deflate,
                    RunsOf(x), fork, more, 0);
    }
  }

  predicate SpecsInside(specs: seq<BlkxSpec>, source: seq<byte>) {
    forall i :: 0 <= i < |specs| ==> SECTOR_SIZE * (specs[i].firstSector + specs[i].sectors) <= |source|
  }

  /** The image after the first `n` regions, each encoded sequentially behind the
      one before: there are no workers here. */
  function ImageOf(source: seq<byte>, specs: seq<BlkxSpec>, chunkBytes: nat, zlib: bool, deflate: seq<byte> -> seq<byte>,
                   step: CrcStep, start: Crc, variant: ImageVariant, n: nat): Image
    requires 0 < chunkBytes && SpecsInside(specs, source) && n <= |specs|
  {
    if n == 0 then Image([], [], start, variant)
    else
      var before := ImageOf(source, specs, chunkBytes, zlib, deflate, step, start, variant, n - 1);
      var e := EncodeAll(RegionOf(source, specs[n - 1], |before.fork|, chunkBytes, zlib, deflate));
      var end := |before.fork| + |e.fork|;
      Image(before.fork + e.fork,
            before.tables + [TableOf(specs[n - 1], e.runs, end, Update(step, start, e.crcFed), chunkBytes)],
            Update(step, before.forkCrc, e.crcFed), variant)
  }

  lemma NothingImaged(source: seq<byte>, specs: seq<BlkxSpec>, chunkBytes: nat, zlib: bool,
                      deflate: seq<byte> -> seq<byte>, step: CrcStep, start: Crc, variant: ImageVariant)
    requires 0 < chunkBytes && SpecsInside(specs, source)
    ensures ImageOf(source, specs, chunkBytes, zlib, deflate, step, start, variant, 0) == Image([], [], start, variant)
  {
  }

  /** One more region of the sequential image. */
  lemma ImageStep(source: seq<byte>, specs: seq<BlkxSpec>, chunkBytes: nat, zlib: bool, deflate: seq<byte> -> seq<byte>,
                  step: CrcStep, start: Crc, before: Image, n: nat, e: Encoding)
    requires 0 < chunkBytes && SpecsInside(specs, source) && n < |specs|
    requires before == ImageOf(source, specs, chunkBytes, zlib, deflate, step, start, before.variant, n)
    requires e == EncodeAll(RegionOf(source, specs[n], |before.fork|, chunkBytes, zlib, deflate))
    ensures Image(before.fork + e.fork,
                  before.tables + [TableOf(specs[n], e.runs, |before.fork| + |e.fork|, Update(step, start, e.crcFed), chunkBytes)],
                  Update(step, before.forkCrc, e.crcFed), before.variant)
         == ImageOf(source, specs, chunkBytes, zlib, deflate, step, start, before.variant, n + 1)
  {
    hide Encode, RegionOf, TableOf, Update, SpecsInside;
  }

  /** Everything that holds of the image after the first `n` regions. */
  ghost predicate RegionsDone(im: Image, source: seq<byte>, specs: seq<BlkxSpec>, n: nat, chunkBytes: nat, zlib: bool,
                              deflate: seq<byte> -> seq<byte>, step: CrcStep, start: Crc, inflate: seq<byte> -> seq<byte>)
    requires 0 < chunkBytes && SpecsInside(specs, source) && n <= |specs|
  {
    && |im.tables| == n
    && (forall j :: 0 <= j < n ==>
          && im.tables[j].sectors == specs[j].sectors && im.tables[j].id == specs[j].id
          && im.tables[j].descriptor == specs[j].descriptor)
    && TablesHold(im.tables, source, im.fork, if n == 0 then 0 else specs[n - 1].firstSector + specs[n - 1].sectors,
                  step, start, inflate)
    && TablesStore(im.tables, source, im.fork, chunkBytes, zlib, deflate)
    && im.forkCrc == Update(step, start, AllNonZero(im.tables, im.fork, inflate))
    && im == ImageOf(source, specs, chunkBytes, zlib, deflate, step, start, im.variant, n)
  }

  lemma NoneDone(source: seq<byte>, specs: seq<BlkxSpec>, chunkBytes: nat, zlib: bool, deflate: seq<byte> -> seq<byte>,
                 step: CrcStep, start: Crc, variant: ImageVariant, inflate: seq<byte> -> seq<byte>)
    requires 0 < chunkBytes && SpecsInside(specs, source)
    ensures RegionsDone(Image([], [], start, variant), source, specs, 0, chunkBytes, zlib, deflate, step, start, inflate)
  {
    NothingImaged(source, specs, chunkBytes, zlib, deflate, step, start, variant);
    NoTablesHold(source, step, start, inflate);
    NothingStored(source, chunkBytes, zlib, deflate);
    hide TablesHold, TablesStore, Update, AllNonZero, ImageOf;
  }

  /** One turn of the region loop. */
  lemma OneMoreDone(im: Image, source: seq<byte>, specs: seq<BlkxSpec>, n: nat, r: Region, step: CrcStep, start: Crc,
                    inflate: seq<byte> -> seq<byte>)
    requires r.Valid() && SpecsInside(specs, source) && n < |specs| && r.chunkBytes % SECTOR_SIZE == 0
    requires RegionsDone(im, source, specs, n, r.chunkBytes, r.zlib, r.deflate, step, start, inflate)
    requires specs[n].firstSector == if n == 0 then 0 else specs[n - 1].firstSector + specs[n - 1].sectors
    requires r == RegionOf(source, specs[n], |im.fork|, r.chunkBytes, r.zlib, r.deflate) && Lossless(r.deflate, inflate)
    ensures
      var e, end := EncodeAll(r), |im.fork| + |EncodeAll(r).fork|;
      var next := Image(im.fork + e.fork,
                        im.tables + [TableOf(specs[n], e.runs, end, Update(step, start, e.crcFed), r.chunkBytes)],
                        Update(step, im.forkCrc, e.crcFed), im.variant);
      RegionsDone(next, source, specs, n + 1, r.chunkBytes, r.zlib, r.deflate, step, start, inflate)
  {
    hide TablesHold, TablesStore, Update, AllNonZero, ImageOf, Encode, Split, RegionOf, DecompressBuffer;
    RegionStep(im.tables, source, specs[n], im.fork, r, step, start, inflate);
    StoreStep(im.tables, source, specs[n], im.fork, r, Update(step, start, EncodeAll(r).crcFed));
    ImageStep(source, specs, r.chunkBytes, r.zlib, r.deflate, step, start, im, n, EncodeAll(r));
  }

  /** One region through the pipeline. */
  method EncodeRegion(region: Region, workers: int)
    returns (failed: Option<WriteError>, runs: seq<BlockRun>, forkLen: nat, dst: seq<byte>, crcFed: seq<byte>)
    requires region.Valid()
    ensures failed.None? ==>
      && runs == EncodeAll(region).runs && dst == EncodeAll(region).fork && crcFed == EncodeAll(region).crcFed
      && forkLen == region.base + |dst|
    ensures failed.Some? ==> failed.value.EncodeFault?
  {
    hide Encode, StoresData;
    var outcome, bytes, fed, run, acts := T.EncodeChunks(P.Config(region, workers));
    if outcome.Failed? {
      return Some(EncodeFault(outcome.fault)), [], 0, [], [];
    }
    return None, outcome.runs, outcome.forkLen, bytes, fed;
  }

  /** The region loop: one table per spec, the fork and its checksum running
      across all of them. */
  method WriteRegions(source: seq<byte>, specs: seq<BlkxSpec>, chunkBytes: nat, zlib: bool, workers: int,
                      deflate: seq<byte> -> seq<byte>, step: CrcStep, start: Crc, variant: ImageVariant,
                      ghost inflate: seq<byte> -> seq<byte>)
    returns (r: Result<Image, WriteError>)
    requires 0 < chunkBytes && chunkBytes % SECTOR_SIZE == 0 && |source| % SECTOR_SIZE == 0
    requires SpecsTile(specs, |source| / SECTOR_SIZE) && Lossless(deflate, inflate)
    ensures r.Ok? ==>
      && TablesHold(r.value.tables, source, r.value.fork, |source| / SECTOR_SIZE, step, start, inflate)
      && r.value.forkCrc == Update(step, start, AllNonZero(r.value.tables, r.value.fork, inflate))
      && |r.value.tables| == |specs|
      && (forall i :: 0 <= i < |specs| ==> r.value.tables[i].sectors == specs[i].sectors)
      && r.value.variant == variant
    ensures r.Ok? ==>
      && TablesStore(r.value.tables, source, r.value.fork, chunkBytes, zlib, deflate)
      && forall i :: 0 <= i < |specs| ==>
           r.value.tables[i].id == specs[i].id && r.value.tables[i].descriptor == specs[i].descriptor
    ensures r.Ok? ==>
      && SpecsInside(specs, source)
      && r.value == ImageOf(source, specs, chunkBytes, zlib, deflate, step, start, variant, |specs|)
    ensures r.Err? ==> r.error.EncodeFault?
  {
    hide SpecsInside, SpecsTile, RegionOf, TablesHold, TablesStore, RegionsDone, ImageOf, Update, AllNonZero, EncodeAll,
         Encode, Split,
         TableOf, Lossless, StoresData, RunsOf, End;
    TilesInside(specs, source);
    NoneDone(source, specs, chunkBytes, zlib, deflate, step, start, variant, inflate);
    var fork: seq<byte> := [];
    var tables: seq<Table> := [];
    var forkCrc := start;
    for i := 0 to |specs|
      invariant RegionsDone(Image(fork, tables, forkCrc, variant), source, specs, i, chunkBytes, zlib, deflate, step, start, inflate)
    {
      SpecAt(specs, source, i, |fork|, chunkBytes, zlib, deflate);
      var region := RegionOf(source, specs[i], |fork|, chunkBytes, zlib, deflate);
      var failed, runs, forkLen, dst, crcFed := EncodeRegion(region, workers);
      if failed.Some? {
        return Err(failed.value);
      }
      OneMoreDone(Image(fork, tables, forkCrc, variant), source, specs, i, region, step, start, inflate);
      tables := tables + [TableOf(specs[i], runs, forkLen, Update(step, start, crcFed), chunkBytes)];
      forkCrc := Update(step, forkCrc, crcFed);
      fork := fork + dst;
    }
    AllDone(Image(fork, tables, forkCrc, variant), source, specs, chunkBytes, zlib, deflate, step, start, inflate);
    return Ok(Image(fork, tables, forkCrc, variant));
  }

  lemma TilesInside(specs: seq<BlkxSpec>, source: seq<byte>)
    requires SpecsTile(specs, |source| / SECTOR_SIZE)
    ensures SpecsInside(specs, source)
  {
    TiledSpecsFit(specs, |source| / SECTOR_SIZE, |specs| - 1);
  }

  /** Region `i` lies in the source, behind the one before. */
  lemma SpecAt(specs: seq<BlkxSpec>, source: seq<byte>, i: nat, base: nat, chunkBytes: nat, zlib: bool,
               deflate: seq<byte> -> seq<byte>)
    requires SpecsInside(specs, source) && SpecsTile(specs, |source| / SECTOR_SIZE) && i < |specs|
    ensures SECTOR_SIZE * (specs[i].firstSector + specs[i].sectors) <= |source|
    ensures specs[i].firstSector == if i == 0 then 0 else specs[i - 1].firstSector + specs[i - 1].sectors
    ensures var r := RegionOf(source, specs[i], base, chunkBytes, zlib, deflate);
      r.base == base && r.chunkBytes == chunkBytes && r.zlib == zlib && r.deflate == deflate
  {
  }

  lemma AllDone(im: Image, source: seq<byte>, specs: seq<BlkxSpec>, chunkBytes: nat, zlib: bool,
                deflate: seq<byte> -> seq<byte>, step: CrcStep, start: Crc, inflate: seq<byte> -> seq<byte>)
    requires 0 < chunkBytes && SpecsInside(specs, source) && SpecsTile(specs, |source| / SECTOR_SIZE)
    requires RegionsDone(im, source, specs, |specs|, chunkBytes, zlib, deflate, step, start, inflate)
    ensures TablesHold(im.tables, source, im.fork, |source| / SECTOR_SIZE, step, start, inflate)
    ensures TablesStore(im.tables, source, im.fork, chunkBytes, zlib, deflate)
    ensures im.forkCrc == Update(step, start, AllNonZero(im.tables, im.fork, inflate))
    ensures |im.tables| == |specs| && im == ImageOf(source, specs, chunkBytes, zlib, deflate, step, start, im.variant, |specs|)
    ensures forall i :: 0 <= i < |specs| ==>
      && im.tables[i].sectors == specs[i].sectors && im.tables[i].id == specs[i].id
      && im.tables[i].descriptor == specs[i].descriptor
  {
    hide SpecsInside, SpecsTile, TablesHold, TablesStore, Update, AllNonZero, ImageOf;
    TilesEnd(specs, |source| / SECTOR_SIZE);
  }

  /** The last spec ends where the source does. */
  lemma TilesEnd(specs: seq<BlkxSpec>, totalSectors: nat)
    requires SpecsTile(specs, totalSectors)
    ensures |specs| > 0 && specs[|specs| - 1].firstSector + specs[|specs| - 1].sectors == totalSectors
  {
  }

  function ChunkBytes(chunkSectors: nat): nat {
    (if chunkSectors == 0 then DEFAULT_CHUNK_SECTORS else chunkSectors) * SECTOR_SIZE
  }

  /** The single pass over the source. What reaches the destination on success
      replays to the source and does not depend on the worker count; `cpus` stands
      in for a worker count of zero. */
  method Write(srcLen: int, source: seq<byte>, regions: seq<nat>, zlib: bool, chunkSectors: nat,
               workers: int, cpus: nat, deflate: seq<byte> -> seq<byte>, step: CrcStep, start: Crc,
               ghost inflate: seq<byte> -> seq<byte>)
    returns (r: Result<Image, WriteError>)
    requires srcLen < 0x8000_0000_0000_0000 && chunkSectors < U32
    requires srcLen > 0 ==> |source| == srcLen
    requires Covered(regions) < U64 && forall i :: 0 <= i < |regions| ==> regions[i] < U64
    requires Lossless(deflate, inflate)
    ensures srcLen <= 0 ==> r == Err(EmptySource)
    ensures srcLen > 0 && srcLen % SECTOR_SIZE != 0 ==> r == Err(UnalignedSource)
    ensures r.Ok? ==>
      && srcLen > 0 && srcLen % SECTOR_SIZE == 0
      && TablesHold(r.value.tables, source, r.value.fork, srcLen / SECTOR_SIZE, step, start, inflate)
      && r.value.forkCrc == Update(step, start, AllNonZero(r.value.tables, r.value.fork, inflate))
      && |r.value.tables| == (if regions == [] then 1 else |regions|)
      && (regions != [] ==> forall i :: 0 <= i < |regions| ==> r.value.tables[i].sectors == regions[i])
    ensures r.Ok? ==>
      && TablesStore(r.value.tables, source, r.value.fork, if chunkSectors == 0 then 0x10_0000 else 512 * chunkSectors,
                     zlib, deflate)
      && (r.value.variant == PartitionVariant <==> regions == [])
      && (regions == [] ==> r.value.tables[0].id == 0 && r.value.tables[0].descriptor == 0xFFFF_FFFE)
      && (regions != [] ==> forall i :: 0 <= i < |regions| ==>
            r.value.tables[i].id == i - 1 && r.value.tables[i].descriptor == i)
    ensures r.Ok? ==>
      var specs := SpecsFor(regions, srcLen / SECTOR_SIZE);
      && SpecsInside(specs, source)
      && r.value == ImageOf(source, specs, ChunkBytes(chunkSectors), zlib, deflate, step, start, VariantFor(regions), |specs|)
    ensures srcLen > 0 && srcLen % SECTOR_SIZE == 0 ==>
      && (!RegionsAccepted(regions, srcLen / SECTOR_SIZE) ==> r.Err? && (r.error.EmptyRegion? || r.error.WrongCoverage?))
      && (RegionsAccepted(regions, srcLen / SECTOR_SIZE) && r.Err? ==> r.error.EncodeFault?)
  {
    hide TablesHold, TablesStore, Update, AllNonZero, Covered, ImageOf, SpecsInside, SpecsTile, SpecsFor, VariantFor,
         RegionsAccepted, RunsOf, End, EncodeAll, Lossless;
    if srcLen <= 0 {
      return Err(EmptySource);
    }
    if srcLen % SECTOR_SIZE != 0 {
      return Err(UnalignedSource);
    }
    var chunkBytes := ChunkBytes(chunkSectors);
    var totalSectors := srcLen / SECTOR_SIZE;
    var pool := if !zlib then 1 else if workers <= 0 then cpus else workers;

    var accepted := BlkxSpecs(regions, totalSectors);
    if accepted.Err? {
      return Err(accepted.error);
    }
    var (specs, variant) := accepted.value;
    SpecsFit(regions, specs, totalSectors);

    r := WriteRegions(source, specs, chunkBytes, zlib, pool, deflate, step, start, variant, inflate);
  }

  lemma NothingStored(source: seq<byte>, chunkBytes: nat, zlib: bool, deflate: seq<byte> -> seq<byte>)
    ensures TablesStore([], source, [], chunkBytes, zlib, deflate)
  {
  }

  lemma StoreStep(tables: seq<Table>, source: seq<byte>, spec: BlkxSpec, fork: seq<byte>, r: Region, crc: Crc)
    requires SECTOR_SIZE * (spec.firstSector + spec.sectors) <= |source|
    requires r == RegionOf(source, spec, |fork|, r.chunkBytes, r.zlib, r.deflate)
    requires r.Valid() && r.chunkBytes % SECTOR_SIZE == 0
    requires TablesStore(tables, source, fork, r.chunkBytes, r.zlib, r.deflate)
    ensures TablesStore(tables + [TableOf(spec, EncodeAll(r).runs, |fork| + |EncodeAll(r).fork|, crc, r.chunkBytes)], source,
                        fork + EncodeAll(r).fork, r.chunkBytes, r.zlib, r.deflate)
  {
    hide Encode, Split, TableStores, TablesStore, TableOf;
    FinishedTableStores(source, spec, fork, r, crc);
    TablesStoreNext(tables, TableOf(spec, EncodeAll(r).runs, |fork| + |EncodeAll(r).fork|, crc, r.chunkBytes), source, fork,
                    EncodeAll(r).fork, r.chunkBytes, r.zlib, r.deflate);
  }

  lemma NoTablesHold(source: seq<byte>, step: CrcStep, start: Crc, inflate: seq<byte> -> seq<byte>)
    ensures TablesHold([], source, [], 0, step, start, inflate)
    ensures start == Update(step, start, AllNonZero([], [], inflate))
  {
  }

  /** Accepted specs lie inside the source, one after another. */
  lemma SpecsFit(regions: seq<nat>, specs: seq<BlkxSpec>, totalSectors: nat)
    requires Covered(regions) < U64
    requires RegionsAccepted(regions, totalSectors) && specs == SpecsFor(regions, totalSectors)
    ensures SpecsTile(specs, totalSectors)
    ensures forall i :: 0 <= i < |specs| ==> specs[i].firstSector + specs[i].sectors <= totalSectors
  {
    if regions != [] {
      AcceptedSpecsTile(regions, specs, totalSectors);
    }
    TiledSpecsFit(specs, totalSectors, |specs| - 1);
  }

  lemma {:induction false} TiledSpecsFit(specs: seq<BlkxSpec>, totalSectors: nat, k: nat)
    requires SpecsTile(specs, totalSectors) && k < |specs|
    requires specs[k].firstSector + specs[k].sectors <= totalSectors
    ensures forall i :: 0 <= i <= k ==> specs[i].firstSector + specs[i].sectors <= totalSectors
  {
    if k > 0 {
      TiledSpecsFit(specs, totalSectors, k - 1);
    }
  }
}
