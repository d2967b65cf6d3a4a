/** `WriteVolume`: pack twice, plan in between, pad, and write everything out of
    order into one image. */
module VolumeWriter {
  import opened Bytes
  import opened Wrappers
  import opened Allocation
  import opened Geometry
  import opened BTree
  import opened Catalog
  import opened Attributes
  import opened Layout
  import opened VolumeHeader
  import opened Image
  import opened Volume

  datatype UserFileInput = UserFileInput(entry: Entry, size: u64, source: Source)

  datatype SpecialFile = CatalogFork | ExtentsFork | AttributesFork

  datatype VolumeError =
    | ZeroMacTime
    | CatalogFailed(catalog: CatalogError)
    | AttributesFailed(attrs: AttrError)
    | PlanFailed(plan: PlanError)
    | PadFailed(tree: SpecialFile)
    | BitmapTooLarge
    | WriteFailedAt(at: int)
    | FileFailed(cnid: u32, stream: StreamError)

  // ----- writing the parts

  /** The bytes the image gets for file `i`: none if it was given no block. */
  function ContentOf(f: UserFileInput, blocks: nat): seq<byte> {
    if blocks == 0 || f.source.NoFile? then [] else f.source.data
  }

  function ContentsOf(files: seq<UserFileInput>, counts: seq<nat>): (c: seq<seq<byte>>)
    requires |counts| == |files|
    ensures |c| == |files| && forall i :: 0 <= i < |files| ==> c[i] == ContentOf(files[i], counts[i])
  {
    seq(|files|, i requires 0 <= i < |files| => ContentOf(files[i], counts[i]))
  }

  /** The source opens, has the planned length and ends cleanly. */
  predicate Matches(f: UserFileInput) {
    f.source.Opened? && |f.source.data| == f.size && f.source.end == Eof
  }

  ghost predicate FilesMatch(files: seq<UserFileInput>, counts: seq<nat>) {
    |counts| == |files| && forall i :: 0 <= i < |files| && counts[i] > 0 ==> Matches(files[i])
  }

  /** A write failed, or a file did not match its plan. */
  predicate DestinationError(failed: Option<VolumeError>) {
    failed.None? || failed.value.WriteFailedAt? || failed.value.FileFailed?
  }

  /** The destination so far: the first writes of the list have been made. */
  ghost predicate Reached(buf: seq<byte>, before: seq<byte>, m: Map, p: Parts, n: nat) {
    && |p.contents| == |m.counts| && n <= 5 + |m.counts| && SizeOf(m) >= 1024
    && buf == ApplyAll(before, Writes(m, p, n))
  }

  lemma ReachedNext(buf: seq<byte>, before: seq<byte>, m: Map, p: Parts, n: nat, w: Write)
    requires Reached(buf, before, m, p, n) && n < 5 + |m.counts| && w == RegionWrite(m, p, n)
    ensures Reached(WrittenAt(buf, w.at, w.bytes), before, m, p, n + 1)
  {
    ApplyNext(before, Writes(m, p, n), w);
    hide ApplyAll, RegionWrite;
  }

  lemma ReachedFirst(before: seq<byte>, m: Map, p: Parts)
    requires |p.contents| == |m.counts| && SizeOf(m) >= 1024
    ensures Reached(WrittenAt(before, SizeOf(m) - 1, [0]), before, m, p, 0)
  {
    var w := Write(SizeOf(m) - 1, [0]);
    assert Writes(m, p, 0) == [w];
    hide ApplyAll, WrittenAt, Writes;
    ApplyOne(before, w);
  }

  /** The plan, its map and the parts belong together. */
  ghost predicate PartsReady(plan: Plan, m: Map, p: Parts)
    reads plan.bitmap.bytes
  {
    && m.Planned() && m.total <= U32_LIMIT - 8 && PlanIs(plan, m) && |p.contents| == |m.counts|
    && plan.bitmap.bytes.Length == (m.total + 7) / 8 && p.bitmap == plan.bitmap.bytes[..]
  }

  lemma SizeIs(plan: Plan, m: Map, p: Parts)
    requires PartsReady(plan, m, p)
    ensures |p.contents| == |m.counts| && plan.totalBlocks * plan.blockSize == SizeOf(m) >= 1024
    ensures RegionWrite(m, p, 0) == Write(HEADER_AT, p.header)
  {
    VolumeIsLarge(m);
    hide SumOf, LeastFixedPoint, PowerOfTwo, PlacedFrom;
  }

  lemma RegionsAre(plan: Plan, m: Map, p: Parts)
    requires PartsReady(plan, m, p)
    ensures |p.contents| == |m.counts|
    ensures RegionWrite(m, p, 1) == Write(plan.allocStart * plan.blockSize, p.bitmap)
    ensures RegionWrite(m, p, 2) == Write(plan.catalogStart * plan.blockSize, p.catalog)
    ensures RegionWrite(m, p, 3) == Write(plan.extentsStart * plan.blockSize, p.extents)
    ensures RegionWrite(m, p, 4) == Write(plan.attributesStart * plan.blockSize, p.attrs)
  {
    hide SumOf, LeastFixedPoint, PowerOfTwo, PlacedFrom;
  }

  lemma BitmapIsSmall(plan: Plan, m: Map, p: Parts)
    requires PartsReady(plan, m, p)
    ensures |p.bitmap| <= plan.allocFile.totalBlocks * plan.blockSize
    ensures p.bitmap == plan.bitmap.bytes[..]
  {
    BitmapFits(m);
    hide SumOf, LeastFixedPoint, PowerOfTwo, PlacedFrom;
  }

  /** Header and trees fit their regions, and so does every file as planned. */
  ghost predicate SizesFit(m: Map, header: seq<byte>, catalog: seq<byte>, extents: seq<byte>, attrs: seq<byte>,
                           files: seq<UserFileInput>)
  {
    && |header| == HEADER_SIZE && |catalog| <= m.catalog * m.blockSize && |extents| <= m.extents * m.blockSize
    && |attrs| <= m.attrs * m.blockSize
    && |files| == |m.counts| && forall i :: 0 <= i < |files| ==> files[i].size <= m.counts[i] * m.blockSize
  }

  /** The destination takes the whole volume and every file is what was planned. */
  ghost predicate Writable(capacity: nat, m: Map, files: seq<UserFileInput>) {
    SizeOf(m) <= capacity && FilesMatch(files, m.counts)
  }

  /** Behind the boot block, what fits its region ends inside the volume. */
  lemma EndsInside(m: Map, k: nat, n: nat)
    requires m.Planned() && 1 <= k < 5 + |m.counts| && n <= m.Lengths()[k] * m.blockSize
    ensures m.Start(k) * m.blockSize + n <= SizeOf(m)
  {
    EndInside(m);
    SumStep(m.Lengths(), k);
    SumMonotone(m.Lengths(), k + 1, 5 + |m.counts|);
    hide SumOf, LeastFixedPoint, PowerOfTwo;
    assert m.Start(k) + m.Lengths()[k] <= m.total;
    RunInside(m.Start(k), m.Lengths()[k], m.total, m.blockSize, n);
  }

  lemma RunInside(start: nat, len: nat, total: nat, blockSize: nat, n: nat)
    requires start + len <= total && n <= len * blockSize
    ensures start * blockSize + n <= total * blockSize
  {
    assert total * blockSize == start * blockSize + len * blockSize + (total - start - len) * blockSize;
  }

  lemma HeaderInside(m: Map)
    requires m.Planned()
    ensures HEADER_AT + HEADER_SIZE <= SizeOf(m)
  {
    hide LeastFixedPoint, PowerOfTwo;
    Scaled(6, m.total, m.blockSize);
  }

  lemma FixedInside(plan: Plan, m: Map, p: Parts, files: seq<UserFileInput>)
    requires PartsReady(plan, m, p) && SizesFit(m, p.header, p.catalog, p.extents, p.attrs, files)
    ensures HEADER_AT + |p.header| <= SizeOf(m) && plan.allocStart * plan.blockSize + |p.bitmap| <= SizeOf(m)
    ensures plan.catalogStart * plan.blockSize + |p.catalog| <= SizeOf(m)
    ensures plan.extentsStart * plan.blockSize + |p.extents| <= SizeOf(m)
    ensures plan.attributesStart * plan.blockSize + |p.attrs| <= SizeOf(m)
  {
    BitmapFits(m);
    HeaderInside(m);
    hide SumOf, LeastFixedPoint, PowerOfTwo, PlacedFrom;
    EndsInside(m, 1, |p.bitmap|);
    EndsInside(m, 2, |p.catalog|);
    EndsInside(m, 3, |p.extents|);
    EndsInside(m, 4, |p.attrs|);
  }

  lemma FileInside(plan: Plan, m: Map, p: Parts, files: seq<UserFileInput>, i: nat)
    requires PartsReady(plan, m, p) && SizesFit(m, p.header, p.catalog, p.extents, p.attrs, files) && i < |files|
    ensures m.counts[i] > 0 ==> plan.placements[i].start * plan.blockSize + files[i].size <= SizeOf(m)
  {
    FileRun(plan.placements, m, i);
    EndsInside(m, 5 + i, files[i].size);
    hide SumOf, LeastFixedPoint, PowerOfTwo, PlacedFrom;
  }

  /** Header, bitmap and trees. */
  method WriteFixed(out: Image, plan: Plan, header: seq<byte>, catalog: seq<byte>, extents: seq<byte>, attrs: seq<byte>,
                    ghost m: Map, ghost p: Parts, ghost files: seq<UserFileInput>)
    returns (failed: Option<VolumeError>)
    requires PartsReady(plan, m, p) && SizesFit(m, header, catalog, extents, attrs, files)
    requires p.header == header && p.catalog == catalog && p.extents == extents && p.attrs == attrs
    modifies out
    ensures failed.None? ==> Reached(out.buf, old(out.buf), m, p, 5)
    ensures failed.None? <==> SizeOf(m) <= out.capacity
    ensures DestinationError(failed)
  {
    hide PartsReady, SizesFit, WrittenAt, ApplyAll, Reached, RegionWrite;
    FixedInside(plan, m, p, files);
    SizeIs(plan, m, p);
    ghost var before := out.buf;
    var volumeSize := plan.totalBlocks * plan.blockSize;
    ReachedFirst(before, m, p);
    var ok := WriteAt(out, volumeSize - 1, [0]);
    if !ok {
      return Some(WriteFailedAt(volumeSize - 1));
    }
    ReachedNext(out.buf, before, m, p, 0, RegionWrite(m, p, 0));
    ok := WriteAt(out, HEADER_AT, header);
    if !ok {
      return Some(WriteFailedAt(HEADER_AT));
    }
    failed := WriteForks(out, plan, catalog, extents, attrs, m, p, before, files);
  }

  /** The bitmap is checked against its fork first. */
  method WriteForks(out: Image, plan: Plan, catalog: seq<byte>, extents: seq<byte>, attrs: seq<byte>,
                    ghost m: Map, ghost p: Parts, ghost before: seq<byte>, ghost files: seq<UserFileInput>)
    returns (failed: Option<VolumeError>)
    requires PartsReady(plan, m, p) && p.catalog == catalog && p.extents == extents && p.attrs == attrs
    requires SizesFit(m, p.header, catalog, extents, attrs, files)
    requires Reached(out.buf, before, m, p, 1)
    modifies out
    ensures failed.None? ==> Reached(out.buf, before, m, p, 5)
    ensures SizeOf(m) <= out.capacity ==> failed.None?
    ensures DestinationError(failed)
  {
    hide PartsReady, SizesFit, WrittenAt, ApplyAll, Reached, RegionWrite;
    FixedInside(plan, m, p, files);
    RegionsAre(plan, m, p);
    BitmapIsSmall(plan, m, p);
    var bitmap := plan.bitmap.bytes[..];
    if |bitmap| > plan.allocFile.totalBlocks * plan.blockSize {
      return Some(BitmapTooLarge);
    }
    failed := WriteRegion(out, plan.allocStart * plan.blockSize, bitmap, m, p, before, 1);
    if failed.Some? {
      return;
    }
    failed := WriteRegion(out, plan.catalogStart * plan.blockSize, catalog, m, p, before, 2);
    if failed.Some? {
      return;
    }
    failed := WriteRegion(out, plan.extentsStart * plan.blockSize, extents, m, p, before, 3);
    if failed.Some? {
      return;
    }
    failed := WriteRegion(out, plan.attributesStart * plan.blockSize, attrs, m, p, before, 4);
  }

  method WriteRegion(out: Image, at: nat, bytes: seq<byte>, ghost m: Map, ghost p: Parts, ghost before: seq<byte>,
                     ghost k: nat)
    returns (failed: Option<VolumeError>)
    requires k < 5 + |m.counts| && |p.contents| == |m.counts| && RegionWrite(m, p, k) == Write(at, bytes)
    requires Reached(out.buf, before, m, p, k)
    modifies out
    ensures failed.None? ==> Reached(out.buf, before, m, p, k + 1)
    ensures at + |bytes| <= out.capacity ==> failed.None?
    ensures DestinationError(failed)
  {
    hide WrittenAt, ApplyAll, Reached, RegionWrite;
    ReachedNext(out.buf, before, m, p, k, RegionWrite(m, p, k));
    var ok := WriteAt(out, at, bytes);
    return if ok then None else Some(WriteFailedAt(at));
  }

  // ----- the files

  lemma FileRegion(plan: Plan, m: Map, p: Parts, files: seq<UserFileInput>, i: nat)
    requires PartsReady(plan, m, p) && |files| == |m.counts| && p.contents == ContentsOf(files, m.counts) && i < |files|
    ensures |plan.placements| == |files| && plan.placements[i].blocks == m.counts[i]
    ensures RegionWrite(m, p, 5 + i).bytes == ContentOf(files[i], m.counts[i])
    ensures m.counts[i] > 0 ==> RegionWrite(m, p, 5 + i).at == plan.placements[i].start * plan.blockSize
  {
    FileRun(plan.placements, m, i);
    hide SumOf, LeastFixedPoint, PowerOfTwo, PlacedFrom;
  }

  /** File `i` is streamed to its extent, or skipped if it has none. */
  method WriteFile(out: Image, plan: Plan, files: seq<UserFileInput>, i: nat, ghost m: Map, ghost p: Parts,
                   ghost before: seq<byte>)
    returns (failed: Option<VolumeError>)
    requires PartsReady(plan, m, p) && |files| == |m.counts| && p.contents == ContentsOf(files, m.counts) && i < |files|
    requires Reached(out.buf, before, m, p, 5 + i) && SizesFit(m, p.header, p.catalog, p.extents, p.attrs, files)
    modifies out
    ensures failed.None? ==> Reached(out.buf, before, m, p, 5 + i + 1) && (m.counts[i] > 0 ==> Matches(files[i]))
    ensures failed.Some? ==> failed.value.FileFailed? && m.counts[i] > 0
    ensures failed.Some? ==> SizeOf(m) > out.capacity || !Matches(files[i])
  {
    FileRegion(plan, m, p, files, i);
    FileInside(plan, m, p, files, i);
    hide PartsReady, SizesFit, WrittenAt, ApplyAll, Reached, RegionWrite, ContentsOf;
    ReachedNext(out.buf, before, m, p, 5 + i, RegionWrite(m, p, 5 + i));
    if plan.placements[i].blocks == 0 {
      WrittenNothing(out.buf, RegionWrite(m, p, 5 + i).at);
      return None;
    }
    var error := StreamFileAt(out, plan.placements[i].start * plan.blockSize, files[i].source, files[i].size);
    if error != [] {
      return Some(FileFailed(files[i].entry.cnid, error[0]));
    }
    return None;
  }

  method WriteFiles(out: Image, plan: Plan, files: seq<UserFileInput>, ghost m: Map, ghost p: Parts,
                    ghost before: seq<byte>)
    returns (failed: Option<VolumeError>)
    requires PartsReady(plan, m, p) && |files| == |m.counts| && p.contents == ContentsOf(files, m.counts)
    requires Reached(out.buf, before, m, p, 5) && SizesFit(m, p.header, p.catalog, p.extents, p.attrs, files)
    modifies out
    ensures failed.None? ==> Reached(out.buf, before, m, p, 5 + |files|)
    ensures failed.None? ==> FilesMatch(files, m.counts)
    ensures failed.Some? ==> !Writable(out.capacity, m, files)
    ensures DestinationError(failed)
  {
    hide PartsReady, SizesFit, Reached, Matches, ContentsOf;
    for i := 0 to |files|
      invariant Reached(out.buf, before, m, p, 5 + i)
      invariant forall j :: 0 <= j < i && m.counts[j] > 0 ==> Matches(files[j])
    {
      failed := WriteFile(out, plan, files, i, m, p, before);
      if failed.Some? {
        return;
      }
    }
    failed := None;
  }

  /** The whole list of writes has been made. */
  ghost predicate Completed(buf: seq<byte>, before: seq<byte>, m: Map, p: Parts) {
    |p.contents| == |m.counts| && SizeOf(m) >= 1024 && buf == ApplyAll(before, AllWrites(m, p))
  }

  lemma ReachedAll(buf: seq<byte>, before: seq<byte>, m: Map, p: Parts)
    requires Reached(buf, before, m, p, 5 + |m.counts|)
    ensures SizeOf(m) >= 1024 && Completed(WrittenAt(buf, SizeOf(m) - 1024, p.header), before, m, p)
  {
    ApplyNext(before, Writes(m, p, 5 + |m.counts|), AlternateWrite(m, p));
    hide ApplyAll, WrittenAt;
  }

  /** All writes, the alternate header last. */
  method WriteAll(out: Image, plan: Plan, header: seq<byte>, catalog: seq<byte>, extents: seq<byte>, attrs: seq<byte>,
                  files: seq<UserFileInput>, ghost m: Map, ghost p: Parts)
    returns (failed: Option<VolumeError>)
    requires PartsReady(plan, m, p) && |files| == |m.counts| && p.contents == ContentsOf(files, m.counts)
    requires p.header == header && p.catalog == catalog && p.extents == extents && p.attrs == attrs
    requires SizesFit(m, header, catalog, extents, attrs, files)
    modifies out
    ensures failed.None? ==> Completed(out.buf, old(out.buf), m, p) && FilesMatch(files, m.counts)
    ensures failed.None? <==> Writable(out.capacity, m, files)
    ensures DestinationError(failed)
  {
    assert |header| == HEADER_SIZE;
    hide SizesFit, PartsReady, WrittenAt, ApplyAll, FilesMatch, RegionWrite, Reached, Completed, ContentsOf, SizeOf,
         DestinationError;
    SizeIs(plan, m, p);
    ghost var before := out.buf;
    failed := WriteFixed(out, plan, header, catalog, extents, attrs, m, p, files);
    if failed.None? {
      failed := WriteFiles(out, plan, files, m, p, before);
    }
    if failed.None? {
      ReachedAll(out.buf, before, m, p);
      failed := WriteAlternate(out, plan.totalBlocks * plan.blockSize, header);
    }
  }

  method WriteAlternate(out: Image, volumeSize: nat, header: seq<byte>) returns (failed: Option<VolumeError>)
    requires volumeSize >= 1024
    modifies out
    ensures failed.None? ==> out.buf == WrittenAt(old(out.buf), volumeSize - 1024, header)
    ensures |header| == HEADER_SIZE && volumeSize <= out.capacity ==> failed.None?
    ensures DestinationError(failed)
  {
    hide WrittenAt;
    var ok := WriteAt(out, volumeSize - 1024, header);
    return if ok then None else Some(WriteFailedAt(volumeSize - 1024));
  }
}
