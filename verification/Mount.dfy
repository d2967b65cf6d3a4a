/** A reader of volume images that starts from nothing but the bytes: volume
    header, catalog fork, B-tree search, file record, extent. It finds every file
    the writer was given. */
module Mount {
  import opened Bytes
  import opened Bits
  import opened Wrappers
  import opened Unicode
  import opened Allocation
  import opened Geometry
  import opened Tower
  import opened NodeMap
  import opened TreeReader
  import opened BTree
  import opened TreeShape
  import opened Keys
  import opened Catalog
  import opened CatalogTheorems
  import opened Attributes
  import opened Layout
  import opened VolumeHeader
  import opened Image
  import opened Volume
  import opened VolumeWriter
  import opened ForkTree
  import opened VolumeBuilder

  // ----- the reader

  function Stretch(img: seq<byte>, at: nat, n: nat): Option<seq<byte>> {
    if at + n <= |img| then Some(img[at..at + n]) else None
  }

  /** `n` blocks in bytes. */
  function Blocks(n: nat, blockSize: nat): nat { n * blockSize }

  /** The fork a 512-byte header describes at `at`: its blocks as one stretch. */
  function ReadFork(img: seq<byte>, header: seq<byte>, at: nat): Option<seq<byte>>
    requires |header| == HEADER_SIZE && at + 80 <= HEADER_SIZE
  {
    var blockSize := Get32(header, 40);
    Stretch(img, Blocks(Get32(header, at + 16), blockSize), Blocks(Get32(header, at + 12), blockSize))
  }

  /** The record of a name in a folder, by way of header and catalog. */
  function ReadRecordOf(img: seq<byte>, parent: nat, name: Name): Option<seq<byte>> {
    match Stretch(img, HEADER_AT, HEADER_SIZE)
    case None => None
    case Some(header) =>
      match ReadFork(img, header, 272)
      case None => None
      case Some(tree) => if |tree| < MIN_NODE_SIZE then None else FindRecord(tree, NodeSizeField(tree), parent, name)
  }

  /** The data fork a file record describes. */
  function ReadData(img: seq<byte>, rec: seq<byte>): Option<seq<byte>> {
    match Stretch(img, HEADER_AT, HEADER_SIZE)
    case None => None
    case Some(header) =>
      if |rec| != 248 || Get16(rec, 0) != FILE_RECORD then None
      else Stretch(img, Blocks(Get32(rec, 104), Get32(header, 40)), Get64(rec, 88))
  }

  /** A file's bytes. */
  function ReadFile(img: seq<byte>, parent: nat, name: Name): Option<seq<byte>> {
    match ReadRecordOf(img, parent, name)
    case None => None
    case Some(rec) => ReadData(img, rec)
  }

  // ----- the image under it

  /** What the lemmas below are about: a volume image with blocks of 2048 or more. */
  ghost predicate Mounted(img: seq<byte>, v: Assembled, vs: seq<EntryView>, attrs: seq<Attr>, nfd: Normalizer,
                          files: seq<UserFileInput>)
  {
    && IsVolume(v, vs, attrs, nfd, files) && v.layout.blockSize >= LEAST_SAFE_BLOCK
    && Completed(img, [], v.layout, v.parts)
  }

  /** The image holds every part. */
  lemma MountedHolds(img: seq<byte>, v: Assembled, vs: seq<EntryView>, attrs: seq<Attr>, nfd: Normalizer,
                     files: seq<UserFileInput>)
    requires Mounted(img, v, vs, attrs, nfd, files)
    ensures |v.parts.contents| == |v.layout.counts| && SizeOf(v.layout) >= 1024 && VolumeHolds(img, v.layout, v.parts)
    ensures v.layout.blockSize < U32_LIMIT
  {
    VolumeFits(v, vs, attrs, nfd, files);
    hide IsVolume, ApplyAll, AllWrites, VolumeHolds, LeastFixedPoint, PowerOfTwo, SumOf;
    VolumeIntact(v.layout, v.parts);
  }

  lemma HeldStretch(img: seq<byte>, v: Assembled, k: nat)
    requires |v.parts.contents| == |v.layout.counts| && SizeOf(v.layout) >= 1024 && VolumeHolds(img, v.layout, v.parts)
    requires k < 5 + |v.layout.counts|
    ensures var w := RegionWrite(v.layout, v.parts, k); Stretch(img, w.at, |w.bytes|) == Some(w.bytes)
  {
    hide Spoken, RegionWrite;
    assert Holds(img, RegionWrite(v.layout, v.parts, k));
  }

  /** The header is found where every reader looks, and says what the map says. */
  lemma HeaderFound(img: seq<byte>, v: Assembled, vs: seq<EntryView>, attrs: seq<Attr>, nfd: Normalizer,
                    files: seq<UserFileInput>)
    requires Mounted(img, v, vs, attrs, nfd, files)
    ensures Stretch(img, HEADER_AT, HEADER_SIZE) == Some(Encode(v.header))
    ensures HeaderReadsAs(Encode(v.header), v.header) && Describes(v.header, v.layout)
    ensures HeaderSigned(Encode(v.header), v.header)
  {
    MountedHolds(img, v, vs, attrs, nfd, files);
    EncodedHeaderReads(v.header);
    EncodedHeaderSigned(v.header);
    hide HeaderSigned, HeaderReadsAs, Mounted, VolumeHolds, CatalogFills, Fills, Describes, MarksPlan, FilesMatch,
         ContentsOf, HoldsAttrRecords, Encode, Stretch,
         Completed;
    assert IsVolume(v, vs, attrs, nfd, files);
    HeldStretch(img, v, 0);
  }

  // ----- forks and trees

  /** The catalog fork of the header is the catalog. */
  lemma CatalogForkFound(img: seq<byte>, v: Assembled, vs: seq<EntryView>, attrs: seq<Attr>, nfd: Normalizer,
                         files: seq<UserFileInput>)
    requires Mounted(img, v, vs, attrs, nfd, files)
    ensures ReadFork(img, Encode(v.header), 272) == Some(v.parts.catalog)
  {
    hide Mounted, IsVolume, VolumeHolds, Encode, Stretch, Get32, Get64, Get16, LeastFixedPoint, PowerOfTwo, SumOf;
    MountedIs(img, v, vs, attrs, nfd, files);
    MountedHolds(img, v, vs, attrs, nfd, files);
    HeaderFound(img, v, vs, attrs, nfd, files);
    FillSize(v, vs, attrs, nfd, files);
    HeldStretch(img, v, 2);
  }

  /** And the attributes fork the attributes. */
  lemma AttributesForkFound(img: seq<byte>, v: Assembled, vs: seq<EntryView>, attrs: seq<Attr>, nfd: Normalizer,
                            files: seq<UserFileInput>)
    requires Mounted(img, v, vs, attrs, nfd, files)
    ensures ReadFork(img, Encode(v.header), 352) == Some(v.parts.attrs)
  {
    hide Mounted, IsVolume, VolumeHolds, Encode, Stretch, Get32, Get64, Get16, LeastFixedPoint, PowerOfTwo, SumOf;
    MountedIs(img, v, vs, attrs, nfd, files);
    MountedHolds(img, v, vs, attrs, nfd, files);
    HeaderFound(img, v, vs, attrs, nfd, files);
    FillSize(v, vs, attrs, nfd, files);
    HeldStretch(img, v, 4);
  }

  /** A fork that holds a tree names its node size. */
  lemma NodeSizeFound(img: seq<byte>, opts: BuildOpts, p: Packed, size: nat, total: nat)
    requires Fills(img, opts, p, size, total) && opts.nodeSize < 0x1_0000
    ensures |img| >= MIN_NODE_SIZE && NodeSizeField(img) == opts.nodeSize
  {
    hide ImageHolds, TreeHolds, NodeSizeField;
    NodeSizeReads(img, opts.nodeSize, HeaderOf(p, opts.nodeSize, total), p.mapNodes, PackedNodes(p));
  }

  /** Both records of an entry are found. */
  lemma EntryRecordFound(img: seq<byte>, v: Assembled, vs: seq<EntryView>, attrs: seq<Attr>, nfd: Normalizer,
                         files: seq<UserFileInput>, k: nat)
    requires Mounted(img, v, vs, attrs, nfd, files) && k < |vs| && vs[k].cnid != ROOT_PARENT
    ensures ReadRecordOf(img, vs[k].parent, vs[k].name) == Some(ForwardRecord(vs[k]))
    ensures ReadRecordOf(img, vs[k].cnid, []) == Some(ThreadRecord(vs[k]))
  {
    HeaderFound(img, v, vs, attrs, nfd, files);
    CatalogForkFound(img, v, vs, attrs, nfd, files);
    CatalogEntryFound(v, vs, attrs, nfd, files, k);
    hide Mounted, Encode, Stretch, FindRecord, ForwardRecord, ThreadRecord, ReadFork, NodeSizeField;
  }

  lemma CatalogEntryFound(v: Assembled, vs: seq<EntryView>, attrs: seq<Attr>, nfd: Normalizer,
                          files: seq<UserFileInput>, k: nat)
    requires IsVolume(v, vs, attrs, nfd, files) && k < |vs| && vs[k].cnid != ROOT_PARENT
    ensures |v.parts.catalog| >= MIN_NODE_SIZE && NodeSizeField(v.parts.catalog) == CATALOG_NODE
    ensures FindRecord(v.parts.catalog, CATALOG_NODE, vs[k].parent, vs[k].name) == Some(ForwardRecord(vs[k]))
    ensures FindRecord(v.parts.catalog, CATALOG_NODE, vs[k].cnid, []) == Some(ThreadRecord(vs[k]))
  {
    var p, tree, total := v.catalog, v.parts.catalog, v.catalogNodes;
    assert CatalogFills(tree, vs, p, v.layout.catalog * v.layout.blockSize, total);
    hide IsVolume, Fills, Sorted, CatalogRecords, FindRecord, ForwardRecord, ThreadRecord, NodeSizeField;
    NodeSizeFound(tree, CatalogOpts(CATALOG_NODE), p, v.layout.catalog * v.layout.blockSize, total);
    NotEmpty(vs, p, k);
    FillsTree(tree, CatalogOpts(CATALOG_NODE), p, v.layout.catalog * v.layout.blockSize, total);
    hide TreeHolds;
    EntryFound(tree, CATALOG_NODE, vs, p, HeaderOf(p, CATALOG_NODE, total), k);
  }

  lemma FillsTree(img: seq<byte>, opts: BuildOpts, p: Packed, size: nat, total: nat)
    requires Fills(img, opts, p, size, total) && p.records != []
    ensures TreeHolds(img, opts.nodeSize, p.records, p.levels, p.mapNodes, HeaderOf(p, opts.nodeSize, total))
    ensures HeaderOf(p, opts.nodeSize, total).totalNodes == total < U32_LIMIT
  {
    hide ImageHolds, TreeHolds;
  }

  lemma NotEmpty(vs: seq<EntryView>, p: Packed, k: nat)
    requires multiset(p.records) == multiset(CatalogRecords(vs)) && k < |vs| && vs[k].cnid != ROOT_PARENT
    ensures p.records != []
  {
    EntryHasRecords(vs, k);
    SameCount(p.records, CatalogRecords(vs));
    hide CatalogRecords;
  }

  // ----- files

  /** A file's entry as the writer left it: its size, and the extent the map gave it. */
  ghost predicate EntryOf(e: EntryView, f: UserFileInput, m: Map, i: nat)
    requires i < |m.counts|
  {
    && e.cnid != ROOT_PARENT && (e.kind.File? || e.kind.Symlink?)
    && e.size == f.size && e.blocks == m.counts[i]
    && e.extent.start == (if m.counts[i] == 0 then 0 else m.FileStart(i)) && e.extent.count == m.counts[i]
  }

  /** The extent of a file holds its bytes, all of them and no more. */
  lemma DataFound(img: seq<byte>, v: Assembled, vs: seq<EntryView>, attrs: seq<Attr>, nfd: Normalizer,
                  files: seq<UserFileInput>, i: nat, e: EntryView)
    requires Mounted(img, v, vs, attrs, nfd, files) && i < |files| == |v.layout.counts| && EntryOf(e, files[i], v.layout, i)
    ensures ReadData(img, FileRecord(e)) == Some(ContentOf(files[i], v.layout.counts[i]))
  {
    hide Mounted, IsVolume, VolumeHolds, Encode, Get32, Get64, Get16, LeastFixedPoint, PowerOfTwo, SumOf, FileRecord,
         ContentOf, Stretch, Describes;
    ReadDataIs(img, v, vs, attrs, nfd, files, e);
    if v.layout.counts[i] == 0 {
      NothingPlaced(img, v, vs, attrs, nfd, files, i);
    } else {
      ContentPlaced(img, v, vs, attrs, nfd, files, i, e.extent.start);
    }
  }

  /** Reading a file record's fork is reading the stretch its fields name. */
  lemma ReadDataIs(img: seq<byte>, v: Assembled, vs: seq<EntryView>, attrs: seq<Attr>, nfd: Normalizer,
                   files: seq<UserFileInput>, e: EntryView)
    requires Mounted(img, v, vs, attrs, nfd, files)
    ensures ReadData(img, FileRecord(e)) == Stretch(img, Blocks(e.extent.start, v.layout.blockSize), e.size)
  {
    HeaderFound(img, v, vs, attrs, nfd, files);
    FileRecordReads(e);
    hide Mounted, Encode, Get32, Get64, Get16, LeastFixedPoint, PowerOfTwo, SumOf, FileRecord, Stretch, Blocks;
  }

  /** A file that has blocks lies at its start. */
  lemma ContentPlaced(img: seq<byte>, v: Assembled, vs: seq<EntryView>, attrs: seq<Attr>, nfd: Normalizer,
                      files: seq<UserFileInput>, i: nat, start: nat)
    requires Mounted(img, v, vs, attrs, nfd, files) && i < |files| == |v.layout.counts| && v.layout.counts[i] > 0
    requires start == v.layout.FileStart(i)
    ensures Stretch(img, Blocks(start, v.layout.blockSize), files[i].size) == Some(ContentOf(files[i], v.layout.counts[i]))
  {
    hide Mounted, IsVolume, VolumeHolds, LeastFixedPoint, PowerOfTwo, SumOf, ContentOf, Stretch;
    MountedIs(img, v, vs, attrs, nfd, files);
    MountedHolds(img, v, vs, attrs, nfd, files);
    ContentFits(v, vs, attrs, nfd, files, i);
    SizeOfEmpty(v, vs, attrs, nfd, files, i);
    FileHeld(img, v, i);
  }

  /** One that has none is empty. */
  lemma NothingPlaced(img: seq<byte>, v: Assembled, vs: seq<EntryView>, attrs: seq<Attr>, nfd: Normalizer,
                      files: seq<UserFileInput>, i: nat)
    requires Mounted(img, v, vs, attrs, nfd, files) && i < |files| == |v.layout.counts| && v.layout.counts[i] == 0
    ensures Stretch(img, Blocks(0, v.layout.blockSize), files[i].size) == Some(ContentOf(files[i], 0))
  {
    hide Mounted, IsVolume;
    MountedIs(img, v, vs, attrs, nfd, files);
    SizeOfEmpty(v, vs, attrs, nfd, files, i);
    assert img[0..0] == [];
  }

  lemma MountedIs(img: seq<byte>, v: Assembled, vs: seq<EntryView>, attrs: seq<Attr>, nfd: Normalizer,
                  files: seq<UserFileInput>)
    requires Mounted(img, v, vs, attrs, nfd, files)
    ensures IsVolume(v, vs, attrs, nfd, files)
  {
    hide IsVolume, Completed;
  }

  lemma FileHeld(img: seq<byte>, v: Assembled, i: nat)
    requires |v.parts.contents| == |v.layout.counts| && SizeOf(v.layout) >= 1024 && VolumeHolds(img, v.layout, v.parts)
    requires i < |v.layout.counts|
    ensures Stretch(img, Blocks(v.layout.FileStart(i), v.layout.blockSize), |v.parts.contents[i]|) == Some(v.parts.contents[i])
  {
    hide VolumeHolds, SumOf, Stretch;
    HeldStretch(img, v, 5 + i);
  }

  lemma SizeOfEmpty(v: Assembled, vs: seq<EntryView>, attrs: seq<Attr>, nfd: Normalizer, files: seq<UserFileInput>, i: nat)
    requires IsVolume(v, vs, attrs, nfd, files) && i < |files|
    ensures |v.layout.counts| == |files| == |v.parts.contents| && (v.layout.counts[i] == 0 ==> files[i].size == 0)
    ensures v.parts.contents[i] == ContentOf(files[i], v.layout.counts[i])
  {
    hide CatalogFills, Fills, MarksPlan, HoldsAttrRecords, Encode, Ceil, FilesMatch;
    assert v.layout.counts[i] == Ceil(files[i].size, v.layout.blockSize);
    assert IsCeil(files[i].size, v.layout.blockSize, Ceil(files[i].size, v.layout.blockSize));
    hide Describes;
  }

  /** End to end: a reader that knows only the bytes gets every file back under its
      parent and name. */
  lemma FileReadsBack(img: seq<byte>, v: Assembled, vs: seq<EntryView>, attrs: seq<Attr>, nfd: Normalizer,
                      files: seq<UserFileInput>, i: nat, k: nat)
    requires Mounted(img, v, vs, attrs, nfd, files)
    requires k < |vs| && i < |files| == |v.layout.counts| && EntryOf(vs[k], files[i], v.layout, i)
    ensures ReadFile(img, vs[k].parent, vs[k].name) == Some(ContentOf(files[i], v.layout.counts[i]))
    ensures |ContentOf(files[i], v.layout.counts[i])| == files[i].size
    ensures files[i].size > 0 ==> ContentOf(files[i], v.layout.counts[i]) == files[i].source.data
  {
    EntryRecordFound(img, v, vs, attrs, nfd, files, k);
    DataFound(img, v, vs, attrs, nfd, files, i, vs[k]);
    assert IsVolume(v, vs, attrs, nfd, files);
    ContentFits(v, vs, attrs, nfd, files, i);
    SizeOfEmpty(v, vs, attrs, nfd, files, i);
    SomeBlocks(v, files, i);
    hide Mounted, ReadRecordOf, ReadData, FileRecord, IsVolume;
  }

  lemma SomeBlocks(v: Assembled, files: seq<UserFileInput>, i: nat)
    requires |v.layout.counts| == |files| && v.layout.blockSize > 0 && v.layout.counts == CountsFor(PlannerFiles(files), v.layout.blockSize)
    requires i < |files|
    ensures files[i].size > 0 ==> v.layout.counts[i] > 0
  {
    hide Ceil;
    assert v.layout.counts[i] == Ceil(files[i].size, v.layout.blockSize);
  }

  /** The same for the entries and the image as `WriteVolume` leaves them. */
  lemma WrittenFileReadsBack(out: Image, entries: seq<Entry>, v: Assembled, attrs: seq<Attr>, nfd: Normalizer,
                             files: seq<UserFileInput>, i: nat, k: nat)
    requires IsVolume(v, Views(entries), attrs, nfd, files) && EntriesPlaced(files, v.layout)
    requires Completed(out.buf, [], v.layout, v.parts) && v.layout.blockSize >= LEAST_SAFE_BLOCK
    requires i < |files| && k < |entries| && entries[k] == files[i].entry && LastFor(PlannerFiles(files), i, |files|)
    requires entries[k].cnid != ROOT_PARENT && (entries[k].kind.File? || entries[k].kind.Symlink?)
    ensures |v.layout.counts| == |files|
    ensures ReadFile(out.buf, entries[k].parent, entries[k].name) == Some(ContentOf(files[i], v.layout.counts[i]))
    ensures |ContentOf(files[i], v.layout.counts[i])| == files[i].size
    ensures files[i].size > 0 ==> ContentOf(files[i], v.layout.counts[i]) == files[i].source.data
  {
    assert PlacedAt(files[i], v.layout, i);
    assert Mounted(out.buf, v, Views(entries), attrs, nfd, files);
    assert EntryOf(Views(entries)[k], files[i], v.layout, i);
    hide IsVolume, EntriesPlaced, Completed, Mounted, EntryOf, ReadFile, LastFor;
    FileReadsBack(out.buf, v, Views(entries), attrs, nfd, files, i, k);
  }

  // ----- the flags of a record

  /** In a build's volume the record of an entry is flagged as having attributes
      exactly if some attribute names its ID, or it came with the tag. */
  lemma FlagsFound(img: seq<byte>, v: Assembled, before: seq<EntryView>, vs: seq<EntryView>, naming: seq<Option<nat>>,
                   files: seq<UserFileInput>, attrs: seq<Attr>, blockSize: nat, macTime: u32, nfd: Normalizer, k: nat)
    requires IsBuild(img, [], v, before, vs, naming, files, attrs, blockSize, macTime, nfd)
    requires v.layout.blockSize >= LEAST_SAFE_BLOCK && k < |vs| && vs[k].cnid != 1 && !vs[k].kind.Unknown?
    ensures ReadRecordOf(img, vs[k].parent, vs[k].name).Some? && |before| == |vs|
    ensures |ReadRecordOf(img, vs[k].parent, vs[k].name).value| >= 88
    ensures Get16(ReadRecordOf(img, vs[k].parent, vs[k].name).value, 2)
         == (if vs[k].kind == Folder then 16 else 0)
          + if before[k].hasAttributes || exists j :: 0 <= j < |attrs| && attrs[j].fileID == vs[k].cnid then 4 else 0
  {
    hide IsVolume, Settled, Completed, EntriesFollow, ReadRecordOf, Get16, ForwardRecord;
    assert Mounted(img, v, vs, attrs, nfd, files);
    hide Mounted;
    TagOf(before, vs, naming, SizesOf(files), attrs, v.layout, k);
    EntryRecordFound(img, v, vs, attrs, nfd, files, k);
    ForwardFlags(vs[k]);
  }

  /** What a build makes of an entry's tag. */
  lemma TagOf(before: seq<EntryView>, vs: seq<EntryView>, naming: seq<Option<nat>>, sizes: seq<u64>, attrs: seq<Attr>, m: Map,
              k: nat)
    requires EntriesFollow(before, vs, naming, sizes, attrs, m) && k < |vs|
    ensures |before| == |vs|
    ensures vs[k].hasAttributes <==>
      before[k].hasAttributes || exists j :: 0 <= j < |attrs| && attrs[j].fileID == vs[k].cnid
  {
    assert PlannedView(Tagged(before[k], attrs), vs[k], naming[k], sizes, m);
  }

  lemma ForwardFlags(v: EntryView)
    requires !v.kind.Unknown?
    ensures |ForwardRecord(v)| >= 88
    ensures Get16(ForwardRecord(v), 2) == (if v.kind == Folder then 16 else 0) + if v.hasAttributes then 4 else 0
  {
    FileRecordReads(v);
    FolderRecordReads(v);
    hide FileRecord, FolderRecord, Get16, Get32, Get64;
  }

  // ----- attributes

  /** An attribute's value, by way of header and attributes tree. */
  function ReadAttribute(img: seq<byte>, fileID: nat, name: Name): Option<seq<byte>> {
    match Stretch(img, HEADER_AT, HEADER_SIZE)
    case None => None
    case Some(header) =>
      match ReadFork(img, header, 352)
      case None => None
      case Some(tree) =>
        if |tree| < MIN_NODE_SIZE then None
        else
          match Lookup(tree, NodeSizeField(tree), AttrKey(fileID, 0, name), AttrLess())
          case None => None
          case Some(rec) => InlineValue(rec)
  }

  lemma AttributeInTree(v: Assembled, vs: seq<EntryView>, attrs: seq<Attr>, nfd: Normalizer, files: seq<UserFileInput>, i: nat)
    requires IsVolume(v, vs, attrs, nfd, files) && i < |attrs|
    ensures |v.parts.attrs| >= MIN_NODE_SIZE && NodeSizeField(v.parts.attrs) == ATTR_NODE
    ensures Lookup(v.parts.attrs, ATTR_NODE, AttrKey(attrs[i].fileID, 0, NameOf(attrs[i], nfd)), AttrLess())
         == Some(InlineRecord(attrs[i].data))
    ensures InlineValue(InlineRecord(attrs[i].data)) == Some(attrs[i].data)
  {
    var p, tree, total, size := v.attrs, v.parts.attrs, v.attrsNodes, v.layout.attrs * v.layout.blockSize;
    assert Fills(tree, AttrOpts(), p, size, total) && HoldsAttrRecords(p, attrs, nfd);
    hide IsVolume, Fills, Sorted, AttrRecords, Lookup, AttrKey, InlineRecord, InlineValue, NodeSizeField, Accepted;
    NodeSizeFound(tree, AttrOpts(), p, size, total);
    SameCount(p.records, AttrRecords(attrs, nfd));
    FillsTree(tree, AttrOpts(), p, size, total);
    hide TreeHolds;
    AttrFound(tree, attrs, nfd, p, HeaderOf(p, ATTR_NODE, total), i);
  }

  /** Every extended attribute reads back, byte for byte. */
  lemma AttributeReadsBack(img: seq<byte>, v: Assembled, vs: seq<EntryView>, attrs: seq<Attr>, nfd: Normalizer,
                           files: seq<UserFileInput>, i: nat)
    requires Mounted(img, v, vs, attrs, nfd, files) && i < |attrs|
    ensures ReadAttribute(img, attrs[i].fileID, NameOf(attrs[i], nfd)) == Some(attrs[i].data)
  {
    hide Mounted, Encode, Stretch, Lookup, AttrKey, InlineRecord, InlineValue, ReadFork, NodeSizeField, IsVolume, Describes,
         HeaderReadsAs, NameOf;
    MountedIs(img, v, vs, attrs, nfd, files);
    HeaderFound(img, v, vs, attrs, nfd, files);
    AttributesForkFound(img, v, vs, attrs, nfd, files);
    AttributeInTree(v, vs, attrs, nfd, files, i);
  }

  // ----- the three trees

  /** What the header node of a tree says of its kind. */
  ghost predicate TreeIsOf(tree: seq<byte>, nodeSize: nat, maxKey: nat, attributes: nat) {
    && |tree| >= 512 && Get16(tree, 32) == nodeSize && Get16(tree, 34) == maxKey
    && tree[50] == 0 && tree[51] == 0xBC && Get32(tree, 52) == attributes
  }

  lemma FilledIsOf(img: seq<byte>, opts: BuildOpts, p: Packed, size: nat, total: nat)
    requires Fills(img, opts, p, size, total)
    requires opts.nodeSize < 0x1_0000 && opts.maxKeyLength < 0x1_0000 && opts.attributes < 0x1_0000_0000
    requires opts.btreeType == 0 && opts.keyCompareType == 0xBC
    ensures TreeIsOf(img, opts.nodeSize, opts.maxKeyLength, opts.attributes)
  {
    hide ImageHolds, TreeHolds, Get16, Get32;
    HeaderKind(img, opts.nodeSize, HeaderOf(p, opts.nodeSize, total), p.mapNodes, PackedNodes(p));
  }

  /** Node sizes, key limits and attributes of the three; binary comparison in all. */
  lemma TreesAreOfTheirKinds(img: seq<byte>, v: Assembled, vs: seq<EntryView>, attrs: seq<Attr>, nfd: Normalizer,
                             files: seq<UserFileInput>)
    requires Mounted(img, v, vs, attrs, nfd, files)
    ensures ReadFork(img, Encode(v.header), 272) == Some(v.parts.catalog) && TreeIsOf(v.parts.catalog, 4096, 516, 6)
    ensures ReadFork(img, Encode(v.header), 192) == Some(v.parts.extents) && TreeIsOf(v.parts.extents, 1024, 10, 2)
    ensures ReadFork(img, Encode(v.header), 352) == Some(v.parts.attrs) && TreeIsOf(v.parts.attrs, 8192, 266, 6)
  {
    CatalogForkFound(img, v, vs, attrs, nfd, files);
    ExtentsForkFound(img, v, vs, attrs, nfd, files);
    AttributesForkFound(img, v, vs, attrs, nfd, files);
    MountedIs(img, v, vs, attrs, nfd, files);
    hide Mounted, ReadFork, Encode, Fills, TreeIsOf, MarksPlan, HoldsAttrRecords, FilesMatch, ContentsOf,
         CatalogRecords, Sorted,
         CountsFor, Describes;
    FilledIsOf(v.parts.catalog, CatalogOpts(CATALOG_NODE), v.catalog, v.layout.SizeIn(v.layout.catalog), v.catalogNodes);
    FilledIsOf(v.parts.extents, ExtentsOpts(), v.extents, v.layout.SizeIn(v.layout.extents), v.extentsNodes);
    FilledIsOf(v.parts.attrs, AttrOpts(), v.attrs, v.layout.SizeIn(v.layout.attrs), v.attrsNodes);
  }

  /** The overflow fork of the header is the overflow tree. */
  lemma ExtentsForkFound(img: seq<byte>, v: Assembled, vs: seq<EntryView>, attrs: seq<Attr>, nfd: Normalizer,
                         files: seq<UserFileInput>)
    requires Mounted(img, v, vs, attrs, nfd, files)
    ensures ReadFork(img, Encode(v.header), 192) == Some(v.parts.extents)
  {
    hide Mounted, IsVolume, VolumeHolds, Encode, Stretch, Get32, Get64, Get16, LeastFixedPoint, PowerOfTwo, SumOf;
    MountedIs(img, v, vs, attrs, nfd, files);
    MountedHolds(img, v, vs, attrs, nfd, files);
    HeaderFound(img, v, vs, attrs, nfd, files);
    FillSize(v, vs, attrs, nfd, files);
    HeldStretch(img, v, 3);
  }

  /** And that tree is empty. */
  lemma NoOverflow(v: Assembled, vs: seq<EntryView>, attrs: seq<Attr>, nfd: Normalizer, files: seq<UserFileInput>)
    requires IsVolume(v, vs, attrs, nfd, files) && TreesSettled(v.layout, v.catalog, v.extents, v.attrs)
    ensures |v.parts.extents| >= 512 && TreeDepth(v.parts.extents) == 0 && RootNode(v.parts.extents) == 0
    ensures FirstLeaf(v.parts.extents) == 0 && LastLeaf(v.parts.extents) == 0 && LeafRecordsField(v.parts.extents) == 0
  {
    var p, opts, total := v.extents, ExtentsOpts(), v.extentsNodes;
    assert Fills(v.parts.extents, opts, p, v.layout.SizeIn(v.layout.extents), total);
    hide IsVolume, ImageHolds, TreeHolds, TreeDepth, RootNode, FirstLeaf, LastLeaf, LeafRecordsField;
    assert TreeSettled(opts, p, v.layout.extents, v.layout.blockSize);
    var built :| BuiltFrom(built, opts, p);
    HeaderFields(v.parts.extents, opts.nodeSize, HeaderOf(p, opts.nodeSize, total), p.mapNodes, PackedNodes(p));
    HeaderKind(v.parts.extents, opts.nodeSize, HeaderOf(p, opts.nodeSize, total), p.mapNodes, PackedNodes(p));
  }

  // ----- both headers tell the same story

  /** The clump size in each B-tree's header is the one the volume header gives its
      fork, even where both are cut to 32 bits. */
  lemma ClumpSizesAgree(v: Assembled, vs: seq<EntryView>, attrs: seq<Attr>, nfd: Normalizer, files: seq<UserFileInput>)
    requires IsVolume(v, vs, attrs, nfd, files)
    ensures |v.parts.catalog| >= MIN_NODE_SIZE && ClumpSizeField(v.parts.catalog) == v.header.catalogFile.clumpSize
    ensures |v.parts.extents| >= MIN_NODE_SIZE && ClumpSizeField(v.parts.extents) == v.header.extentsFile.clumpSize
    ensures |v.parts.attrs| >= MIN_NODE_SIZE && ClumpSizeField(v.parts.attrs) == v.header.attributesFile.clumpSize
  {
    var m := v.layout;
    hide Fills, MarksPlan, HoldsAttrRecords, Encode, FilesMatch, ContentsOf, CatalogRecords, Sorted, ClumpSizeField, CountsFor,
         TotalNodesField, FreeNodesField, WholeMap, BitAt, ClearBits, LeastFixedPoint, PowerOfTwo, SumOf;
    ForkIsCounted(v.parts.catalog, CatalogOpts(CATALOG_NODE), v.catalog, m.catalog * m.blockSize, v.catalogNodes);
    ForkIsCounted(v.parts.extents, ExtentsOpts(), v.extents, m.extents * m.blockSize, v.extentsNodes);
    ForkIsCounted(v.parts.attrs, AttrOpts(), v.attrs, m.attrs * m.blockSize, v.attrsNodes);
  }

  /** The alternate header is the same header, at the other end. */
  lemma AlternateHeaderAgrees(img: seq<byte>, v: Assembled, vs: seq<EntryView>, attrs: seq<Attr>, nfd: Normalizer,
                              files: seq<UserFileInput>)
    requires Mounted(img, v, vs, attrs, nfd, files)
    ensures |img| == SizeOf(v.layout) >= 1024
    ensures Stretch(img, |img| - 1024, HEADER_SIZE) == Stretch(img, HEADER_AT, HEADER_SIZE) == Some(Encode(v.header))
  {
    hide Mounted, IsVolume, Encode, RegionWrite, Spoken, Describes, HeaderReadsAs;
    MountedIs(img, v, vs, attrs, nfd, files);
    MountedHolds(img, v, vs, attrs, nfd, files);
    HeaderFound(img, v, vs, attrs, nfd, files);
    HeaderPart(v, vs, attrs, nfd, files);
  }

  lemma HeaderPart(v: Assembled, vs: seq<EntryView>, attrs: seq<Attr>, nfd: Normalizer, files: seq<UserFileInput>)
    requires IsVolume(v, vs, attrs, nfd, files)
    ensures v.parts.header == Encode(v.header)
  {
    hide Fills, MarksPlan, HoldsAttrRecords, Encode, FilesMatch, ContentsOf, CatalogFills, CountsFor, Describes;
  }
}
