/** The whole build: pack, plan, pack again, pad, write. */
module VolumeBuilder {
  import opened Bytes
  import opened Wrappers
  import opened Unicode
  import opened Seqs
  import opened Allocation
  import opened Geometry
  import opened Tower
  import opened TreeReader
  import opened NodeMap
  import opened TreeBytes
  import opened BTree
  import opened BTreeBuilder
  import opened TreeShape
  import opened Keys
  import opened Sorting
  import opened Catalog
  import opened CatalogTheorems
  import opened Attributes
  import opened Layout
  import opened VolumeHeader
  import opened Image
  import opened Volume
  import opened VolumeWriter
  import opened ForkTree

  const MOST_ENTRIES: nat := 0x800_0000

  // ----- the three packers, with what the planner needs of their sizes

  function ExtentsOpts(): BuildOpts {
    BuildOpts(1024, 2, 0xBC, 0, 10, 0)
  }

  /** No file needs a second extent, so the overflow tree is always empty. */
  method BuildExtentsTree() returns (r: BuildResult, ghost p: Packed)
    ensures fresh(r) && fresh(r.bytes) && r.opts == ExtentsOpts() && r.Agrees(p.header, p.mapNodes)
    ensures BuiltFrom(r.bytes[..], ExtentsOpts(), p) && p.records == [] && p.mapNodes == 0
  {
    ExtentsPack();
    hide PowerOfTwo, ImageHolds, TreeHolds;
    var built, levels, mapNodes, h := BuildTree([], ExtentsOpts());
    p := Packed([], levels, mapNodes, h);
    r := built.value;
  }

  lemma ExtentsPack()
    ensures PowerOfTwo(ExtentsOpts().nodeSize)
    ensures LeavesFit([], ExtentsOpts().nodeSize) && NarrowKeys([], ExtentsOpts().nodeSize)
  {
    assert PowerOfTwo(64);
  }

  /** The packed catalog is of moderate size. */
  lemma CatalogBounded(img: seq<byte>, vs: seq<EntryView>, p: Packed)
    requires HoldsCatalog(img, vs, CATALOG_NODE, p) && |vs| <= MOST_ENTRIES
    ensures BuiltFrom(img, CatalogOpts(CATALOG_NODE), p)
    ensures PackedNodes(p) < 0x8000_0000 && |img| == PackedNodes(p) * CATALOG_NODE && p.header.treeDepth <= 29
  {
    RecordsSized(vs);
    SizedElsewhere(CatalogRecords(vs), p.records);
    SizedRecordsPack(p.records);
    SameCount(p.records, CatalogRecords(vs));
    hide CatalogSized, IsCatalogKey, CompareCatalog, NarrowKeys, LeavesFit, Built, CatalogRecords, Sorted;
    NodesBounded(img, CatalogOpts(CATALOG_NODE), p.records, p.levels, p.mapNodes, p.header);
    BuiltFacts(img, CatalogOpts(CATALOG_NODE), p);
  }

  lemma SameCount<T>(a: seq<T>, b: seq<T>)
    requires multiset(a) == multiset(b)
    ensures |a| == |b|
  {
    assert |multiset(a)| == |a| && |multiset(b)| == |b|;
  }

  lemma AttrsBounded(img: seq<byte>, attrs: seq<Attr>, nfd: Normalizer, p: Packed)
    requires HoldsAttrs(img, attrs, nfd, p) && |attrs| <= MOST_RECORDS
    requires forall i :: 0 <= i < |attrs| ==> Accepted(attrs[i], nfd)
    ensures BuiltFrom(img, AttrOpts(), p)
    ensures PackedNodes(p) < 0x8000_0000 && |img| == PackedNodes(p) * ATTR_NODE && p.header.treeDepth <= 29
  {
    var listed := AttrRecords(attrs, nfd);
    forall i | 0 <= i < |attrs| ensures AttrSized(listed[i]) {
      AcceptedIsSized(attrs[i], nfd);
    }
    AttrsPack(p.records, listed);
    SameCount(p.records, listed);
    hide AttrSized, IsAttrKey, CompareAttr, NarrowKeys, LeavesFit, Built, AttrRecords, Accepted, Sorted;
    NodesBounded(img, AttrOpts(), p.records, p.levels, p.mapNodes, p.header);
    BuiltFacts(img, AttrOpts(), p);
  }

  // ----- the second pass

  lemma AllKnownStill(vs: seq<EntryView>, vs': seq<EntryView>)
    requires SameObjects(vs, vs') && AllKnown(vs)
    ensures AllKnown(vs')
  {
    forall i | 0 <= i < |vs'| ensures KnownKind(vs'[i]) {
      assert KnownKind(vs[i]);
    }
  }

  /** What the planner fills in makes no two keys equal. */
  lemma DistinctStill(vs: seq<EntryView>, vs': seq<EntryView>)
    requires SameObjects(vs, vs') && DistinctKeys(CatalogRecords(vs))
    ensures DistinctKeys(CatalogRecords(vs'))
  {
    ListBlanked(vs, vs');
    hide CatalogRecords, SameObjects;
    BlankedSizes(CatalogRecords(vs), CatalogRecords(vs'));
  }

  /** Tag the entries that have an attribute. */
  method TagEntries(entries: seq<Entry>, attrs: seq<Attr>)
    modifies (set i | 0 <= i < |entries| :: entries[i])`hasAttributes
    ensures forall i :: 0 <= i < |entries| ==>
      (entries[i].hasAttributes <==> old(entries[i].hasAttributes) || exists j :: 0 <= j < |attrs| && attrs[j].fileID == entries[i].cnid)
  {
    if |attrs| > 0 {
      var ids: set<u32> := {};
      for j := 0 to |attrs|
        invariant forall id :: id in ids <==> exists k :: 0 <= k < j && attrs[k].fileID == id
      {
        ids := ids + {attrs[j].fileID};
      }
      for i := 0 to |entries|
        invariant forall k :: 0 <= k < |entries| ==>
          (entries[k].hasAttributes <==> old(entries[k].hasAttributes) || (entries[k].cnid in ids && entries[k] in entries[..i]))
      {
        if entries[i].cnid in ids {
          entries[i].hasAttributes := true;
        }
        assert entries[..i + 1] == entries[..i] + [entries[i]];
      }
      assert entries[..|entries|] == entries;
    }
  }

  // ----- first pass

  /** The three trees as first packed: the catalog only for its size. */
  ghost predicate FirstPacked(vs: seq<EntryView>, attrs: seq<Attr>, nfd: Normalizer, catalog: seq<byte>, extents: seq<byte>,
                              attributes: seq<byte>, pc: Packed, pe: Packed, pa: Packed)
  {
    && AllKnown(vs) && DistinctKeys(CatalogRecords(vs)) && HoldsCatalog(catalog, vs, CATALOG_NODE, pc)
    && BuiltFrom(extents, ExtentsOpts(), pe) && pe.records == [] && pe.mapNodes == 0
    && (forall i :: 0 <= i < |attrs| ==> Accepted(attrs[i], nfd)) && HoldsAttrs(attributes, attrs, nfd, pa)
  }

  /** When the catalog packs: every kind is known and no key repeats. */
  ghost predicate CatalogPacks(vs: seq<EntryView>) {
    AllKnown(vs) && DistinctKeys(CatalogRecords(vs))
  }

  /** When the attributes pack: all within the limits, no file's name repeats. */
  ghost predicate AttributesPack(attrs: seq<Attr>, nfd: Normalizer) {
    (forall i :: 0 <= i < |attrs| ==> Accepted(attrs[i], nfd)) && DistinctKeys(AttrRecords(attrs, nfd))
  }

  predicate PackError(failed: Option<VolumeError>) {
    failed.None? || failed.value.CatalogFailed? || failed.value.AttributesFailed?
  }

  method FirstPass(entries: seq<Entry>, attrs: seq<Attr>, nfd: Normalizer, ghost vs: seq<EntryView>)
    returns (failed: Option<VolumeError>, catalog: seq<byte>, extents: BuildResult, attributes: BuildResult,
             ghost pc: Packed, ghost pe: Packed, ghost pa: Packed)
    requires vs == Views(entries)
    ensures fresh(extents) && fresh(extents.bytes) && extents.opts == ExtentsOpts() && extents.Agrees(pe.header, pe.mapNodes)
    ensures failed.None? ==>
      && fresh(attributes) && fresh(attributes.bytes) && attributes.opts == AttrOpts() && attributes.Agrees(pa.header, pa.mapNodes)
      && attributes != extents && attributes.bytes != extents.bytes
      && FirstPacked(vs, attrs, nfd, catalog, extents.bytes[..], attributes.bytes[..], pc, pe, pa)
    ensures PackError(failed)
    ensures failed.Some? && failed.value.CatalogFailed? <==> !CatalogPacks(vs)
    ensures failed.None? <==> CatalogPacks(vs) && AttributesPack(attrs, nfd)
  {
    hide TreeBuilds, AllKnown, DistinctKeys, CatalogRecords, Views, HoldsCatalog, HoldsAttrs, AttrRecords, BuiltFrom, KeyTwice;
    extents, pe := BuildExtentsTree();
    attributes, pa, catalog, pc := extents, pe, [], pe;
    var packed;
    packed, pc := BuildCatalogTree(entries, CATALOG_NODE);
    if packed.Err? {
      return Some(CatalogFailed(packed.error)), catalog, extents, attributes, pc, pe, pa;
    }
    catalog := packed.value.bytes[..];
    var packedAttrs;
    packedAttrs, pa := BuildAttributesTree(attrs, nfd);
    if packedAttrs.Err? {
      return Some(AttributesFailed(packedAttrs.error)), catalog, extents, attributes, pc, pe, pa;
    }
    return None, catalog, extents, packedAttrs.value, pc, pe, pa;
  }

  // ----- second pass and padding

  /** The planner's block counts are those of the packed trees. */
  ghost predicate SizedFor(m: Map, catalog: nat, extents: nat, attrs: nat) {
    && m.Planned() && m.total < U32_LIMIT
    && m.catalog == BlocksFor(catalog, m.blockSize) && m.extents == BlocksFor(extents, m.blockSize)
    && m.attrs == BlocksFor(attrs, m.blockSize)
  }

  lemma CanFill(img: seq<byte>, opts: BuildOpts, p: Packed, m: Map, blocks: nat)
    requires m.Planned() && m.total < U32_LIMIT && blocks < U32_LIMIT && blocks == BlocksFor(|img|, m.blockSize)
    requires BuiltFrom(img, opts, p) && VolumeTree(opts.nodeSize, PackedNodes(p), p.mapNodes) && PackedNodes(p) < 0x8000_0000
    ensures Fillable(img, opts, p, blocks, m.blockSize)
  {
    hide BuiltFrom, PackedNodes, VolumeTree, PowerOfTwo, LeastFixedPoint, BlocksFor, SumOf;
  }

  /** The tree is packed as `BuildTree` packs its records, and has just enough blocks. */
  ghost predicate TreeSettled(opts: BuildOpts, p: Packed, blocks: nat, blockSize: nat) {
    && blockSize > 0 && blocks == BlocksFor(PackedNodes(p) * opts.nodeSize, blockSize)
    && exists img :: BuiltFrom(img, opts, p)
  }

  lemma FillableIsSettled(img: seq<byte>, opts: BuildOpts, p: Packed, blocks: nat, blockSize: nat)
    requires Fillable(img, opts, p, blocks, blockSize)
    ensures TreeSettled(opts, p, blocks, blockSize)
  {
    BuiltFacts(img, opts, p);
    hide BuiltFrom, PowerOfTwo, VolumeTree, BlocksFor, PackedNodes, ImageHolds;
    assert BuiltFrom(img, opts, p);
  }

  lemma CatalogFillable(first: seq<byte>, second: seq<byte>, vs: seq<EntryView>, vs': seq<EntryView>, pc: Packed, p: Packed,
                        m: Map, extents: nat, attrs: nat)
    requires HoldsCatalog(first, vs, CATALOG_NODE, pc) && HoldsCatalog(second, vs', CATALOG_NODE, p) && SameObjects(vs, vs')
    requires |vs'| <= MOST_ENTRIES && SizedFor(m, |first|, extents, attrs)
    ensures Fillable(second, CatalogOpts(CATALOG_NODE), p, m.catalog, m.blockSize)
  {
    StartsFit(m);
    hide HoldsCatalog, SameObjects, Fillable, BuiltFrom, LeastFixedPoint, SumOf, PowerOfTwo, BlocksFor, PackedNodes;
    SecondPassIsStable(first, second, vs, vs', CATALOG_NODE, pc, p);
    CatalogBounded(second, vs', p);
    CanFill(second, CatalogOpts(CATALOG_NODE), p, m, m.catalog);
  }

  lemma ExtentsFillable(img: seq<byte>, p: Packed, m: Map, catalog: nat, attrs: nat)
    requires BuiltFrom(img, ExtentsOpts(), p) && p.records == [] && p.mapNodes == 0 && SizedFor(m, catalog, |img|, attrs)
    ensures Fillable(img, ExtentsOpts(), p, m.extents, m.blockSize)
  {
    StartsFit(m);
    hide BuiltFrom, LeastFixedPoint, SumOf, PowerOfTwo, BlocksFor, Fillable;
    CanFill(img, ExtentsOpts(), p, m, m.extents);
  }

  lemma AttrsFillable(img: seq<byte>, list: seq<Attr>, nfd: Normalizer, p: Packed, m: Map, catalog: nat, extents: nat)
    requires HoldsAttrs(img, list, nfd, p) && |list| <= MOST_RECORDS && SizedFor(m, catalog, extents, |img|)
    requires forall i :: 0 <= i < |list| ==> Accepted(list[i], nfd)
    ensures Fillable(img, AttrOpts(), p, m.attrs, m.blockSize)
  {
    StartsFit(m);
    hide HoldsAttrs, Accepted, BuiltFrom, LeastFixedPoint, SumOf, PowerOfTwo, BlocksFor, PackedNodes, Fillable;
    AttrsBounded(img, list, nfd, p);
    CanFill(img, AttrOpts(), p, m, m.attrs);
  }

  /** Padding the two trees that are packed only once. */
  method FillTwo(extents: BuildResult, attributes: BuildResult, extBlocks: nat, attrBlocks: nat, blockSize: nat,
                 ghost ext: seq<byte>, ghost attr: seq<byte>, ghost pe: Packed, ghost pa: Packed)
    returns (ok: bool, which: SpecialFile, extBytes: seq<byte>, attrBytes: seq<byte>, ghost te: nat, ghost ta: nat)
    requires extents != attributes && extents.bytes != attributes.bytes
    requires extents.bytes[..] == ext && extents.opts == ExtentsOpts() && extents.Agrees(pe.header, pe.mapNodes)
    requires attributes.bytes[..] == attr && attributes.opts == AttrOpts() && attributes.Agrees(pa.header, pa.mapNodes)
    requires Fillable(ext, ExtentsOpts(), pe, extBlocks, blockSize)
    requires Fillable(attr, AttrOpts(), pa, attrBlocks, blockSize)
    modifies extents, extents.bytes, attributes, attributes.bytes
    ensures ok <==>
      && Paddable(ExtentsOpts().nodeSize, pe.mapNodes, extBlocks, blockSize)
      && Paddable(ATTR_NODE, pa.mapNodes, attrBlocks, blockSize)
    ensures which.ExtentsFork? <==> !Paddable(ExtentsOpts().nodeSize, pe.mapNodes, extBlocks, blockSize)
    ensures !which.CatalogFork?
    ensures blockSize <= 65536 ==> ok
    ensures ok ==> Fills(extBytes, ExtentsOpts(), pe, extBlocks * blockSize, te)
    ensures ok ==> Fills(attrBytes, AttrOpts(), pa, attrBlocks * blockSize, ta)
  {
    hide Fillable, Fills, Paddable;
    which, attrBytes, ta := ExtentsFork, [], 0;
    ok, extBytes, te := FillFork(extents, extBlocks, blockSize, ext, pe, ExtentsOpts());
    if ok {
      which := AttributesFork;
      ok, attrBytes, ta := FillFork(attributes, attrBlocks, blockSize, attr, pa, AttrOpts());
    }
  }

  /** The fork holds the catalog of these entries. */
  ghost predicate CatalogFills(img: seq<byte>, vs: seq<EntryView>, p: Packed, size: nat, total: nat) {
    && multiset(p.records) == multiset(CatalogRecords(vs)) && Sorted(p.records, CatalogLess(), IsCatalogKey)
    && Fills(img, CatalogOpts(CATALOG_NODE), p, size, total) && (p.records != [] ==> |p.levels| < 0x1_0000)
  }

  lemma CatalogFilled(packed: seq<byte>, img: seq<byte>, vs: seq<EntryView>, p: Packed, size: nat, total: nat)
    requires HoldsCatalog(packed, vs, CATALOG_NODE, p) && Fills(img, CatalogOpts(CATALOG_NODE), p, size, total)
    requires |vs| <= MOST_ENTRIES
    ensures CatalogFills(img, vs, p, size, total)
  {
    CatalogBounded(packed, vs, p);
    assert p.records != [] ==> p.header.treeDepth == |p.levels|;
    hide Fills, CatalogRecords, Sorted, Built;
  }

  /** Still the same objects: everything the first pass relied on. */
  ghost predicate SamePass(vs: seq<EntryView>, vs': seq<EntryView>, first: seq<byte>, pc: Packed) {
    && AllKnown(vs) && DistinctKeys(CatalogRecords(vs)) && HoldsCatalog(first, vs, CATALOG_NODE, pc)
    && SameObjects(vs, vs') && |vs'| <= MOST_ENTRIES
  }

  lemma SecondCannotFail(vs: seq<EntryView>, vs': seq<EntryView>, first: seq<byte>, pc: Packed)
    requires SamePass(vs, vs', first, pc)
    ensures AllKnown(vs') && DistinctKeys(CatalogRecords(vs'))
  {
    hide AllKnown, DistinctKeys, CatalogRecords, HoldsCatalog, SameObjects;
    AllKnownStill(vs, vs');
    DistinctStill(vs, vs');
  }

  /** Pack the catalog again with the extents filled in, and fill its fork. */
  method SecondPass(entries: seq<Entry>, blocks: nat, blockSize: nat, ghost vs: seq<EntryView>, ghost vs': seq<EntryView>,
                    ghost first: seq<byte>, ghost pc: Packed, ghost m: Map, ghost extents: nat, ghost attrs: nat)
    returns (ok: bool, img: seq<byte>, ghost p: Packed, ghost total: nat)
    requires vs' == Views(entries) && blocks == m.catalog && blockSize == m.blockSize
    requires SamePass(vs, vs', first, pc) && SizedFor(m, |first|, extents, attrs)
    ensures ok <==> Paddable(CATALOG_NODE, pc.mapNodes, blocks, blockSize)
    ensures blockSize <= 65536 ==> ok
    ensures ok ==> CatalogFills(img, vs', p, blocks * blockSize, total)
    ensures TreeSettled(CatalogOpts(CATALOG_NODE), p, blocks, blockSize)
  {
    hide Paddable, TreeBuilds, SamePass, SizedFor, AllKnown, DistinctKeys, CatalogRecords, Views, HoldsCatalog,
         KeyTwice, CatalogFills, Fills, Fillable;
    SecondCannotFail(vs, vs', first, pc);
    var packed;
    packed, p := BuildCatalogTree(entries, CATALOG_NODE);
    ghost var second := packed.value.bytes[..];
    SecondFills(vs, vs', first, second, pc, p, m, extents, attrs);
    FillableIsSettled(second, CatalogOpts(CATALOG_NODE), p, blocks, blockSize);
    hide TreeSettled;
    ok, img, total := FillFork(packed.value, blocks, blockSize, second, p, CatalogOpts(CATALOG_NODE));
    if ok {
      CatalogFilled(second, img, vs', p, blocks * blockSize, total);
    }
  }

  lemma SecondFills(vs: seq<EntryView>, vs': seq<EntryView>, first: seq<byte>, second: seq<byte>, pc: Packed, p: Packed,
                    m: Map, extents: nat, attrs: nat)
    requires SamePass(vs, vs', first, pc) && HoldsCatalog(second, vs', CATALOG_NODE, p) && SizedFor(m, |first|, extents, attrs)
    ensures Fillable(second, CatalogOpts(CATALOG_NODE), p, m.catalog, m.blockSize) && |vs'| <= MOST_ENTRIES
    ensures p.mapNodes == pc.mapNodes
  {
    hide AllKnown, DistinctKeys, CatalogRecords, HoldsCatalog, SameObjects, SizedFor, Fillable;
    SecondPassIsStable(first, second, vs, vs', CATALOG_NODE, pc, p);
    CatalogFillable(first, second, vs, vs', pc, p, m, extents, attrs);
  }

  // ----- the whole volume

  function PlannerFiles(files: seq<UserFileInput>): (fs: seq<UserFile>)
    ensures |fs| == |files| && forall i :: 0 <= i < |files| ==> fs[i] == UserFile(files[i].entry, files[i].size)
  {
    seq(|files|, i requires 0 <= i < |files| => UserFile(files[i].entry, files[i].size))
  }

  function InputEntries(files: seq<UserFileInput>): set<Entry> {
    set i | 0 <= i < |files| :: files[i].entry
  }

  /** Everything the image was made of. */
  datatype Assembled = Assembled(layout: Map, parts: Parts, header: Header, catalog: Packed, extents: Packed, attrs: Packed,
                         catalogNodes: nat, extentsNodes: nat, attrsNodes: nat)

  /** The parts are what the map, the entries, the attributes and the files say. */
  ghost predicate IsVolume(v: Assembled, vs: seq<EntryView>, attrs: seq<Attr>, nfd: Normalizer, files: seq<UserFileInput>) {
    && Describes(v.header, v.layout) && v.parts.header == Encode(v.header)
    && MarksPlan(v.parts.bitmap, v.layout) && |v.parts.bitmap| == (v.layout.total + 7) / 8
    && CatalogFills(v.parts.catalog, vs, v.catalog, v.layout.SizeIn(v.layout.catalog), v.catalogNodes)
    && Fills(v.parts.extents, ExtentsOpts(), v.extents, v.layout.SizeIn(v.layout.extents), v.extentsNodes)
    && HoldsAttrRecords(v.attrs, attrs, nfd)
    && Fills(v.parts.attrs, AttrOpts(), v.attrs, v.layout.SizeIn(v.layout.attrs), v.attrsNodes)
    && |files| == |v.layout.counts| && v.parts.contents == ContentsOf(files, v.layout.counts) && FilesMatch(files, v.layout.counts)
    && v.layout.counts == CountsFor(PlannerFiles(files), v.layout.blockSize)
  }

  ghost predicate HoldsAttrRecords(p: Packed, attrs: seq<Attr>, nfd: Normalizer) {
    && multiset(p.records) == multiset(AttrRecords(attrs, nfd)) && Sorted(p.records, AttrLess(), IsAttrKey)
    && (forall i :: 0 <= i < |attrs| ==> Accepted(attrs[i], nfd)) && (p.records != [] ==> |p.levels| < 0x1_0000)
  }

  /** Each part fits its region. */
  lemma VolumeFits(v: Assembled, vs: seq<EntryView>, attrs: seq<Attr>, nfd: Normalizer, files: seq<UserFileInput>)
    requires IsVolume(v, vs, attrs, nfd, files)
    ensures v.parts.Fit(v.layout)
  {
    var m, p := v.layout, v.parts;
    BitmapFits(m);
    hide CatalogFills, ForkHolds, MarksPlan, LeastFixedPoint, PowerOfTwo, SumOf, HoldsAttrRecords, Ceil, FilesMatch,
         Encode, CountsFor;
    FillSize(v, vs, attrs, nfd, files);
    forall i | 0 <= i < |files| ensures |p.contents[i]| <= m.counts[i] * m.blockSize {
      ContentFits(v, vs, attrs, nfd, files, i);
    }
  }

  lemma FillSize(v: Assembled, vs: seq<EntryView>, attrs: seq<Attr>, nfd: Normalizer, files: seq<UserFileInput>)
    requires IsVolume(v, vs, attrs, nfd, files)
    ensures |v.parts.catalog| == v.layout.catalog * v.layout.blockSize && |v.parts.extents| == v.layout.extents * v.layout.blockSize
    ensures |v.parts.attrs| == v.layout.attrs * v.layout.blockSize && |v.parts.header| == HEADER_SIZE
  {
    hide ForkHolds, MarksPlan, LeastFixedPoint, PowerOfTwo, SumOf, HoldsAttrRecords, Ceil, FilesMatch, Encode,
         CountsFor, Describes,
         Sorted, CatalogRecords;
  }

  lemma ContentFits(v: Assembled, vs: seq<EntryView>, attrs: seq<Attr>, nfd: Normalizer, files: seq<UserFileInput>, i: nat)
    requires IsVolume(v, vs, attrs, nfd, files) && i < |files|
    ensures |v.parts.contents[i]| <= v.layout.counts[i] * v.layout.blockSize
    ensures v.layout.counts[i] > 0 ==> v.parts.contents[i] == files[i].source.data && |v.parts.contents[i]| == files[i].size
  {
    hide CatalogFills, Fills, MarksPlan, HoldsAttrRecords, Ceil, Encode, Describes;
    assert v.layout.counts[i] == Ceil(files[i].size, v.layout.blockSize);
    assert v.layout.counts[i] > 0 ==> Matches(files[i]);
  }

  // ----- packing again and writing

  /** The plan is the one for the first pass's sizes. */
  ghost predicate PlannedFor(plan: Plan, m: Map, vs: seq<EntryView>, files: seq<UserFileInput>, blockSize: nat,
                             catalog: nat, extents: nat, attrs: nat)
    reads plan.bitmap, plan.bitmap.bytes
  {
    && Made(plan, m, vs) && MapFor(m, blockSize, PlannerFiles(files), catalog, extents, attrs)
    && |vs| <= MOST_ENTRIES
  }

  lemma PlanFacts(plan: Plan, m: Map, vs: seq<EntryView>, files: seq<UserFileInput>, blockSize: nat,
                  catalog: nat, extents: nat, attrs: nat)
    requires PlannedFor(plan, m, vs, files, blockSize, catalog, extents, attrs)
    ensures SizedFor(m, catalog, extents, attrs) && Made(plan, m, vs) && |vs| < U32_LIMIT
    ensures plan.blockSize == m.blockSize && plan.catalogFile.totalBlocks == m.catalog
    ensures plan.extentsFile.totalBlocks == m.extents && plan.attributesFile.totalBlocks == m.attrs
    ensures |files| == |m.counts| && m.counts == CountsFor(PlannerFiles(files), m.blockSize)
    ensures 512 <= m.blockSize
    ensures m.blockSize == if blockSize == 0 then DEFAULT_BLOCK_SIZE else blockSize
  {
    hide LeastFixedPoint, PowerOfTwo, SumOf, PlacedFrom, MarksPlan, IsMaxCnid, Total, BlocksFor, Ceil;
  }

  /** Each tree's map describes all the nodes of its planned fork. */
  predicate PadsAll(m: Map, pc: Packed, pe: Packed, pa: Packed) {
    && Paddable(CATALOG_NODE, pc.mapNodes, m.catalog, m.blockSize)
    && Paddable(ExtentsOpts().nodeSize, pe.mapNodes, m.extents, m.blockSize)
    && Paddable(ATTR_NODE, pa.mapNodes, m.attrs, m.blockSize)
  }

  /** The tree whose padding is refused first. */
  function FirstUnpadded(m: Map, pc: Packed, pe: Packed): SpecialFile {
    if !Paddable(CATALOG_NODE, pc.mapNodes, m.catalog, m.blockSize) then CatalogFork
    else if !Paddable(ExtentsOpts().nodeSize, pe.mapNodes, m.extents, m.blockSize) then ExtentsFork
    else AttributesFork
  }

  /** The planned trees, padded. */
  method FillAll(entries: seq<Entry>, plan: Plan, extents: BuildResult, attributes: BuildResult,
                 ghost vs: seq<EntryView>, ghost vs': seq<EntryView>, ghost attrs: seq<Attr>, ghost nfd: Normalizer,
                 ghost first: seq<byte>, ghost ext: seq<byte>, ghost attr: seq<byte>,
                 ghost pc: Packed, ghost pe: Packed, ghost pa: Packed, ghost m: Map)
    returns (ok: bool, which: SpecialFile, catBytes: seq<byte>, extBytes: seq<byte>, attrBytes: seq<byte>,
             ghost p: Packed, ghost tc: nat, ghost te: nat, ghost ta: nat)
    requires vs' == Views(entries) && extents != attributes && extents.bytes != attributes.bytes
    requires plan.blockSize == m.blockSize && plan.catalogFile.totalBlocks == m.catalog
    requires plan.extentsFile.totalBlocks == m.extents && plan.attributesFile.totalBlocks == m.attrs
    requires extents.bytes[..] == ext && extents.opts == ExtentsOpts() && extents.Agrees(pe.header, pe.mapNodes)
    requires attributes.bytes[..] == attr && attributes.opts == AttrOpts() && attributes.Agrees(pa.header, pa.mapNodes)
    requires |attrs| <= MOST_RECORDS && |vs'| <= MOST_ENTRIES && SameObjects(vs, vs')
    requires FirstPacked(vs, attrs, nfd, first, ext, attr, pc, pe, pa) && SizedFor(m, |first|, |ext|, |attr|)
    modifies extents, extents.bytes, attributes, attributes.bytes
    ensures ok <==> PadsAll(m, pc, pe, pa)
    ensures !ok ==> which == FirstUnpadded(m, pc, pe)
    ensures m.blockSize <= 65536 ==> ok
    ensures ok ==> TreesFill(vs', m, catBytes, extBytes, attrBytes, p, pe, pa, tc, te, ta) && TreesSettled(m, p, pe, pa)
  {
    hide Paddable, TreeSettled, TreesSettled, FirstPacked, SizedFor, SameObjects, SamePass, Views, TreesFill, Fillable,
         Fills, CatalogFills;
    which, extBytes, attrBytes, te, ta := CatalogFork, [], [], 0, 0;
    FirstCarriesOver(vs, vs', attrs, nfd, first, ext, attr, pc, pe, pa, m);
    ok, catBytes, p, tc := SecondPass(entries, plan.catalogFile.totalBlocks, plan.blockSize, vs, vs', first, pc, m, |ext|, |attr|);
    if ok {
      ok, which, extBytes, attrBytes, te, ta :=
        FillTwo(extents, attributes, plan.extentsFile.totalBlocks, plan.attributesFile.totalBlocks, plan.blockSize,
                ext, attr, pe, pa);
    }
    if ok {
      AllFilled(vs', m, catBytes, extBytes, attrBytes, p, pe, pa, tc, te, ta);
      AllSettled(vs, attrs, nfd, first, ext, attr, pc, pe, pa, p, m);
    }
  }

  ghost predicate TreesSettled(m: Map, p: Packed, pe: Packed, pa: Packed) {
    && TreeSettled(CatalogOpts(CATALOG_NODE), p, m.catalog, m.blockSize)
    && TreeSettled(ExtentsOpts(), pe, m.extents, m.blockSize) && pe.records == []
    && TreeSettled(AttrOpts(), pa, m.attrs, m.blockSize)
  }

  lemma AllSettled(vs: seq<EntryView>, attrs: seq<Attr>, nfd: Normalizer, first: seq<byte>, ext: seq<byte>, attr: seq<byte>,
                   pc: Packed, pe: Packed, pa: Packed, p: Packed, m: Map)
    requires FirstPacked(vs, attrs, nfd, first, ext, attr, pc, pe, pa)
    requires TreeSettled(CatalogOpts(CATALOG_NODE), p, m.catalog, m.blockSize)
    requires Fillable(ext, ExtentsOpts(), pe, m.extents, m.blockSize) && Fillable(attr, AttrOpts(), pa, m.attrs, m.blockSize)
    ensures TreesSettled(m, p, pe, pa)
  {
    hide TreeSettled, Fillable, AllKnown, DistinctKeys, CatalogRecords, HoldsCatalog, HoldsAttrs, BuiltFrom, Accepted;
    FillableIsSettled(ext, ExtentsOpts(), pe, m.extents, m.blockSize);
    FillableIsSettled(attr, AttrOpts(), pa, m.attrs, m.blockSize);
  }

  ghost predicate TreesFill(vs: seq<EntryView>, m: Map, catalog: seq<byte>, extents: seq<byte>, attrs: seq<byte>,
                            p: Packed, pe: Packed, pa: Packed, tc: nat, te: nat, ta: nat)
  {
    && CatalogFills(catalog, vs, p, m.SizeIn(m.catalog), tc)
    && Fills(extents, ExtentsOpts(), pe, m.SizeIn(m.extents), te)
    && Fills(attrs, AttrOpts(), pa, m.SizeIn(m.attrs), ta)
  }

  lemma AllFilled(vs: seq<EntryView>, m: Map, catalog: seq<byte>, extents: seq<byte>, attrs: seq<byte>,
                  p: Packed, pe: Packed, pa: Packed, tc: nat, te: nat, ta: nat)
    requires CatalogFills(catalog, vs, p, m.catalog * m.blockSize, tc)
    requires Fills(extents, ExtentsOpts(), pe, m.extents * m.blockSize, te)
    requires Fills(attrs, AttrOpts(), pa, m.attrs * m.blockSize, ta)
    ensures TreesFill(vs, m, catalog, extents, attrs, p, pe, pa, tc, te, ta)
  {
  }

  lemma FirstCarriesOver(vs: seq<EntryView>, vs': seq<EntryView>, attrs: seq<Attr>, nfd: Normalizer,
                         first: seq<byte>, ext: seq<byte>, attr: seq<byte>, pc: Packed, pe: Packed, pa: Packed, m: Map)
    requires |attrs| <= MOST_RECORDS && |vs'| <= MOST_ENTRIES && SameObjects(vs, vs')
    requires FirstPacked(vs, attrs, nfd, first, ext, attr, pc, pe, pa) && SizedFor(m, |first|, |ext|, |attr|)
    ensures SamePass(vs, vs', first, pc)
    ensures Fillable(ext, ExtentsOpts(), pe, m.extents, m.blockSize) && Fillable(attr, AttrOpts(), pa, m.attrs, m.blockSize)
  {
    hide SizedFor, SameObjects, AllKnown, DistinctKeys, CatalogRecords, HoldsCatalog, HoldsAttrs, BuiltFrom, Accepted, Fillable;
    ExtentsFillable(ext, pe, m, |first|, |attr|);
    AttrsFillable(attr, attrs, nfd, pa, m, |first|, |ext|);
  }

  /** Header and writes for finished trees. */
  method WriteFinished(out: Image, plan: Plan, catalog: seq<byte>, extents: seq<byte>, attributes: seq<byte>,
                       files: seq<UserFileInput>, macTime: u32, ghost m: Map, ghost vs: seq<EntryView>)
    returns (failed: Option<VolumeError>, ghost p: Parts, ghost header: Header)
    requires Made(plan, m, vs) && |vs| < U32_LIMIT && |files| == |m.counts|
    requires TreesHaveSizes(m, catalog, extents, attributes) && m.counts == CountsFor(PlannerFiles(files), m.blockSize)
    modifies out
    ensures failed.None? <==> Writable(out.capacity, m, files)
    ensures failed.None? ==>
      && Completed(out.buf, old(out.buf), m, p) && FilesMatch(files, m.counts)
      && PartsAre(p, m, header, catalog, extents, attributes, files)
    ensures HeaderCounts(header, vs, macTime)
    ensures DestinationError(failed)
  {
    assert SizesFit(m, Zero(HEADER_SIZE), catalog, extents, attributes, files) by {
      PartsHaveRoom(m, catalog, extents, attributes, files);
    }
    hide Made, Completed, FilesMatch, PartsReady, PartsAre, ContentsOf, HeaderCounts, Writable, TreesHaveSizes, CountsFor;
    var v := BuildVolumeHeader(plan, macTime, m, vs);
    CountsAreMade(plan, m, vs, v, macTime);
    var bytes := EncodeHeader(v);
    header := v;
    p := Parts(bytes, plan.bitmap.bytes[..], catalog, extents, attributes, ContentsOf(files, m.counts));
    MadeIsReady(plan, m, vs, p);
    PartsAssembled(p, m, plan.bitmap.bytes[..], v, catalog, extents, attributes, files);
    failed := WriteAll(out, plan, bytes, catalog, extents, attributes, files, m, p);
  }

  ghost predicate TreesHaveSizes(m: Map, catalog: seq<byte>, extents: seq<byte>, attributes: seq<byte>) {
    && |catalog| == m.catalog * m.blockSize && |extents| == m.extents * m.blockSize && |attributes| == m.attrs * m.blockSize
  }

  lemma PartsHaveRoom(m: Map, catalog: seq<byte>, extents: seq<byte>, attributes: seq<byte>, files: seq<UserFileInput>)
    requires TreesHaveSizes(m, catalog, extents, attributes) && m.blockSize > 0
    requires m.counts == CountsFor(PlannerFiles(files), m.blockSize)
    ensures SizesFit(m, Zero(HEADER_SIZE), catalog, extents, attributes, files)
  {
    hide Ceil, Zero;
    forall i | 0 <= i < |files| ensures files[i].size <= m.counts[i] * m.blockSize {
      assert IsCeil(files[i].size, m.blockSize, Ceil(files[i].size, m.blockSize));
    }
  }

  /** The header's counters are those of the entries. */
  ghost predicate HeaderCounts(h: Header, vs: seq<EntryView>, macTime: u32) {
    && h.macTime == macTime && CountsAre(vs, h.fileCount, h.folderCount)
    && exists most: nat :: IsMaxCnid(vs, most) && h.nextCatalogID == (most + 1) % U32_LIMIT
  }

  lemma CountsAreMade(plan: Plan, m: Map, vs: seq<EntryView>, h: Header, macTime: u32)
    requires Made(plan, m, vs) && h.macTime == macTime
    requires h.fileCount == plan.fileCount && h.folderCount == plan.folderCount && h.nextCatalogID == plan.nextCatalogID
    ensures HeaderCounts(h, vs, macTime)
  {
    PlanCounts(plan, m, vs);
    hide LeastFixedPoint, PowerOfTwo, SumOf, PlacedFrom, MarksPlan, IsMaxCnid, Total, PlanIs, CountsAre;
  }

  ghost predicate PartsAre(p: Parts, m: Map, header: Header, catalog: seq<byte>, extents: seq<byte>, attributes: seq<byte>,
                           files: seq<UserFileInput>)
  {
    && Describes(header, m) && p.header == Encode(header) && MarksPlan(p.bitmap, m) && |p.bitmap| == (m.total + 7) / 8
    && p.catalog == catalog && p.extents == extents && p.attrs == attributes
    && |files| == |m.counts| && p.contents == ContentsOf(files, m.counts)
  }

  lemma MadeIsReady(plan: Plan, m: Map, vs: seq<EntryView>, p: Parts)
    requires Made(plan, m, vs) && |p.contents| == |m.counts| && p.bitmap == plan.bitmap.bytes[..]
    ensures PartsReady(plan, m, p) && MarksPlan(p.bitmap, m) && |p.bitmap| == (m.total + 7) / 8
  {
    hide LeastFixedPoint, PowerOfTwo, SumOf, PlacedFrom, MarksPlan, IsMaxCnid, Total;
  }

  lemma PartsAssembled(p: Parts, m: Map, bitmap: seq<byte>, v: Header, catalog: seq<byte>, extents: seq<byte>,
                       attributes: seq<byte>, files: seq<UserFileInput>)
    requires |files| == |m.counts|
    requires p == Parts(Encode(v), bitmap, catalog, extents, attributes, ContentsOf(files, m.counts))
    requires Describes(v, m) && MarksPlan(bitmap, m) && |bitmap| == (m.total + 7) / 8
    ensures PartsAre(p, m, v, catalog, extents, attributes, files)
  {
    hide Describes, Encode, MarksPlan, ContentsOf;
  }

  /** Every file's entry names the extent its bytes went to. */
  ghost predicate EntriesPlaced(files: seq<UserFileInput>, m: Map)
    reads InputEntries(files)
  {
    && |m.counts| == |files|
    && forall i :: 0 <= i < |files| && LastFor(PlannerFiles(files), i, |files|) ==> PlacedAt(files[i], m, i)
  }

  ghost predicate PlacedAt(f: UserFileInput, m: Map, i: nat)
    requires i < |m.counts|
    reads f.entry
  {
    && f.entry.size == f.size && f.entry.blocks == m.counts[i]
    && f.entry.extent.start == (if m.counts[i] == 0 then 0 else m.FileStart(i)) && f.entry.extent.count == m.counts[i]
  }

  lemma NamesArePlaced(files: seq<UserFileInput>, m: Map, placements: seq<Placement>)
    requires |placements| == |files| == |m.counts| && PlacedFrom(placements, m.counts, m.Start(5))
    requires EntriesName(PlannerFiles(files), placements)
    ensures EntriesPlaced(files, m)
  {
    hide SumOf, PlacedFrom;
    forall i | 0 <= i < |files| && LastFor(PlannerFiles(files), i, |files|) ensures PlacedAt(files[i], m, i) {
      NameIsPlaced(placements, m, i);
      assert Names(files[i].entry, files[i].size, placements[i]);
    }
  }

  lemma NameIsPlaced(placements: seq<Placement>, m: Map, i: nat)
    requires |placements| == |m.counts| && PlacedFrom(placements, m.counts, m.Start(5)) && i < |m.counts|
    ensures placements[i].blocks == m.counts[i]
    ensures placements[i].start == if m.counts[i] == 0 then 0 else m.FileStart(i)
  {
    FileStarts(m, i);
    FirstStarts(m);
    hide SumOf;
    assert placements[i] == PlacementOf(m.Start(5) + SumOf(m.counts[..i]), m.counts[i]);
  }

  ghost predicate InputsInRange(files: seq<UserFileInput>) {
    |files| <= MOST_FILES && forall i :: 0 <= i < |files| ==> files[i].size <= WIDE
  }

  lemma FirstSizes(vs: seq<EntryView>, attrs: seq<Attr>, nfd: Normalizer, catalog: seq<byte>, extents: seq<byte>,
                   attributes: seq<byte>, pc: Packed, pe: Packed, pa: Packed)
    requires FirstPacked(vs, attrs, nfd, catalog, extents, attributes, pc, pe, pa)
    requires |vs| <= MOST_ENTRIES && |attrs| <= MOST_RECORDS
    ensures |catalog| <= WIDE && |extents| <= WIDE && |attributes| <= WIDE
  {
    hide AllKnown, DistinctKeys, CatalogRecords, HoldsCatalog, HoldsAttrs, BuiltFrom, Accepted, AttrRecords;
    CatalogBounded(catalog, vs, pc);
    AttrsBounded(attributes, attrs, nfd, pa);
    BuiltFacts(extents, ExtentsOpts(), pe);
  }

  /** The first pass: bytes and shapes of the three trees. */
  datatype First = First(catalog: seq<byte>, extents: seq<byte>, attrs: seq<byte>, pc: Packed, pe: Packed, pa: Packed)

  ghost predicate FirstIs(vs: seq<EntryView>, attrs: seq<Attr>, nfd: Normalizer, f: First) {
    FirstPacked(vs, attrs, nfd, f.catalog, f.extents, f.attrs, f.pc, f.pe, f.pa)
  }

  /** The two trees kept from the first pass are in their own buffers. */
  ghost predicate Kept(extents: BuildResult, attributes: BuildResult, f: First)
    reads extents, extents.bytes, attributes, attributes.bytes
  {
    && extents != attributes && extents.bytes != attributes.bytes
    && extents.bytes[..] == f.extents && extents.opts == ExtentsOpts() && extents.Agrees(f.pe.header, f.pe.mapNodes)
    && attributes.bytes[..] == f.attrs && attributes.opts == AttrOpts() && attributes.Agrees(f.pa.header, f.pa.mapNodes)
  }

  /** Packing and planning, and the states in between. */
  ghost predicate Laid(plan: Plan, m: Map, vs: seq<EntryView>, vs': seq<EntryView>, files: seq<UserFileInput>, blockSize: nat,
                       attrs: seq<Attr>, nfd: Normalizer, f: First)
    reads plan.bitmap, plan.bitmap.bytes
  {
    && FirstIs(vs, attrs, nfd, f) && SameObjects(vs, vs')
    && PlannedFor(plan, m, vs', files, blockSize, |f.catalog|, |f.extents|, |f.attrs|)
  }

  lemma StillTheSame(vs: seq<EntryView>, vs': seq<EntryView>, entries: seq<Entry>)
    requires |vs| == |vs'| == |entries|
    requires forall i :: 0 <= i < |vs| ==> IdentityOf(vs[i], entries[i]) && IdentityOf(vs'[i], entries[i])
    ensures SameObjects(vs, vs')
  {
  }

  /** What of a view cannot change. */
  ghost predicate IdentityOf(v: EntryView, e: Entry) {
    v.cnid == e.cnid && v.parent == e.parent && v.name == e.name && v.kind == e.kind
  }

  lemma ViewsIdentify(entries: seq<Entry>)
    ensures forall i :: 0 <= i < |entries| ==> IdentityOf(Views(entries)[i], entries[i])
  {
  }

  predicate PlanError(failed: Option<VolumeError>) {
    PackError(failed) || failed.value.PlanFailed?
  }

  /** The planner accepts the sizes of the packed trees, and the volume stays under
      the last eight block counts. */
  predicate Placeable(f: First, m: Map, files: seq<UserFileInput>, blockSize: nat) {
    && Plannable(blockSize, PlannerFiles(files), |f.catalog|, |f.extents|, |f.attrs|)
    && m.total <= U32_LIMIT - 8
  }

  /** What was computed on the way: the trees if they pack, the layout if it counts. */
  ghost predicate Shaped(f: First, m: Map, vs: seq<EntryView>, files: seq<UserFileInput>, attrs: seq<Attr>,
                         blockSize: nat, nfd: Normalizer)
  {
    CatalogPacks(vs) && AttributesPack(attrs, nfd) ==>
      && FirstIs(vs, attrs, nfd, f)
      && (Plannable(blockSize, PlannerFiles(files), |f.catalog|, |f.extents|, |f.attrs|) ==>
            MapFor(m, blockSize, PlannerFiles(files), |f.catalog|, |f.extents|, |f.attrs|))
  }

  method PackAndPlan(entries: seq<Entry>, files: seq<UserFileInput>, attrs: seq<Attr>, blockSize: nat, nfd: Normalizer)
    returns (failed: Option<VolumeError>, plan: Option<Plan>, extents: BuildResult, attributes: BuildResult,
             ghost m: Map, ghost vs: seq<EntryView>, ghost f: First)
    requires blockSize < U32_LIMIT && |entries| <= MOST_ENTRIES && |attrs| <= MOST_RECORDS && InputsInRange(files)
    modifies EntriesOf(PlannerFiles(files))`size, EntriesOf(PlannerFiles(files))`blocks, EntriesOf(PlannerFiles(files))`extent
    ensures PlanError(failed)
    ensures vs == old(Views(entries)) && Shaped(f, m, vs, files, attrs, blockSize, nfd)
    ensures failed.Some? && failed.value.CatalogFailed? <==> !CatalogPacks(vs)
    ensures failed.Some? && failed.value.AttributesFailed? <==> CatalogPacks(vs) && !AttributesPack(attrs, nfd)
    ensures failed.Some? && failed.value.PlanFailed? <==>
      CatalogPacks(vs) && AttributesPack(attrs, nfd) && !Placeable(f, m, files, blockSize)
    ensures failed.None? ==> plan.Some? && plan.value.bitmap.bytes !in {extents.bytes, attributes.bytes}
    ensures failed.None? ==> fresh({extents, attributes}) && fresh({extents.bytes, attributes.bytes})
    ensures failed.None? ==> Kept(extents, attributes, f) && EntriesPlaced(files, m)
    ensures failed.None? && plan.Some? ==> Laid(plan.value, m, vs, Views(entries), files, blockSize, attrs, nfd, f)
  {
    hide CatalogPacks, AttributesPack, Plannable, FirstPacked, Views, EntriesName, MapFor, SameObjects, Made,
         EntriesPlaced, PlacedFrom, EntriesOf, InputsInRange;
    plan, m := None, NoMap();
    vs := Views(entries);
    ViewsIdentify(entries);
    var catalog;
    ghost var pc, pe, pa;
    failed, catalog, extents, attributes, pc, pe, pa := FirstPass(entries, attrs, nfd, vs);
    f := First(catalog, extents.bytes[..], attributes.bytes[..], pc, pe, pa);
    if failed.Some? {
      return;
    }
    FirstSizes(vs, attrs, nfd, catalog, extents.bytes[..], attributes.bytes[..], pc, pe, pa);
    InputSizes(files);
    var planned;
    planned, m := BuildPlan(blockSize, entries, PlannerFiles(files), |catalog|, extents.bytes.Length, attributes.bytes.Length);
    if planned.Err? {
      failed := Some(PlanFailed(planned.error));
      return;
    }
    plan := Some(planned.value);
    ViewsIdentify(entries);
    StillTheSame(vs, Views(entries), entries);
    PlanPlaces(files, planned.value, m, Views(entries), blockSize, |catalog|, |f.extents|, |f.attrs|);
  }

  lemma InputSizes(files: seq<UserFileInput>)
    requires InputsInRange(files)
    ensures SizesInRange(PlannerFiles(files)) && |PlannerFiles(files)| <= MOST_FILES
  {
  }

  lemma PlanPlaces(files: seq<UserFileInput>, plan: Plan, m: Map, vs: seq<EntryView>, blockSize: nat,
                   catalog: nat, extents: nat, attrs: nat)
    requires Made(plan, m, vs) && MapFor(m, blockSize, PlannerFiles(files), catalog, extents, attrs) && |vs| <= MOST_ENTRIES
    requires EntriesName(PlannerFiles(files), plan.placements)
    ensures EntriesPlaced(files, m) && PlannedFor(plan, m, vs, files, blockSize, catalog, extents, attrs)
  {
    hide LeastFixedPoint, PowerOfTwo, SumOf, PlacedFrom, MarksPlan, IsMaxCnid, Total, BlocksFor, Ceil, EntriesName,
         EntriesPlaced;
    NamesArePlaced(files, m, plan.placements);
  }

  // ----- WriteVolume

  /** All the volume is made of, put together. */
  lemma IsAssembled(v: Assembled, plan: Plan, vs: seq<EntryView>, vs': seq<EntryView>, attrs: seq<Attr>, nfd: Normalizer,
                    files: seq<UserFileInput>, blockSize: nat, f: First)
    requires Laid(plan, v.layout, vs, vs', files, blockSize, attrs, nfd, f)
    requires TreesFill(vs', v.layout, v.parts.catalog, v.parts.extents, v.parts.attrs, v.catalog, v.extents, v.attrs,
                       v.catalogNodes, v.extentsNodes, v.attrsNodes)
    requires v.extents == f.pe && v.attrs == f.pa && |attrs| <= MOST_RECORDS
    requires PartsAre(v.parts, v.layout, v.header, v.parts.catalog, v.parts.extents, v.parts.attrs, files)
    requires FilesMatch(files, v.layout.counts)
    ensures IsVolume(v, vs', attrs, nfd, files)
  {
    hide Made, SizedFor, MapFor, AllKnown, DistinctKeys, CatalogRecords, HoldsCatalog, CatalogFills, Fills, Describes,
         MarksPlan,
         FilesMatch, ContentsOf, CountsFor, BuiltFrom, SameObjects, Accepted, Encode, AttrRecords, Sorted;
    PlanFacts(plan, v.layout, vs', files, blockSize, |f.catalog|, |f.extents|, |f.attrs|);
    hide PlannedFor;
    AttrsAre(f, vs, attrs, nfd);
  }

  lemma AttrsAre(f: First, vs: seq<EntryView>, attrs: seq<Attr>, nfd: Normalizer)
    requires FirstIs(vs, attrs, nfd, f) && |attrs| <= MOST_RECORDS
    ensures HoldsAttrRecords(f.pa, attrs, nfd)
  {
    hide AllKnown, DistinctKeys, CatalogRecords, HoldsCatalog, BuiltFrom, Accepted, AttrRecords, Sorted, MapInPlace,
         LevelPlaced;
    AttrsBounded(f.attrs, attrs, nfd, f.pa);
    assert f.pa.records != [] ==> f.pa.header.treeDepth == |f.pa.levels|;
  }

  /** After the plan only padding beyond 64 KiB blocks and the destination can fail. */
  predicate LateError(e: VolumeError, blockSize: nat) {
    e.WriteFailedAt? || e.FileFailed? || (e.PadFailed? && blockSize > 65536)
  }

  /** Layout and header follow from the packed trees and the entries. */
  ghost predicate Settled(v: Assembled, vs: seq<EntryView>, blockSize: nat, macTime: u32) {
    && v.layout.blockSize == (if blockSize == 0 then DEFAULT_BLOCK_SIZE else blockSize)
    && TreesSettled(v.layout, v.catalog, v.extents, v.attrs) && HeaderCounts(v.header, vs, macTime)
  }

  /** All was ready to be written. */
  ghost predicate Attempted(v: Assembled, vs: seq<EntryView>, files: seq<UserFileInput>, blockSize: nat, macTime: u32) {
    && Settled(v, vs, blockSize, macTime) && v.layout.Planned()
    && v.layout.counts == CountsFor(PlannerFiles(files), v.layout.blockSize)
    && CatalogFills(v.parts.catalog, vs, v.catalog, v.layout.catalog * v.layout.blockSize, v.catalogNodes)
  }

  lemma SettledIs(v: Assembled, vs: seq<EntryView>, blockSize: nat, macTime: u32)
    requires v.layout.blockSize == (if blockSize == 0 then DEFAULT_BLOCK_SIZE else blockSize)
    requires TreesSettled(v.layout, v.catalog, v.extents, v.attrs) && HeaderCounts(v.header, vs, macTime)
    ensures Settled(v, vs, blockSize, macTime)
  {
    hide TreesSettled, HeaderCounts;
  }

  lemma WasAttempted(v: Assembled, vs: seq<EntryView>, files: seq<UserFileInput>, blockSize: nat, macTime: u32,
                     extents: seq<byte>, attrs: seq<byte>)
    requires TreesFill(vs, v.layout, v.parts.catalog, extents, attrs, v.catalog, v.extents, v.attrs,
                       v.catalogNodes, v.extentsNodes, v.attrsNodes)
    requires TreesSettled(v.layout, v.catalog, v.extents, v.attrs) && HeaderCounts(v.header, vs, macTime)
    requires v.layout.blockSize == (if blockSize == 0 then DEFAULT_BLOCK_SIZE else blockSize) && v.layout.Planned()
    requires v.layout.counts == CountsFor(PlannerFiles(files), v.layout.blockSize)
    ensures Attempted(v, vs, files, blockSize, macTime)
  {
    hide TreesSettled, HeaderCounts, CatalogFills, Fills, CountsFor, LeastFixedPoint, PowerOfTwo, SumOf;
  }

  lemma TreesAreSized(vs: seq<EntryView>, m: Map, catalog: seq<byte>, extents: seq<byte>, attrs: seq<byte>,
                      p: Packed, pe: Packed, pa: Packed, tc: nat, te: nat, ta: nat)
    requires TreesFill(vs, m, catalog, extents, attrs, p, pe, pa, tc, te, ta)
    ensures TreesHaveSizes(m, catalog, extents, attrs)
  {
    hide ForkHolds, CatalogRecords;
  }

  /** Second pass, padding and writing. */
  method Finish(out: Image, entries: seq<Entry>, files: seq<UserFileInput>, plan: Plan, extents: BuildResult,
                attributes: BuildResult, macTime: u32, ghost attrs: seq<Attr>, ghost blockSize: nat, ghost nfd: Normalizer,
                ghost m: Map, ghost vs: seq<EntryView>, ghost f: First)
    returns (r: Result<nat, VolumeError>, ghost v: Assembled)
    requires Kept(extents, attributes, f) && plan.bitmap.bytes !in {extents.bytes, attributes.bytes}
    requires |attrs| <= MOST_RECORDS && Laid(plan, m, vs, Views(entries), files, blockSize, attrs, nfd, f)
    modifies out, extents, extents.bytes, attributes, attributes.bytes
    ensures r.Ok? ==> v.layout == m && r.value == SizeOf(m) && Completed(out.buf, old(out.buf), m, v.parts)
    ensures r.Ok? ==> IsVolume(v, Views(entries), attrs, nfd, files) && Settled(v, Views(entries), blockSize, macTime)
    ensures r.Err? ==> LateError(r.error, blockSize)
    ensures r.Err? && r.error.PadFailed? <==> !PadsAll(m, f.pc, f.pe, f.pa)
    ensures r.Err? && r.error.PadFailed? ==> r.error.tree == FirstUnpadded(m, f.pc, f.pe)
    ensures r.Ok? <==> PadsAll(m, f.pc, f.pe, f.pa) && Writable(out.capacity, m, files)
    ensures r.Ok? ==> Writable(out.capacity, v.layout, files)
    ensures r.Err? && !r.error.PadFailed? ==>
      Attempted(v, Views(entries), files, blockSize, macTime) && !Writable(out.capacity, v.layout, files)
  {
    hide PadsAll, Writable, Attempted, Settled, TreesSettled, Laid, TreesFill, Completed, IsVolume, Made, Views, FirstPacked,
         SizedFor, SameObjects, LateError, FirstUnpadded, SizeOf;
    v := NothingAssembled();
    ghost var vs' := Views(entries);
    LaidFacts(plan, m, vs, vs', files, blockSize, attrs, nfd, f);
    var ok, which, catBytes, extBytes, attrBytes;
    ghost var p, tc, te, ta;
    ok, which, catBytes, extBytes, attrBytes, p, tc, te, ta :=
      FillAll(entries, plan, extents, attributes, vs, vs', attrs, nfd, f.catalog, f.extents, f.attrs, f.pc, f.pe, f.pa, m);
    if !ok {
      PadErrorIsLate(m, which, blockSize);
      return Err(PadFailed(which)), v;
    }
    ghost var trees := Filled(p, tc, te, ta);
    r, v := WriteFilled(out, files, plan, catBytes, extBytes, attrBytes, macTime, attrs, blockSize, nfd, m, vs, vs', f, trees);
  }

  datatype Filled = Filled(catalog: Packed, catalogNodes: nat, extentsNodes: nat, attrsNodes: nat)

  /** Writing, once the trees fill their forks. */
  method WriteFilled(out: Image, files: seq<UserFileInput>, plan: Plan, catBytes: seq<byte>, extBytes: seq<byte>,
                     attrBytes: seq<byte>, macTime: u32, ghost attrs: seq<Attr>, ghost blockSize: nat, ghost nfd: Normalizer,
                     ghost m: Map, ghost vs: seq<EntryView>, ghost vs': seq<EntryView>, ghost f: First, ghost trees: Filled)
    returns (r: Result<nat, VolumeError>, ghost v: Assembled)
    requires |attrs| <= MOST_RECORDS && Laid(plan, m, vs, vs', files, blockSize, attrs, nfd, f)
    requires TreesFill(vs', m, catBytes, extBytes, attrBytes, trees.catalog, f.pe, f.pa,
                       trees.catalogNodes, trees.extentsNodes, trees.attrsNodes)
    requires TreesSettled(m, trees.catalog, f.pe, f.pa)
    modifies out
    ensures v.layout == m && (r.Ok? <==> Writable(out.capacity, m, files))
    ensures r.Ok? ==> r.value == SizeOf(m) && Completed(out.buf, old(out.buf), m, v.parts)
    ensures r.Ok? ==> IsVolume(v, vs', attrs, nfd, files) && Settled(v, vs', blockSize, macTime)
    ensures r.Err? ==>
      LateError(r.error, blockSize) && !r.error.PadFailed? && Attempted(v, vs', files, blockSize, macTime)
  {
    hide Writable, TreesHaveSizes, Attempted, Settled, TreesSettled, HeaderCounts, Laid, TreesFill, PartsAre, Completed,
         FilesMatch,
         IsVolume, Made, FirstPacked, SizedFor, SameObjects, LateError, DestinationError;
    LaidFacts(plan, m, vs, vs', files, blockSize, attrs, nfd, f);
    TreesAreSized(vs', m, catBytes, extBytes, attrBytes, trees.catalog, f.pe, f.pa,
                  trees.catalogNodes, trees.extentsNodes, trees.attrsNodes);
    var failed;
    ghost var parts, header;
    failed, parts, header := WriteFinished(out, plan, catBytes, extBytes, attrBytes, files, macTime, m, vs');
    v := Assembled(m, parts, header, trees.catalog, f.pe, f.pa, trees.catalogNodes, trees.extentsNodes, trees.attrsNodes);
    if failed.Some? {
      DestinationIsLate(failed.value, blockSize);
      v := v.(parts := v.parts.(catalog := catBytes));
      WasAttempted(v, vs', files, blockSize, macTime, extBytes, attrBytes);
      return Err(failed.value), v;
    }
    SettledIs(v, vs', blockSize, macTime);
    PartsNamed(parts, m, header, catBytes, extBytes, attrBytes, files);
    IsAssembled(v, plan, vs, vs', attrs, nfd, files, blockSize, f);
    return Ok(plan.totalBlocks * plan.blockSize), v;
  }

  lemma PadErrorIsLate(m: Map, which: SpecialFile, blockSize: nat)
    requires m.blockSize > 65536 && m.blockSize == if blockSize == 0 then DEFAULT_BLOCK_SIZE else blockSize
    ensures LateError(PadFailed(which), blockSize)
  {
  }

  lemma DestinationIsLate(e: VolumeError, blockSize: nat)
    requires DestinationError(Some(e))
    ensures LateError(e, blockSize) && !e.PadFailed?
  {
  }

  lemma PartsNamed(p: Parts, m: Map, header: Header, catalog: seq<byte>, extents: seq<byte>, attributes: seq<byte>,
                   files: seq<UserFileInput>)
    requires PartsAre(p, m, header, catalog, extents, attributes, files)
    ensures p.catalog == catalog && p.extents == extents && p.attrs == attributes
    ensures PartsAre(p, m, header, p.catalog, p.extents, p.attrs, files)
  {
  }

  /** What the later stages take from the plan. */
  lemma LaidFacts(plan: Plan, m: Map, vs: seq<EntryView>, vs': seq<EntryView>, files: seq<UserFileInput>, blockSize: nat,
                  attrs: seq<Attr>, nfd: Normalizer, f: First)
    requires Laid(plan, m, vs, vs', files, blockSize, attrs, nfd, f)
    ensures FirstPacked(vs, attrs, nfd, f.catalog, f.extents, f.attrs, f.pc, f.pe, f.pa)
    ensures SizedFor(m, |f.catalog|, |f.extents|, |f.attrs|) && SameObjects(vs, vs')
    ensures Made(plan, m, vs') && |vs'| <= MOST_ENTRIES && |files| == |m.counts|
    ensures plan.blockSize == m.blockSize && plan.totalBlocks == m.total && plan.catalogFile.totalBlocks == m.catalog
    ensures plan.extentsFile.totalBlocks == m.extents && plan.attributesFile.totalBlocks == m.attrs
    ensures m.blockSize == if blockSize == 0 then DEFAULT_BLOCK_SIZE else blockSize
    ensures m.Planned() && m.counts == CountsFor(PlannerFiles(files), m.blockSize)
  {
    PlanFacts(plan, m, vs', files, blockSize, |f.catalog|, |f.extents|, |f.attrs|);
    hide FirstPacked, SizedFor, SameObjects, LeastFixedPoint, PowerOfTwo, SumOf, PlacedFrom, MarksPlan, IsMaxCnid, Total,
         BlocksFor, Ceil, MapFor;
  }

  ghost function NoMap(): Map { Map(0, 0, 0, 0, 0, 0, []) }

  ghost function NothingAssembled(): Assembled {
    Assembled(NoMap(), Parts([], [], [], [], [], []),
              Header(0, 0, 0, 0, 0, 0, 0, 0, NoFork(), NoFork(), NoFork(), NoFork()),
              NothingPacked(), NothingPacked(), NothingPacked(), 0, 0, 0)
  }

  function NoFork(): ForkData { ForkData(0, 0, 0, Extent(0, 0)) }

  // ----- what becomes of the entries

  /** The last file that names an entry; it decides the entry's extent. */
  function LastFile(files: seq<UserFileInput>, e: Entry, n: nat): (r: Option<nat>)
    requires n <= |files|
  {
    if n == 0 then None else if files[n - 1].entry == e then Some(n - 1) else LastFile(files, e, n - 1)
  }

  lemma {:induction false} LastFileIsLast(files: seq<UserFileInput>, e: Entry, n: nat)
    requires n <= |files|
    ensures match LastFile(files, e, n)
      case None => forall i :: 0 <= i < n ==> files[i].entry != e
      case Some(i) => i < n && files[i].entry == e && forall k :: i < k < n ==> files[k].entry != e
  {
    if n > 0 && files[n - 1].entry != e {
      LastFileIsLast(files, e, n - 1);
    }
  }

  function Namings(entries: seq<Entry>, files: seq<UserFileInput>): (naming: seq<Option<nat>>)
    ensures |naming| == |entries| && forall k :: 0 <= k < |entries| ==> naming[k] == LastFile(files, entries[k], |files|)
  {
    seq(|entries|, k requires 0 <= k < |entries| => LastFile(files, entries[k], |files|))
  }

  function SizesOf(files: seq<UserFileInput>): (s: seq<u64>)
    ensures |s| == |files| && forall i :: 0 <= i < |files| ==> s[i] == files[i].size
  {
    seq(|files|, i requires 0 <= i < |files| => files[i].size)
  }

  ghost function Tagged(v: EntryView, attrs: seq<Attr>): EntryView {
    v.(hasAttributes := v.hasAttributes || exists j :: 0 <= j < |attrs| && attrs[j].fileID == v.cnid)
  }

  /** Only what the planner fills in differs. */
  ghost predicate SameButPlan(before: EntryView, after: EntryView) {
    after == before.(size := after.size, blocks := after.blocks, extent := after.extent)
  }

  /** The planner gives an entry the size and the extent of its file, and leaves one
      without a file alone. */
  ghost predicate PlannedView(before: EntryView, after: EntryView, naming: Option<nat>, sizes: seq<u64>, m: Map) {
    match naming
    case None => after == before
    case Some(i) =>
      && i < |m.counts| && i < |sizes| && SameButPlan(before, after)
      && after.size == sizes[i] && after.blocks == m.counts[i]
      && after.extent.start == (if m.counts[i] == 0 then 0 else m.FileStart(i)) && after.extent.count == m.counts[i]
  }

  /** What a build makes of the entries' views: tagged, and planned. */
  ghost predicate EntriesFollow(before: seq<EntryView>, after: seq<EntryView>, naming: seq<Option<nat>>, sizes: seq<u64>,
                                attrs: seq<Attr>, m: Map)
  {
    && |before| == |after| == |naming|
    && forall k :: 0 <= k < |before| ==> PlannedView(Tagged(before[k], attrs), after[k], naming[k], sizes, m)
  }

  lemma EntriesDoFollow(entries: seq<Entry>, files: seq<UserFileInput>, attrs: seq<Attr>, m: Map, before: seq<EntryView>)
    requires |before| == |entries| && EntriesPlaced(files, m)
    requires forall k :: 0 <= k < |entries| ==>
      && SameButPlan(Tagged(before[k], attrs), entries[k].View())
      && (entries[k] !in EntriesOf(PlannerFiles(files)) ==> entries[k].View() == Tagged(before[k], attrs))
    ensures EntriesFollow(before, Views(entries), Namings(entries, files), SizesOf(files), attrs, m)
  {
    hide SameButPlan, Tagged;
    forall k | 0 <= k < |entries|
      ensures PlannedView(Tagged(before[k], attrs), entries[k].View(), LastFile(files, entries[k], |files|), SizesOf(files), m)
    {
      LastFileIsLast(files, entries[k], |files|);
      hide LastFile;
      match LastFile(files, entries[k], |files|)
      case None =>
        assert entries[k] !in EntriesOf(PlannerFiles(files));
      case Some(i) =>
        assert LastFor(PlannerFiles(files), i, |files|);
        assert PlacedAt(files[i], m, i);
    }
  }

  lemma EarlyError(e: VolumeError)
    requires PlanError(Some(e))
    ensures e.CatalogFailed? || e.AttributesFailed? || e.PlanFailed?
  {
  }

  lemma LateStage(e: VolumeError, blockSize: nat)
    requires LateError(e, blockSize)
    ensures e.PadFailed? || e.WriteFailedAt? || e.FileFailed?
  {
  }

  /** A build that succeeded over a destination holding `buf`: `before` are the entries
      as they came, `naming` says which file decides each, `vs` is what became of them. */
  ghost predicate IsBuild(img: seq<byte>, buf: seq<byte>, v: Assembled, before: seq<EntryView>, vs: seq<EntryView>,
                          naming: seq<Option<nat>>, files: seq<UserFileInput>, attrs: seq<Attr>, blockSize: nat,
                          macTime: u32, nfd: Normalizer)
  {
    && IsVolume(v, vs, attrs, nfd, files) && Settled(v, vs, blockSize, macTime) && Completed(img, buf, v.layout, v.parts)
    && EntriesFollow(before, vs, naming, SizesOf(files), attrs, v.layout)
  }

  // ----- when a build succeeds

  /** How far a build gets. */
  datatype Stage = AtClock | AtCatalog | AtAttributes | AtPlan | AtPadding | AtWriting | Passed

  function StageOf(r: Result<nat, VolumeError>): Stage {
    match r
    case Ok(_) => Passed
    case Err(ZeroMacTime) => AtClock
    case Err(CatalogFailed(_)) => AtCatalog
    case Err(AttributesFailed(_)) => AtAttributes
    case Err(PlanFailed(_)) => AtPlan
    case Err(PadFailed(_)) => AtPadding
    case Err(BitmapTooLarge) => AtWriting
    case Err(WriteFailedAt(_)) => AtWriting
    case Err(FileFailed(_, _)) => AtWriting
  }

  /** The first condition that fails, in the order the build needs them. */
  ghost function StageFor(f: First, m: Map, vs: seq<EntryView>, files: seq<UserFileInput>, attrs: seq<Attr>,
                          blockSize: nat, macTime: u32, nfd: Normalizer, capacity: nat): Stage
  {
    if macTime == 0 then AtClock
    else if !CatalogPacks(vs) then AtCatalog
    else if !AttributesPack(attrs, nfd) then AtAttributes
    else if !Placeable(f, m, files, blockSize) then AtPlan
    else if !PadsAll(m, f.pc, f.pe, f.pa) then AtPadding
    else if !Writable(capacity, m, files) then AtWriting
    else Passed
  }

  /** The entries as the first pass packs them. */
  ghost function TaggedAll(vs: seq<EntryView>, attrs: seq<Attr>): (ts: seq<EntryView>)
    ensures |ts| == |vs| && forall k :: 0 <= k < |vs| ==> ts[k] == Tagged(vs[k], attrs)
  {
    seq(|vs|, k requires 0 <= k < |vs| => Tagged(vs[k], attrs))
  }

  ghost function NothingFirst(): First { First([], [], [], NothingPacked(), NothingPacked(), NothingPacked()) }

  /** With blocks of 8 MiB or more no build gets past its padding: the fork of the
      empty extents tree has more nodes than its map describes. Below that the
      extents tree always pads, and up to 64 KiB so do the other two. */
  lemma LargeBlocksCannotPad(f: First, m: Map, vs: seq<EntryView>, files: seq<UserFileInput>, attrs: seq<Attr>,
                             blockSize: nat, nfd: Normalizer)
    requires FirstIs(vs, attrs, nfd, f)
    requires MapFor(m, blockSize, PlannerFiles(files), |f.catalog|, |f.extents|, |f.attrs|)
    ensures Paddable(ExtentsOpts().nodeSize, f.pe.mapNodes, m.extents, m.blockSize) <==> m.blockSize < 0x80_0000
    ensures m.blockSize >= 0x80_0000 ==> !PadsAll(m, f.pc, f.pe, f.pa)
  {
    ExtentsShape(f, vs, attrs, nfd);
    hide FirstIs, BlocksFor, Ceil, LeastFixedPoint, SumOf, CountsFor, Paddable;
    EmptyTreePads(m.blockSize);
  }

  lemma ExtentsShape(f: First, vs: seq<EntryView>, attrs: seq<Attr>, nfd: Normalizer)
    requires FirstIs(vs, attrs, nfd, f)
    ensures |f.extents| == 1024 && f.pe.mapNodes == 0
  {
    hide AllKnown, DistinctKeys, CatalogRecords, HoldsCatalog, HoldsAttrs, BuiltFrom, Accepted;
    BuiltFacts(f.extents, ExtentsOpts(), f.pe);
  }

  /** Builds the volume into `out`. On success the size is returned, the whole list
      of writes has been made, and every entry names its file's extent. */
  method WriteVolume(out: Image, entries: seq<Entry>, files: seq<UserFileInput>, attrs: seq<Attr>, blockSize: nat,
                     macTime: u32, nfd: Normalizer)
    returns (r: Result<nat, VolumeError>, ghost v: Assembled, ghost f: First, ghost m: Map)
    requires blockSize < U32_LIMIT && |entries| <= MOST_ENTRIES && |attrs| <= MOST_RECORDS && InputsInRange(files)
    modifies out, (set i | 0 <= i < |entries| :: entries[i])`hasAttributes
    modifies EntriesOf(PlannerFiles(files))`size, EntriesOf(PlannerFiles(files))`blocks, EntriesOf(PlannerFiles(files))`extent
    ensures StageOf(r) ==
      StageFor(f, m, TaggedAll(old(Views(entries)), attrs), files, attrs, blockSize, macTime, nfd, out.capacity)
    ensures macTime != 0 ==> Shaped(f, m, TaggedAll(old(Views(entries)), attrs), files, attrs, blockSize, nfd)
    ensures r.Ok? ==> v.layout == m
    ensures r.Err? && r.error.PadFailed? ==> r.error.tree == FirstUnpadded(m, f.pc, f.pe)
    ensures r.Ok? ==>
      IsBuild(out.buf, old(out.buf), v, old(Views(entries)), Views(entries), Namings(entries, files), files, attrs,
              blockSize, macTime, nfd)
    ensures r.Ok? ==> EntriesPlaced(files, v.layout) && r.value == SizeOf(v.layout)
    ensures r.Ok? ==> Writable(out.capacity, v.layout, files)
    ensures r.Err? && (r.error.WriteFailedAt? || r.error.FileFailed?) ==>
      Attempted(v, Views(entries), files, blockSize, macTime) && !Writable(out.capacity, v.layout, files)
    ensures r.Err? ==> r.error.ZeroMacTime? || PlanError(Some(r.error)) || LateError(r.error, blockSize)
  {
    hide Writable, Attempted, Kept, Laid, Completed, IsVolume, Settled, Views, InputsInRange, PlanError, LateError,
         PlacedAt, LastFor;
    hide CatalogPacks, AttributesPack, Placeable, PadsAll, Shaped;
    v, f, m := NothingAssembled(), NothingFirst(), NoMap();
    if macTime == 0 {
      return Err(ZeroMacTime), v, f, m;
    }
    ghost var before := Views(entries);
    TagEntries(entries, attrs);
    ghost var tagged := Views(entries);
    forall k | 0 <= k < |entries| ensures tagged[k] == Tagged(before[k], attrs) {
    }
    assert tagged == TaggedAll(before, attrs);
    var failed, plan, extents, attributes;
    ghost var vs;
    failed, plan, extents, attributes, m, vs, f := PackAndPlan(entries, files, attrs, blockSize, nfd);
    if failed.Some? {
      EarlyError(failed.value);
      return Err(failed.value), v, f, m;
    }
    forall k | 0 <= k < |entries|
      ensures SameButPlan(tagged[k], entries[k].View())
      ensures entries[k] !in EntriesOf(PlannerFiles(files)) ==> entries[k].View() == tagged[k]
    {
    }
    EntriesDoFollow(entries, files, attrs, m, before);
    r, v := Finish(out, entries, files, plan.value, extents, attributes, macTime, attrs, blockSize, nfd, m, vs, f);
    if r.Err? {
      LateStage(r.error, blockSize);
    }
  }
}
