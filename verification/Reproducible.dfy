/** The same inputs give the same volume: two successful builds write identical
    bytes, whatever objects carried the inputs. */
module Reproducible {
  import opened Bytes
  import opened Bits
  import opened Wrappers
  import opened Unicode
  import opened Geometry
  import opened TreeReader
  import opened BTree
  import opened BTreeBuilder
  import opened TreeShape
  import opened Keys
  import opened Sorting
  import opened Catalog
  import opened CatalogTheorems
  import opened Attributes
  import opened Layout
  import opened VolumeHeader
  import opened VolumeWriter
  import opened ForkTree
  import opened TreeIdentity
  import opened VolumeBuilder

  // ----- one tree

  /** Records of the same sizes need the same nodes. */
  lemma SameNodeCount(opts: BuildOpts, p: Packed, p': Packed, blocks: nat, blocks': nat, blockSize: nat)
    requires TreeSettled(opts, p, blocks, blockSize) && TreeSettled(opts, p', blocks', blockSize)
    requires SameSizes(p.records, p'.records)
    ensures blocks == blocks'
  {
    var img: seq<byte> :| BuiltFrom(img, opts, p);
    var img': seq<byte> :| BuiltFrom(img', opts, p');
    BuiltFacts(img, opts, p);
    BuiltFacts(img', opts, p');
    hide ImageHolds, TreeHolds, BlocksFor;
    BuiltSameShape(img, img', opts, p.records, p'.records, p.levels, p'.levels, p.mapNodes, p'.mapNodes, p.header, p'.header);
  }

  /** The same records fill a fork with the same bytes. */
  lemma SameFork(img: seq<byte>, img': seq<byte>, opts: BuildOpts, p: Packed, p': Packed, blocks: nat, blockSize: nat,
                 size: nat, total: nat, total': nat)
    requires TreeSettled(opts, p, blocks, blockSize) && TreeSettled(opts, p', blocks, blockSize) && p.records == p'.records
    requires Fills(img, opts, p, size, total) && Fills(img', opts, p', size, total')
    ensures img == img'
  {
    var one: seq<byte> :| BuiltFrom(one, opts, p);
    var two: seq<byte> :| BuiltFrom(two, opts, p');
    SameRecordsSameBytes(one, two, opts, p, p');
    BuiltFacts(one, opts, p);
    hide BuiltFrom, BlocksFor;
    assert total == total' by {
      AtLeast(total, total', opts.nodeSize);
      AtLeast(total', total, opts.nodeSize);
    }
    StillFills(img', opts, p, p', size, total);
    SameForkBytes(img, img', opts, p, size, total);
  }

  /** Only of an empty tree may the shapes be told apart, and it has none. */
  lemma StillFills(img: seq<byte>, opts: BuildOpts, p: Packed, p': Packed, size: nat, total: nat)
    requires Fills(img, opts, p', size, total) && p.records == p'.records && p.mapNodes == p'.mapNodes
    requires p.header == p'.header && (p.records != [] ==> p.levels == p'.levels)
    ensures Fills(img, opts, p, size, total)
  {
    hide ImageHolds, TreeHolds;
  }

  // ----- the layout

  lemma SameCatalogSizes(img: seq<byte>, img': seq<byte>, vs: seq<EntryView>, vs': seq<EntryView>, p: Packed, p': Packed,
                         size: nat, size': nat, total: nat, total': nat, blocks: nat, blocks': nat, blockSize: nat)
    requires SameObjects(vs, vs') && CatalogFills(img, vs, p, size, total) && CatalogFills(img', vs', p', size', total')
    requires TreeSettled(CatalogOpts(CATALOG_NODE), p, blocks, blockSize)
    requires TreeSettled(CatalogOpts(CATALOG_NODE), p', blocks', blockSize)
    ensures blocks == blocks'
  {
    var one: seq<byte> :| BuiltFrom(one, CatalogOpts(CATALOG_NODE), p);
    var two: seq<byte> :| BuiltFrom(two, CatalogOpts(CATALOG_NODE), p');
    hide Fills, Built, CatalogRecords, Sorted, SameObjects, TreeSettled;
    assert HoldsCatalog(one, vs, CATALOG_NODE, p) && HoldsCatalog(two, vs', CATALOG_NODE, p');
    hide CatalogFills, HoldsCatalog, BuiltFrom;
    SecondPassIsStable(one, two, vs, vs', CATALOG_NODE, p, p');
    SameNodeCount(CatalogOpts(CATALOG_NODE), p, p', blocks, blocks', blockSize);
  }

  lemma SameAttrRecords(p: Packed, p': Packed, attrs: seq<Attr>, attrs': seq<Attr>, nfd: Normalizer)
    requires HoldsAttrRecords(p, attrs, nfd) && HoldsAttrRecords(p', attrs', nfd) && multiset(attrs) == multiset(attrs')
    ensures p.records == p'.records
  {
    hide AttrRecords, CompareAttr, IsAttrKey, StrictOrder, Sorted, Accepted;
    Attributes.RecordsOfPermutation(attrs, attrs', nfd);
    AttrOrder();
    SortedIsUnique(p.records, p'.records, AttrLess(), IsAttrKey);
  }

  lemma SameCounts(files: seq<UserFile>, files': seq<UserFile>, blockSize: nat)
    requires blockSize > 0 && |files| == |files'| && forall i :: 0 <= i < |files| ==> files[i].size == files'[i].size
    ensures CountsFor(files, blockSize) == CountsFor(files', blockSize)
  {
    hide Ceil;
  }

  /** The least fixed point is one number. */
  lemma OneFixedPoint(a: nat, b: nat, others: nat, least: nat, blockSize: nat)
    requires blockSize > 0 && LeastFixedPoint(a, others, least, blockSize) && LeastFixedPoint(b, others, least, blockSize)
    ensures a == b
  {
    hide Needed;
  }

  lemma SameMap(m: Map, m': Map)
    requires m.Planned() && m'.Planned() && m.blockSize == m'.blockSize && m.counts == m'.counts
    requires m.catalog == m'.catalog && m.extents == m'.extents && m.attrs == m'.attrs
    ensures m == m'
  {
    hide LeastFixedPoint, PowerOfTwo, VolumeBlocks;
    OneFixedPoint(m.alloc, m'.alloc, m.Others(), 4 * m.LargestTree(), m.blockSize);
  }

  // ----- the header and the bitmap

  lemma SameHeader(h: Header, h': Header, m: Map, vs: seq<EntryView>, macTime: u32)
    requires Describes(h, m) && Describes(h', m) && HeaderCounts(h, vs, macTime) && HeaderCounts(h', vs, macTime)
    ensures h == h'
  {
    hide LeastFixedPoint, PowerOfTwo, SumOf, CountsAre;
    StartsFit(m);
    OneCount(vs, h.fileCount, h.folderCount, h'.fileCount, h'.folderCount);
  }

  lemma OneCount(vs: seq<EntryView>, files: nat, folders: nat, files': nat, folders': nat)
    requires CountsAre(vs, files, folders) && CountsAre(vs, files', folders')
    ensures files == files' && folders == folders'
  {
  }

  /** A bitmap is settled by its bits. */
  lemma SameBitmap(a: seq<byte>, b: seq<byte>, m: Map)
    requires MarksPlan(a, m) && MarksPlan(b, m) && |a| == |b|
    ensures a == b
  {
    hide BitAt;
    forall n | 0 <= n < 8 * |a| ensures BitAt(a, n) <==> BitAt(b, n) {
    }
    SameBitsSameBytes(a, b);
  }

  // ----- the volume

  /** Files of the same sizes and contents, in the same order. */
  ghost predicate SameFiles(files: seq<UserFileInput>, files': seq<UserFileInput>) {
    && |files| == |files'|
    && forall i :: 0 <= i < |files| ==> files[i].size == files'[i].size && files[i].source == files'[i].source
  }

  lemma SameTags(before: seq<EntryView>, attrs: seq<Attr>, attrs': seq<Attr>, k: nat)
    requires multiset(attrs) == multiset(attrs') && k < |before|
    ensures Tagged(before[k], attrs) == Tagged(before[k], attrs')
  {
    forall j | 0 <= j < |attrs| ensures exists i :: 0 <= i < |attrs'| && attrs'[i].fileID == attrs[j].fileID {
      assert attrs[j] in multiset(attrs');
      var i :| 0 <= i < |attrs'| && attrs'[i] == attrs[j];
    }
    forall j | 0 <= j < |attrs'| ensures exists i :: 0 <= i < |attrs| && attrs[i].fileID == attrs'[j].fileID {
      assert attrs'[j] in multiset(attrs);
      var i :| 0 <= i < |attrs| && attrs[i] == attrs'[j];
    }
  }

  /** Whatever the planner fills in, the objects are the same. */
  lemma SameEntries(before: seq<EntryView>, vs: seq<EntryView>, vs': seq<EntryView>, naming: seq<Option<nat>>,
                    sizes: seq<u64>, sizes': seq<u64>, attrs: seq<Attr>, attrs': seq<Attr>, m: Map, m': Map)
    requires EntriesFollow(before, vs, naming, sizes, attrs, m) && EntriesFollow(before, vs', naming, sizes', attrs', m')
    ensures SameObjects(vs, vs')
  {
    forall k | 0 <= k < |vs|
      ensures vs[k].cnid == vs'[k].cnid && vs[k].parent == vs'[k].parent && vs[k].name == vs'[k].name && vs[k].kind == vs'[k].kind
    {
      assert PlannedView(Tagged(before[k], attrs), vs[k], naming[k], sizes, m);
      assert PlannedView(Tagged(before[k], attrs'), vs'[k], naming[k], sizes', m');
    }
  }

  /** Under one layout it fills in the same. */
  lemma SameViews(before: seq<EntryView>, vs: seq<EntryView>, vs': seq<EntryView>, naming: seq<Option<nat>>,
                  sizes: seq<u64>, attrs: seq<Attr>, attrs': seq<Attr>, m: Map)
    requires EntriesFollow(before, vs, naming, sizes, attrs, m) && EntriesFollow(before, vs', naming, sizes, attrs', m)
    requires multiset(attrs) == multiset(attrs')
    ensures vs == vs'
  {
    hide Tagged;
    forall k | 0 <= k < |vs| ensures vs[k] == vs'[k] {
      SameTags(before, attrs, attrs', k);
      assert PlannedView(Tagged(before[k], attrs), vs[k], naming[k], sizes, m);
      assert PlannedView(Tagged(before[k], attrs'), vs'[k], naming[k], sizes, m);
    }
  }

  /** What two builds agree on before a byte is compared. */
  lemma SameLayout(v: Assembled, v': Assembled, vs: seq<EntryView>, vs': seq<EntryView>, files: seq<UserFileInput>,
                   files': seq<UserFileInput>, attrs: seq<Attr>, attrs': seq<Attr>, blockSize: nat, macTime: u32, nfd: Normalizer)
    requires IsVolume(v, vs, attrs, nfd, files) && Settled(v, vs, blockSize, macTime)
    requires IsVolume(v', vs', attrs', nfd, files') && Settled(v', vs', blockSize, macTime)
    requires SameObjects(vs, vs') && multiset(attrs) == multiset(attrs') && SameFiles(files, files')
    ensures v.layout == v'.layout && v.attrs.records == v'.attrs.records
  {
    hide Fills, CatalogFills, TreeSettled, HeaderCounts, MarksPlan, HoldsAttrRecords, FilesMatch, ContentsOf, Encode,
         SameObjects,
         LeastFixedPoint, PowerOfTwo, SumOf, CountsFor, VolumeBlocks;
    var m, m' := v.layout, v'.layout;
    assert m.blockSize == m'.blockSize;
    SameAttrRecords(v.attrs, v'.attrs, attrs, attrs', nfd);
    SameAsItself(v.attrs.records);
    SameNodeCount(AttrOpts(), v.attrs, v'.attrs, m.attrs, m'.attrs, m.blockSize);
    SameAsItself(v.extents.records);
    SameNodeCount(ExtentsOpts(), v.extents, v'.extents, m.extents, m'.extents, m.blockSize);
    SameCatalogSizes(v.parts.catalog, v'.parts.catalog, vs, vs', v.catalog, v'.catalog, m.catalog * m.blockSize,
                     m'.catalog * m'.blockSize, v.catalogNodes, v'.catalogNodes, m.catalog, m'.catalog, m.blockSize);
    SameCounts(PlannerFiles(files), PlannerFiles(files'), m.blockSize);
    SameMap(m, m');
  }

  lemma SameCatalog(v: Assembled, v': Assembled, vs: seq<EntryView>, m: Map)
    requires CatalogFills(v.parts.catalog, vs, v.catalog, m.catalog * m.blockSize, v.catalogNodes)
    requires CatalogFills(v'.parts.catalog, vs, v'.catalog, m.catalog * m.blockSize, v'.catalogNodes)
    requires TreeSettled(CatalogOpts(CATALOG_NODE), v.catalog, m.catalog, m.blockSize)
    requires TreeSettled(CatalogOpts(CATALOG_NODE), v'.catalog, m.catalog, m.blockSize)
    ensures v.parts.catalog == v'.parts.catalog
  {
    hide Fills, TreeSettled, CatalogRecords, CompareCatalog, IsCatalogKey, StrictOrder, Sorted;
    CatalogOrder();
    SortedIsUnique(v.catalog.records, v'.catalog.records, CatalogLess(), IsCatalogKey);
    SameFork(v.parts.catalog, v'.parts.catalog, CatalogOpts(CATALOG_NODE), v.catalog, v'.catalog, m.catalog, m.blockSize,
             m.catalog * m.blockSize, v.catalogNodes, v'.catalogNodes);
  }

  lemma SameContents(files: seq<UserFileInput>, files': seq<UserFileInput>, counts: seq<nat>)
    requires SameFiles(files, files') && |counts| == |files|
    ensures ContentsOf(files, counts) == ContentsOf(files', counts)
  {
  }

  lemma SameParts(v: Assembled, v': Assembled, vs: seq<EntryView>, files: seq<UserFileInput>, files': seq<UserFileInput>,
                  attrs: seq<Attr>, attrs': seq<Attr>, blockSize: nat, macTime: u32, nfd: Normalizer)
    requires IsVolume(v, vs, attrs, nfd, files) && Settled(v, vs, blockSize, macTime)
    requires IsVolume(v', vs, attrs', nfd, files') && Settled(v', vs, blockSize, macTime)
    requires v.layout == v'.layout && v.attrs.records == v'.attrs.records && SameFiles(files, files')
    ensures v.parts == v'.parts
  {
    hide Fills, CatalogFills, TreeSettled, HeaderCounts, MarksPlan, HoldsAttrRecords, FilesMatch, ContentsOf, Encode, Describes,
         CountsFor, SameFiles;
    var m := v.layout;
    SameHeader(v.header, v'.header, m, vs, macTime);
    SameBitmap(v.parts.bitmap, v'.parts.bitmap, m);
    SameCatalog(v, v', vs, m);
    SameFork(v.parts.extents, v'.parts.extents, ExtentsOpts(), v.extents, v'.extents, m.extents, m.blockSize,
             m.extents * m.blockSize, v.extentsNodes, v'.extentsNodes);
    SameFork(v.parts.attrs, v'.parts.attrs, AttrOpts(), v.attrs, v'.attrs, m.attrs, m.blockSize,
             m.attrs * m.blockSize, v.attrsNodes, v'.attrsNodes);
    SameContents(files, files', m.counts);
  }

  /** Reproducible builds: entries with the same initial values, files of the same
      sizes and contents, the same attributes in any order, the same block size and
      time give the same image, byte for byte. */
  lemma SameInputsSameVolume(img: seq<byte>, img': seq<byte>, v: Assembled, v': Assembled, before: seq<EntryView>,
                             vs: seq<EntryView>, vs': seq<EntryView>, naming: seq<Option<nat>>, files: seq<UserFileInput>,
                             files': seq<UserFileInput>, attrs: seq<Attr>, attrs': seq<Attr>, blockSize: nat, macTime: u32,
                             nfd: Normalizer)
    requires IsBuild(img, [], v, before, vs, naming, files, attrs, blockSize, macTime, nfd)
    requires IsBuild(img', [], v', before, vs', naming, files', attrs', blockSize, macTime, nfd)
    requires multiset(attrs) == multiset(attrs') && SameFiles(files, files')
    ensures img == img' && vs == vs'
  {
    hide IsVolume, Settled, EntriesFollow, SameFiles, SameObjects;
    SameEntries(before, vs, vs', naming, SizesOf(files), SizesOf(files'), attrs, attrs', v.layout, v'.layout);
    SameLayout(v, v', vs, vs', files, files', attrs, attrs', blockSize, macTime, nfd);
    SameSizesOf(files, files');
    SameViews(before, vs, vs', naming, SizesOf(files), attrs, attrs', v.layout);
    SameParts(v, v', vs, files, files', attrs, attrs', blockSize, macTime, nfd);
  }

  lemma SameSizesOf(files: seq<UserFileInput>, files': seq<UserFileInput>)
    requires SameFiles(files, files')
    ensures SizesOf(files) == SizesOf(files')
  {
  }
}
