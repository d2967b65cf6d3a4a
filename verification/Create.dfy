/** From the source folder to a volume: scan the tree, write what was found. What the
    stages promise one by one, put together. */
module Create {
  import opened Bytes
  import opened Wrappers
  import opened Unicode
  import opened Sorting
  import opened Catalog
  import opened CatalogTheorems
  import opened Attributes
  import opened Geometry
  import opened Layout
  import opened TreeShape
  import opened Image
  import opened Volume
  import opened VolumeWriter
  import opened VolumeBuilder
  import opened Mount
  import opened Walk
  import opened WalkTheorems

  /** "com.apple.FinderInfo" and "disk image" */
  const FINDER_INFO: seq<Rune> := [99, 111, 109, 46, 97, 112, 112, 108, 101, 46, 70, 105, 110, 100, 101, 114, 73, 110, 102, 111]
  const DEFAULT_NAME: seq<Rune> := [100, 105, 115, 107, 32, 105, 109, 97, 103, 101]

  datatype CreateError =
    | WalkFailed(walk: WalkError)
    | BadFinderInfo(size: nat)
    | VolumeFailed(volume: VolumeError)

  /** What is given from outside stays within the volume's own bounds. */
  ghost predicate WithinBounds(ps: seq<Pending>) {
    && Sizable(ps) && |ps| < MOST_ENTRIES && |AllAttrs(ps)| < MOST_RECORDS && NamesGiven(ps)
    && forall i :: 0 <= i < |ps| ==> DataSize(ps[i].node) <= WIDE
  }

  function VolumeNameFor(name: seq<Rune>): seq<Rune> {
    if name == [] then DEFAULT_NAME else name
  }

  function FinderAttr(info: Option<seq<byte>>): seq<Attr> {
    match info
    case None => []
    case Some(data) => [Attr(ROOT_FOLDER, FINDER_INFO, data)]
  }

  /** The volume in `buf` is that of the tree. */
  ghost predicate Written(buf: seq<byte>, entries: seq<Entry>, files: seq<UserFileInput>, attrs: seq<Attr>, v: Assembled,
                          ps: seq<Pending>, rootName: Name, nfd: Normalizer)
    reads entries, InputEntries(files)
  {
    && Walked(Views(entries), ps, rootName, nfd) && Sizable(ps) && |entries| == |ps| + 1
    && files == FilesOf(entries[1..], ps)
    && IsVolume(v, Views(entries), attrs, nfd, files) && EntriesPlaced(files, v.layout)
    && Completed(buf, [], v.layout, v.parts)
  }

  /** What else a scan settles: whose attributes are whose, tags, modes and owners, and
      the counters of the header. */
  ghost predicate Detailed(entries: seq<Entry>, attrs: seq<Attr>, v: Assembled, ps: seq<Pending>, info: Option<seq<byte>>,
                           time: u32, ownerID: u32, groupID: u32)
    reads entries
  {
    && |entries| == |ps| + 1
    && Stamped(entries[1..], ps, Dates(time, time, time, time, time), ownerID, groupID)
    && RootStamped(entries[0], Dates(time, time, time, time, time), ownerID, groupID)
    && |FinderAttr(info)| <= |attrs| && attrs[|attrs| - |FinderAttr(info)|..] == FinderAttr(info)
    && Attributed(attrs[..|attrs| - |FinderAttr(info)|], ps)
    && TagsTrue(Views(entries), attrs)
    && CountsAre(Views(entries), v.header.fileCount, v.header.folderCount) && v.header.macTime == time
  }

  /** An entry is tagged exactly if some attribute names its ID. */
  ghost predicate TagsTrue(vs: seq<EntryView>, attrs: seq<Attr>) {
    forall k :: 0 <= k < |vs| ==> (vs[k].hasAttributes <==> exists j :: 0 <= j < |attrs| && attrs[j].fileID == vs[k].cnid)
  }

  lemma TagsAreTrue(before: seq<EntryView>, vs: seq<EntryView>, naming: seq<Option<nat>>, sizes: seq<u64>, attrs: seq<Attr>,
                    m: Map)
    requires EntriesFollow(before, vs, naming, sizes, attrs, m)
    requires forall k :: 0 <= k < |before| ==> !before[k].hasAttributes
    ensures TagsTrue(vs, attrs)
  {
    forall k | 0 <= k < |vs|
      ensures vs[k].hasAttributes <==> exists j :: 0 <= j < |attrs| && attrs[j].fileID == vs[k].cnid
    {
      TagOf(before, vs, naming, sizes, attrs, m, k);
    }
    hide EntriesFollow;
  }

  // ----- the entries through the build

  /** Tagging and planning leave what the walk established. */
  lemma ScannedStill(before: seq<EntryView>, after: seq<EntryView>, naming: seq<Option<nat>>, sizes: seq<u64>,
                     attrs: seq<Attr>, m: Map, ps: seq<Pending>, rootName: Name, nfd: Normalizer)
    requires Walked(before, ps, rootName, nfd) && EntriesFollow(before, after, naming, sizes, attrs, m)
    ensures Walked(after, ps, rootName, nfd)
  {
    hide NameFor, Children, Subfolders, NoClash, Numbered, NamesGiven, NeverEmpties;
    forall k | 0 <= k < |before| ensures SameWalk(before[k], after[k]) {
      assert PlannedView(Tagged(before[k], attrs), after[k], naming[k], sizes, m);
    }
    forall i | 0 <= i < |ps| ensures EntryFor(after[i + 1], ps[i], nfd) {
      assert EntryFor(before[i + 1], ps[i], nfd) && SameWalk(before[i + 1], after[i + 1]);
    }
    forall i | 0 <= i < |after| ensures FolderCounted(after[i], ps) {
      assert FolderCounted(before[i], ps) && SameWalk(before[i], after[i]);
    }
    assert SameWalk(before[0], after[0]);
  }

  /** What the walk decides of an entry. */
  ghost predicate SameWalk(a: EntryView, b: EntryView) {
    && a.cnid == b.cnid && a.parent == b.parent && a.name == b.name && a.kind == b.kind
    && a.valence == b.valence && a.subFolders == b.subFolders
  }

  lemma WalkedTagged(vs: seq<EntryView>, attrs: seq<Attr>, ps: seq<Pending>, rootName: Name, nfd: Normalizer)
    requires Walked(vs, ps, rootName, nfd) && Sizable(ps)
    ensures CatalogPacks(TaggedAll(vs, attrs))
  {
    WalkedCatalogPacks(vs, ps, rootName, nfd);
    hide Walked, AllKnown, DistinctKeys, CatalogRecords, Sizable;
    TagsKeepObjects(vs, attrs);
    AllKnownStill(vs, TaggedAll(vs, attrs));
    DistinctStill(vs, TaggedAll(vs, attrs));
  }

  lemma TagsKeepObjects(vs: seq<EntryView>, attrs: seq<Attr>)
    ensures SameObjects(vs, TaggedAll(vs, attrs))
  {
  }

  // ----- the files

  lemma {:induction false} FilesKnown(es: seq<Entry>, ps: seq<Pending>, k: nat) returns (i: nat)
    requires |es| == |ps| && Sizable(ps) && k < |FilesOf(es, ps)|
    ensures i < |ps| && !ps[i].node.Dir? && FilesOf(es, ps)[k] == UserFileInput(es[i], DataSize(ps[i].node), SourceOf(ps[i].node))
    decreases |ps|
  {
    var n := |ps| - 1;
    var front := FilesOf(es[..n], ps[..n]);
    if k < |front| {
      i := FilesKnown(es[..n], ps[..n], k);
    } else {
      i := n;
    }
  }

  /** Every node that is not a directory has its file, and no later file has its entry. */
  lemma {:induction false} FileListed(es: seq<Entry>, ps: seq<Pending>, i: nat) returns (j: nat)
    requires |es| == |ps| && Sizable(ps) && i < |ps| && !ps[i].node.Dir?
    requires forall a, b :: 0 <= a < b < |es| ==> es[a] != es[b]
    ensures j < |FilesOf(es, ps)|
    ensures FilesOf(es, ps)[j] == UserFileInput(es[i], DataSize(ps[i].node), SourceOf(ps[i].node))
    ensures forall k :: j < k < |FilesOf(es, ps)| ==> FilesOf(es, ps)[k].entry != es[i]
    decreases |ps|
  {
    var n := |ps| - 1;
    var front := FilesOf(es[..n], ps[..n]);
    if i < n {
      j := FileListed(es[..n], ps[..n], i);
    } else {
      j := |front|;
    }
  }

  lemma {:induction false} FilesBounded(es: seq<Entry>, ps: seq<Pending>)
    requires |es| == |ps| && Sizable(ps) && forall i :: 0 <= i < |ps| ==> DataSize(ps[i].node) <= WIDE
    ensures |FilesOf(es, ps)| <= |ps|
    ensures forall k :: 0 <= k < |FilesOf(es, ps)| ==> FilesOf(es, ps)[k].size <= WIDE
    decreases |ps|
  {
    if ps != [] {
      var n := |ps| - 1;
      FilesBounded(es[..n], ps[..n]);
    }
  }

  lemma FilesInRange(es: seq<Entry>, ps: seq<Pending>)
    requires |es| == |ps| && WithinBounds(ps)
    ensures InputsInRange(FilesOf(es, ps))
  {
    FilesBounded(es, ps);
    hide AllAttrs, NamesGiven;
  }

  /** Entries with different IDs are different objects. */
  lemma EntriesApart(entries: seq<Entry>, ps: seq<Pending>, rootName: Name, nfd: Normalizer)
    requires Walked(Views(entries), ps, rootName, nfd)
    ensures forall a, b :: 0 <= a < b < |entries| ==> entries[a] != entries[b]
  {
    hide Walked;
    forall a, b | 0 <= a < b < |entries| ensures entries[a] != entries[b] {
      IdsAreDistinct(Views(entries), ps, rootName, nfd, a, b);
      assert Views(entries)[a] == entries[a].View() && Views(entries)[b] == entries[b].View();
    }
  }

  // ----- the volume of a tree

  /** Scan and write. The duplicate check of the packer cannot be what fails, and
      neither can the clock: a zero time is replaced. */
  method ScanAndWrite(scratch: Image, kids: seq<Node>, volumeName: seq<Rune>, nfd: Normalizer, ownerID: u32, groupID: u32,
                      finderInfo: Option<seq<byte>>, blockSize: nat, time: u32)
    returns (r: Result<nat, CreateError>, entries: seq<Entry>, files: seq<UserFileInput>, attrs: seq<Attr>,
             ghost ps: seq<Pending>, ghost v: Assembled)
    requires WithinBounds(Listing(kids, 2, FIRST_USER)) && blockSize < U32_LIMIT && NeverEmpties(nfd) && scratch.buf == []
    modifies scratch
    ensures ps == Listing(kids, 2, FIRST_USER)
    ensures r.Ok? ==> Written(scratch.buf, entries, files, attrs, v, ps, Utf16(nfd(VolumeNameFor(volumeName))), nfd)
    ensures r.Ok? ==> r.value == SizeOf(v.layout) && attrs == AllAttrs(ps) + FinderAttr(finderInfo)
    ensures r.Ok? ==> Detailed(entries, attrs, v, ps, finderInfo, if time == 0 then 1 else time, ownerID, groupID)
    ensures r.Err? && r.error.VolumeFailed? ==> !r.error.volume.CatalogFailed? && !r.error.volume.ZeroMacTime?
    ensures r.Err? && r.error.WalkFailed? ==>
      |Utf16(nfd(VolumeNameFor(volumeName)))| > MAX_NAME || !NoClash(ps, nfd) || !NamesShort(ps, nfd)
    ensures r.Err? && r.error.BadFinderInfo? ==> finderInfo.Some? && |finderInfo.value| == r.error.size != 32
  {
    hide Stamped, RootStamped, Attributed, Untagged, CountsAre, TagsTrue, Settled, Walked, Scanned, Sizable, NoClash,
         NamesShort, NamesGiven, NeverEmpties, Listing, FilesOf, AllAttrs, Views, Utf16, IsBuild, IsVolume,
         Completed, EntriesPlaced, Shaped, EntriesFollow, StageFor, Writable, Attempted, IsWalkError, LateError, InputsInRange;
    var macTime: u32 := if time == 0 then 1 else time;
    var failed;
    ghost var rootName := Utf16(nfd(VolumeNameFor(volumeName)));
    v := NothingAssembled();
    failed, entries, files, attrs, ps :=
      WalkTree(kids, VolumeNameFor(volumeName), nfd, Dates(macTime, macTime, macTime, macTime, macTime), ownerID, groupID);
    if failed.Some? {
      return Err(WalkFailed(failed.value)), entries, files, attrs, ps, v;
    }
    if finderInfo.Some? {
      if |finderInfo.value| != 32 {
        return Err(BadFinderInfo(|finderInfo.value|)), entries, files, attrs, ps, v;
      }
      attrs := attrs + [Attr(ROOT_FOLDER, FINDER_INFO, finderInfo.value)];
    }
    ghost var before, walked := Views(entries), attrs[..|attrs| - |FinderAttr(finderInfo)|];
    assert walked == AllAttrs(ps) && attrs[|attrs| - |FinderAttr(finderInfo)|..] == FinderAttr(finderInfo);
    NoTags(entries);
    IsWalked(before, kids, rootName, nfd);
    FilesInRange(entries[1..], ps);
    FilesFrom(entries, files, ps);
    WalkedTagged(before, attrs, ps, rootName, nfd);
    var written;
    ghost var f, m;
    written, v, f, m := WriteVolume(scratch, entries, files, attrs, blockSize, macTime, nfd);
    if written.Err? {
      NotTheCatalog(written, f, m, TaggedAll(before, attrs), files, attrs, blockSize, macTime, nfd, scratch.capacity);
      return Err(VolumeFailed(written.error)), entries, files, attrs, ps, v;
    }
    BuildParts(scratch.buf, v, before, Views(entries), Namings(entries, files), files, attrs, blockSize, macTime, nfd);
    TagsAreTrue(before, Views(entries), Namings(entries, files), SizesOf(files), attrs, v.layout);
    ScannedStill(before, Views(entries), Namings(entries, files), SizesOf(files), attrs, v.layout, ps, rootName, nfd);
    return Ok(written.value), entries, files, attrs, ps, v;
  }

  lemma IsWalked(vs: seq<EntryView>, kids: seq<Node>, rootName: Name, nfd: Normalizer)
    requires Scanned(vs, Listing(kids, 2, FIRST_USER), rootName, nfd) && NoClash(Listing(kids, 2, FIRST_USER), nfd)
    requires NamesGiven(Listing(kids, 2, FIRST_USER)) && NeverEmpties(nfd)
    ensures Walked(vs, Listing(kids, 2, FIRST_USER), rootName, nfd)
  {
    ListingNumbered(kids, 2, FIRST_USER);
    hide Scanned, NoClash, NamesGiven, NeverEmpties, Listing, Numbered;
  }

  /** The files' entries are among the entries. */
  lemma FilesFrom(entries: seq<Entry>, files: seq<UserFileInput>, ps: seq<Pending>)
    requires |entries| == |ps| + 1 && Sizable(ps) && files == FilesOf(entries[1..], ps)
    ensures forall k :: 0 <= k < |files| ==> files[k].entry in entries
  {
    hide FilesOf, Sizable;
    forall k | 0 <= k < |files| ensures files[k].entry in entries {
      var i := FilesKnown(entries[1..], ps, k);
      assert entries[1..][i] == entries[i + 1];
    }
  }

  lemma NotTheCatalog(r: Result<nat, VolumeError>, f: First, m: Map, vs: seq<EntryView>, files: seq<UserFileInput>,
                      attrs: seq<Attr>, blockSize: nat, macTime: u32, nfd: Normalizer, capacity: nat)
    requires StageOf(r) == StageFor(f, m, vs, files, attrs, blockSize, macTime, nfd, capacity)
    requires macTime != 0 && CatalogPacks(vs)
    ensures r.Err? ==> !r.error.CatalogFailed? && !r.error.ZeroMacTime?
  {
    hide CatalogPacks, AttributesPack, Placeable, PadsAll, Writable;
  }

  lemma BuildParts(img: seq<byte>, v: Assembled, before: seq<EntryView>, vs: seq<EntryView>, naming: seq<Option<nat>>,
                   files: seq<UserFileInput>, attrs: seq<Attr>, blockSize: nat, macTime: u32, nfd: Normalizer)
    requires IsBuild(img, [], v, before, vs, naming, files, attrs, blockSize, macTime, nfd)
    ensures IsVolume(v, vs, attrs, nfd, files) && Completed(img, [], v.layout, v.parts)
    ensures EntriesFollow(before, vs, naming, SizesOf(files), attrs, v.layout)
    ensures CountsAre(vs, v.header.fileCount, v.header.folderCount) && v.header.macTime == macTime
  {
    hide IsVolume, Completed, EntriesFollow, TreesSettled, CountsAre;
  }

  lemma NoTags(entries: seq<Entry>)
    requires Untagged(entries)
    ensures forall k :: 0 <= k < |entries| ==> !Views(entries)[k].hasAttributes
  {
  }

  /** The bytes a node should have in the volume. */
  function BytesOf(n: Node): seq<byte> {
    if DataSize(n) == 0 || SourceOf(n).NoFile? then [] else SourceOf(n).data
  }

  /** Every file and link of the source tree, at any depth, reads back from the volume
      under the ID of its directory and its name, byte for byte. */
  lemma TreeFileReadsBack(scratch: Image, entries: seq<Entry>, files: seq<UserFileInput>, attrs: seq<Attr>, v: Assembled,
                          ps: seq<Pending>, rootName: Name, nfd: Normalizer, i: nat)
    requires Written(scratch.buf, entries, files, attrs, v, ps, rootName, nfd) && v.layout.blockSize >= LEAST_SAFE_BLOCK
    requires i < |ps| && (ps[i].node.Regular? || ps[i].node.Link?)
    ensures var read := ReadFile(scratch.buf, ps[i].parent, Utf16(nfd(ps[i].node.name)));
      && (ps[i].node.Link? ==> read == Some(ps[i].node.target))
      && (ps[i].node.Regular? && ps[i].node.size == 0 ==> read == Some([]))
      && (ps[i].node.Regular? && ps[i].node.size > 0 ==>
            && ps[i].node.source.Opened? && |ps[i].node.source.data| == ps[i].node.size
            && read == Some(ps[i].node.source.data))
  {
    hide Written, ReadFile, BytesOf, Utf16;
    NodeReadsBack(scratch, entries, files, attrs, v, ps, rootName, nfd, i);
    BytesOfNode(ps[i].node);
  }

  lemma BytesOfNode(n: Node)
    requires |BytesOf(n)| == DataSize(n)
    ensures n.Link? ==> BytesOf(n) == n.target
    ensures n.Regular? && n.size == 0 ==> BytesOf(n) == []
    ensures n.Regular? && n.size > 0 ==>
      n.source.Opened? && |n.source.data| == n.size && BytesOf(n) == n.source.data
  {
  }

  lemma NodeReadsBack(scratch: Image, entries: seq<Entry>, files: seq<UserFileInput>, attrs: seq<Attr>, v: Assembled,
                          ps: seq<Pending>, rootName: Name, nfd: Normalizer, i: nat)
    requires Written(scratch.buf, entries, files, attrs, v, ps, rootName, nfd) && v.layout.blockSize >= LEAST_SAFE_BLOCK
    requires i < |ps| && !ps[i].node.Dir?
    ensures ReadFile(scratch.buf, ps[i].parent, NameFor(ps[i], nfd)) == Some(BytesOf(ps[i].node))
    ensures |BytesOf(ps[i].node)| == DataSize(ps[i].node)
  {
    hide Walked, Sizable, FilesOf, IsVolume, Completed, EntriesPlaced, NameFor, ReadFile;
    EntriesApart(entries, ps, rootName, nfd);
    var es := entries[1..];
    forall a, b | 0 <= a < b < |es| ensures es[a] != es[b] {
      assert es[a] == entries[a + 1] && es[b] == entries[b + 1];
    }
    var j := FileListed(es, ps, i);
    NodeEntry(Views(entries), ps, rootName, nfd, i);
    assert es[i] == entries[i + 1] && Views(entries)[i + 1] == entries[i + 1].View();
    assert LastFor(PlannerFiles(files), j, |files|);
    hide LastFor;
    WrittenFileReadsBack(scratch, entries, v, attrs, nfd, files, j, i + 1);
  }

  lemma NodeEntry(vs: seq<EntryView>, ps: seq<Pending>, rootName: Name, nfd: Normalizer, i: nat)
    requires Walked(vs, ps, rootName, nfd) && i < |ps| && Sizable(ps)
    ensures i + 1 < |vs| && vs[i + 1].parent == ps[i].parent && vs[i + 1].name == NameFor(ps[i], nfd)
    ensures vs[i + 1].cnid != ROOT_PARENT
    ensures !ps[i].node.Dir? ==> vs[i + 1].kind.File? || vs[i + 1].kind.Symlink?
  {
    assert EntryFor(vs[i + 1], ps[i], nfd);
    hide NameFor, FolderCounted, NoClash, NamesGiven, NeverEmpties;
  }

  // ----- by path

  /** The node a path of names leads to, from a directory's listing. */
  predicate LeadsTo(kids: seq<Node>, path: Path, node: Node)
    decreases |path|
  {
    && path != []
    && exists i :: 0 <= i < |kids| && kids[i].name == path[0]
         && if |path| == 1 then kids[i] == node else kids[i].Dir? && LeadsTo(kids[i].kids, path[1..], node)
  }

  function FolderId(rec: seq<byte>): Option<nat> {
    if |rec| == 88 && Get16(rec, 0) == FOLDER_RECORD then Some(Get32(rec, 8)) else None
  }

  /** A reader that resolves a path from a folder, name by name. */
  function ReadPath(img: seq<byte>, folder: nat, path: seq<Name>): Option<seq<byte>>
    decreases |path|
  {
    if path == [] then None
    else if |path| == 1 then ReadFile(img, folder, path[0])
    else
      match ReadRecordOf(img, folder, path[0])
      case None => None
      case Some(rec) =>
        match FolderId(rec)
        case None => None
        case Some(id) => ReadPath(img, id, path[1..])
  }

  function NamesOf(path: Path, nfd: Normalizer): (names: seq<Name>)
    ensures |names| == |path| && forall i :: 0 <= i < |path| ==> names[i] == Utf16(nfd(path[i]))
  {
    seq(|path|, i requires 0 <= i < |path| => Utf16(nfd(path[i])))
  }

  ghost predicate Among(some: seq<Pending>, all: seq<Pending>) {
    forall p :: p in some ==> p in all
  }

  /** A supported node of a directory is listed under it, its contents with it. */
  lemma {:induction false} NodeListed(kids: seq<Node>, parent: nat, next: nat, i: nat) returns (id: nat)
    requires i < |kids| && !kids[i].Other?
    ensures Pending(kids[i], id, parent) in Listing(kids, parent, next)
    ensures kids[i].Dir? ==> Among(Listing(kids[i].kids, id, id + 1), Listing(kids, parent, next))
    decreases |kids|
  {
    var n := |kids| - 1;
    var front := Listing(kids[..n], parent, next);
    if i < n {
      id := NodeListed(kids[..n], parent, next, i);
      assert kids[..n][i] == kids[i];
    } else {
      id := next + |front|;
      assert Visited(kids[n], parent, id)[0] == Pending(kids[n], id, parent);
      if kids[n].Dir? {
        assert Visited(kids[n], parent, id) == [Pending(kids[n], id, parent)] + Listing(kids[n].kids, id, id + 1);
      }
    }
  }

  /** A directory of the tree is found under its parent's ID and name, with its own ID. */
  lemma TreeFolderFound(img: seq<byte>, entries: seq<Entry>, files: seq<UserFileInput>, attrs: seq<Attr>, v: Assembled,
                        ps: seq<Pending>, rootName: Name, nfd: Normalizer, i: nat)
    requires Written(img, entries, files, attrs, v, ps, rootName, nfd) && v.layout.blockSize >= LEAST_SAFE_BLOCK
    requires i < |ps| && ps[i].node.Dir?
    ensures ReadRecordOf(img, ps[i].parent, NameFor(ps[i], nfd)).Some?
    ensures FolderId(ReadRecordOf(img, ps[i].parent, NameFor(ps[i], nfd)).value) == Some(ps[i].cnid)
  {
    var vs := Views(entries);
    hide Sizable, FilesOf, IsVolume, Completed, EntriesPlaced, NameFor, ReadRecordOf;
    NodeEntry(vs, ps, rootName, nfd, i);
    FolderEntry(vs, ps, rootName, nfd, i);
    hide Walked;
    EntryRecordFound(img, v, vs, attrs, nfd, files, i + 1);
    FolderRecordReads(vs[i + 1]);
    hide Get16, Get32, FolderRecord;
  }

  lemma FolderEntry(vs: seq<EntryView>, ps: seq<Pending>, rootName: Name, nfd: Normalizer, i: nat)
    requires Walked(vs, ps, rootName, nfd) && i < |ps| && ps[i].node.Dir?
    ensures i + 1 < |vs| && vs[i + 1].cnid == ps[i].cnid && vs[i + 1].kind.Folder?
  {
    assert EntryFor(vs[i + 1], ps[i], nfd);
    hide NameFor, FolderCounted, NoClash, NamesGiven, NeverEmpties;
  }

  /** Every file of the source folder reads back from the volume by its path. */
  lemma PathReadsBack(scratch: Image, entries: seq<Entry>, files: seq<UserFileInput>, attrs: seq<Attr>, v: Assembled,
                      kids: seq<Node>, rootName: Name, nfd: Normalizer, path: Path, node: Node)
    requires Written(scratch.buf, entries, files, attrs, v, Listing(kids, 2, FIRST_USER), rootName, nfd)
    requires v.layout.blockSize >= LEAST_SAFE_BLOCK && LeadsTo(kids, path, node) && !node.Dir? && !node.Other?
    ensures var read := ReadPath(scratch.buf, 2, NamesOf(path, nfd));
      && (node.Link? ==> read == Some(node.target))
      && (node.Regular? && node.size == 0 ==> read == Some([]))
      && (node.Regular? && node.size > 0 ==>
            node.source.Opened? && |node.source.data| == node.size && read == Some(node.source.data))
  {
    hide Written, ReadPath, BytesOf, LeadsTo, Listing, NamesOf;
    Itself(Listing(kids, 2, FIRST_USER));
    PathReadsFrom(scratch, entries, files, attrs, v, Listing(kids, 2, FIRST_USER), rootName, nfd, kids, 2, FIRST_USER, path, node);
    BytesOfNode(node);
  }

  lemma Itself(ps: seq<Pending>)
    ensures Among(ps, ps)
  {
  }

  lemma {:induction false} PathReadsFrom(scratch: Image, entries: seq<Entry>, files: seq<UserFileInput>, attrs: seq<Attr>,
                                         v: Assembled, ps: seq<Pending>, rootName: Name, nfd: Normalizer, kids: seq<Node>,
                                         parent: nat, next: nat, path: Path, node: Node)
    requires Written(scratch.buf, entries, files, attrs, v, ps, rootName, nfd) && v.layout.blockSize >= LEAST_SAFE_BLOCK
    requires Among(Listing(kids, parent, next), ps) && LeadsTo(kids, path, node) && !node.Dir? && !node.Other?
    ensures ReadPath(scratch.buf, parent, NamesOf(path, nfd)) == Some(BytesOf(node)) && |BytesOf(node)| == DataSize(node)
    decreases |path|
  {
    hide Written, Listing, ReadFile, ReadRecordOf, FolderId, BytesOf, Utf16;
    var k :| 0 <= k < |kids| && kids[k].name == path[0]
      && if |path| == 1 then kids[k] == node else kids[k].Dir? && LeadsTo(kids[k].kids, path[1..], node);
    var id := NodeListed(kids, parent, next, k);
    assert Pending(kids[k], id, parent) in ps;
    var i :| 0 <= i < |ps| && ps[i] == Pending(kids[k], id, parent);
    if |path| == 1 {
      NodeReadsBack(scratch, entries, files, attrs, v, ps, rootName, nfd, i);
    } else {
      TreeFolderFound(scratch.buf, entries, files, attrs, v, ps, rootName, nfd, i);
      assert NamesOf(path, nfd)[1..] == NamesOf(path[1..], nfd);
      PathReadsFrom(scratch, entries, files, attrs, v, ps, rootName, nfd, kids[k].kids, id, id + 1, path[1..], node);
    }
  }
}
