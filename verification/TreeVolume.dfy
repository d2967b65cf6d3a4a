/** The volume of a source folder against the folder itself: counters, records and
    attributes of every node, in the terms of the tree. */
module TreeVolume {
  import opened Bytes
  import opened Wrappers
  import opened Seqs
  import opened Unicode
  import opened Catalog
  import opened Attributes
  import opened Layout
  import opened VolumeHeader
  import opened Image
  import opened Volume
  import opened VolumeWriter
  import opened VolumeBuilder
  import opened Mount
  import opened Walk
  import opened WalkTheorems
  import opened Create

  // ----- counters

  /** Which nodes of the listing are not directories, and which are. */
  ghost function FilesListed(ps: seq<Pending>): (found: set<nat>)
    ensures forall i: nat :: i in found <==> i < |ps| && !ps[i].node.Dir?
  {
    set i: nat | i < |ps| && !ps[i].node.Dir?
  }

  ghost function FoldersListed(ps: seq<Pending>): (found: set<nat>)
    ensures forall i: nat :: i in found <==> i < |ps| && ps[i].node.Dir?
  {
    set i: nat | i < |ps| && ps[i].node.Dir?
  }

  lemma WalkedCounts(vs: seq<EntryView>, ps: seq<Pending>, rootName: Name, nfd: Normalizer)
    requires Walked(vs, ps, rootName, nfd) && Sizable(ps)
    ensures CountsAre(vs, |FilesListed(ps)|, |FoldersListed(ps)|)
  {
    forall i | 0 <= i < |ps| ensures EntryFor(vs[i + 1], ps[i], nfd) && vs[i + 1].cnid >= FIRST_USER {
    }
    hide NameFor, FolderCounted, NoClash, NamesGiven, NeverEmpties, DataSize;
    forall i: nat
      ensures i in FilesIn(vs) <==> i > 0 && i - 1 in FilesListed(ps)
      ensures i in FoldersIn(vs) <==> i > 0 && i - 1 in FoldersListed(ps)
    {
      assert 0 < i < |vs| ==> EntryFor(vs[i - 1 + 1], ps[i - 1], nfd);
    }
    ShiftedCount(FilesListed(ps), FilesIn(vs));
    ShiftedCount(FoldersListed(ps), FoldersIn(vs));
  }

  /** What bytes 32 and 36 of the header say. */
  ghost predicate CountersRead(img: seq<byte>, files: nat, folders: nat) {
    |img| >= 1536 && Get32(img[1024..1536], 32) == files && Get32(img[1024..1536], 36) == folders
  }

  /** The header's counters are the numbers of nodes that are not
      directories and of those that are, at any depth. */
  lemma TreeIsCounted(img: seq<byte>, entries: seq<Entry>, files: seq<UserFileInput>, attrs: seq<Attr>, v: Assembled,
                      ps: seq<Pending>, rootName: Name, nfd: Normalizer)
    requires Written(img, entries, files, attrs, v, ps, rootName, nfd) && v.layout.blockSize >= LEAST_SAFE_BLOCK
    requires CountsAre(Views(entries), v.header.fileCount, v.header.folderCount)
    ensures CountersRead(img, |FilesListed(ps)|, |FoldersListed(ps)|)
  {
    hide Walked, Sizable, FilesOf, IsVolume, Completed, EntriesPlaced, CountersRead, CountsAre, FilesListed, FoldersListed;
    WalkedCounts(Views(entries), ps, rootName, nfd);
    HeaderCounters(img, v, Views(entries), attrs, nfd, files);
    CountsAreOne(Views(entries), v.header.fileCount, v.header.folderCount, |FilesListed(ps)|, |FoldersListed(ps)|);
  }

  lemma CountsAreOne(vs: seq<EntryView>, files: nat, folders: nat, files': nat, folders': nat)
    requires CountsAre(vs, files, folders) && CountsAre(vs, files', folders')
    ensures files == files' && folders == folders'
  {
  }

  lemma HeaderCounters(img: seq<byte>, v: Assembled, vs: seq<EntryView>, attrs: seq<Attr>, nfd: Normalizer,
                       files: seq<UserFileInput>)
    requires Mounted(img, v, vs, attrs, nfd, files)
    ensures CountersRead(img, v.header.fileCount, v.header.folderCount)
  {
    HeaderFound(img, v, vs, attrs, nfd, files);
    hide Mounted, Describes, HeaderSigned, Get16, Get32, Get64, Encode;
  }

  // ----- attributes

  /** An attribute of the volume's list reads back. */
  lemma ListedAttrReadsBack(img: seq<byte>, entries: seq<Entry>, files: seq<UserFileInput>, attrs: seq<Attr>, v: Assembled,
                            ps: seq<Pending>, rootName: Name, nfd: Normalizer, j: nat)
    requires Written(img, entries, files, attrs, v, ps, rootName, nfd) && v.layout.blockSize >= LEAST_SAFE_BLOCK
    requires j < |attrs|
    ensures ReadAttribute(img, attrs[j].fileID, Utf16(nfd(attrs[j].name))) == Some(attrs[j].data)
  {
    hide Walked, Sizable, FilesOf, IsVolume, Completed, EntriesPlaced, ReadAttribute, Utf16;
    AttributeReadsBack(img, v, Views(entries), attrs, nfd, files, j);
  }

  /** Every extended attribute of every directory and file of the source tree, at any
      depth, reads back from the volume under its node's ID and its name. */
  lemma TreeAttributeReadsBack(img: seq<byte>, entries: seq<Entry>, files: seq<UserFileInput>, attrs: seq<Attr>,
                               v: Assembled, ps: seq<Pending>, rootName: Name, nfd: Normalizer, info: Option<seq<byte>>,
                               time: u32, ownerID: u32, groupID: u32, i: nat, k: nat)
    requires Written(img, entries, files, attrs, v, ps, rootName, nfd) && v.layout.blockSize >= LEAST_SAFE_BLOCK
    requires Detailed(entries, attrs, v, ps, info, time, ownerID, groupID)
    requires i < |ps| && (ps[i].node.Dir? || ps[i].node.Regular?) && k < |ps[i].node.xattrs|
    ensures ReadAttribute(img, ps[i].cnid, Utf16(nfd(ps[i].node.xattrs[k].name))) == Some(ps[i].node.xattrs[k].data)
  {
    hide Written, Stamped, RootStamped, Attributed, TagsTrue, CountsAre, ReadAttribute, Utf16;
    var walked := attrs[..|attrs| - |FinderAttr(info)|];
    var j := NodeAttrsListed(walked, ps, i, k);
    assert attrs[j] == walked[j];
    ListedAttrReadsBack(img, entries, files, attrs, v, ps, rootName, nfd, j);
  }

  /** And the Finder info given for the root, under the root's ID 2 and the name
      "com.apple.FinderInfo". */
  lemma FinderInfoReadsBack(img: seq<byte>, entries: seq<Entry>, files: seq<UserFileInput>, attrs: seq<Attr>, v: Assembled,
                            ps: seq<Pending>, rootName: Name, nfd: Normalizer, info: Option<seq<byte>>,
                            time: u32, ownerID: u32, groupID: u32)
    requires Written(img, entries, files, attrs, v, ps, rootName, nfd) && v.layout.blockSize >= LEAST_SAFE_BLOCK
    requires Detailed(entries, attrs, v, ps, info, time, ownerID, groupID) && info.Some?
    ensures var name := [99, 111, 109, 46, 97, 112, 112, 108, 101, 46, 70, 105, 110, 100, 101, 114, 73, 110, 102, 111];
      ReadAttribute(img, 2, Utf16(nfd(name))) == Some(info.value)
  {
    hide Written, Stamped, RootStamped, Attributed, TagsTrue, CountsAre, ReadAttribute, Utf16;
    var j := |attrs| - 1;
    assert attrs[j] == attrs[j..][0];
    ListedAttrReadsBack(img, entries, files, attrs, v, ps, rootName, nfd, j);
  }

  // ----- tags

  /** No attribute of the list names a link, or a node that has none; the Finder info
      is the root's. */
  lemma NodeTagged(entries: seq<Entry>, attrs: seq<Attr>, v: Assembled, ps: seq<Pending>, rootName: Name, nfd: Normalizer,
                   info: Option<seq<byte>>, time: u32, ownerID: u32, groupID: u32, i: nat)
    requires Walked(Views(entries), ps, rootName, nfd) && Detailed(entries, attrs, v, ps, info, time, ownerID, groupID)
    requires i < |ps|
    ensures |entries| == |ps| + 1
    ensures entries[i + 1].hasAttributes <==> (ps[i].node.Dir? || ps[i].node.Regular?) && ps[i].node.xattrs != []
  {
    var vs := Views(entries);
    WalkedIds(vs, ps, rootName, nfd);
    hide Walked, Stamped, RootStamped, CountsAre;
    var front := attrs[..|attrs| - |FinderAttr(info)|];
    var at: seq<nat> :| LaidOut(front, ps, at);
    if (ps[i].node.Dir? || ps[i].node.Regular?) && ps[i].node.xattrs != [] {
      var j := NodeAttrsListed(front, ps, i, 0);
      assert attrs[j] == front[j];
    }
    if j :| 0 <= j < |attrs| && attrs[j].fileID == vs[i + 1].cnid {
      assert |FinderAttr(info)| == 1 ==> attrs[|attrs| - 1] == attrs[|attrs| - 1..][0];
      assert attrs[j] == front[j];
      AttrsAreTheNodes(front, ps, at, i, j);
    }
    assert vs[i + 1].hasAttributes <==> exists j :: 0 <= j < |attrs| && attrs[j].fileID == vs[i + 1].cnid;
  }

  lemma WalkedIds(vs: seq<EntryView>, ps: seq<Pending>, rootName: Name, nfd: Normalizer)
    requires Walked(vs, ps, rootName, nfd)
    ensures |vs| == |ps| + 1 && forall i :: 0 <= i < |ps| ==> vs[i + 1].cnid == ps[i].cnid && ps[i].cnid == FIRST_USER + i
  {
    forall i | 0 <= i < |ps| ensures EntryFor(vs[i + 1], ps[i], nfd) {
    }
    hide NameFor, FolderCounted, NoClash, NamesGiven, NeverEmpties;
  }

  // ----- records

  /** The entry of a node that has a fork, as the planner left it. */
  lemma NodeSize(scratch: Image, entries: seq<Entry>, files: seq<UserFileInput>, attrs: seq<Attr>, v: Assembled,
                 ps: seq<Pending>, rootName: Name, nfd: Normalizer, i: nat)
    requires Written(scratch.buf, entries, files, attrs, v, ps, rootName, nfd) && i < |ps| && !ps[i].node.Dir?
    ensures entries[i + 1].size == DataSize(ps[i].node)
  {
    hide Walked, Sizable, FilesOf, IsVolume, Completed;
    EntriesApart(entries, ps, rootName, nfd);
    var es := entries[1..];
    forall a, b | 0 <= a < b < |es| ensures es[a] != es[b] {
      assert es[a] == entries[a + 1] && es[b] == entries[b + 1];
    }
    var j := FileListed(es, ps, i);
    assert es[i] == entries[i + 1] && LastFor(PlannerFiles(files), j, |files|);
    SizeOfEmpty(v, Views(entries), attrs, nfd, files, j);
    assert PlacedAt(files[j], v.layout, j);
  }

  /** The record of a directory, in the terms of the tree. */
  ghost predicate FolderRecordOf(rec: seq<byte>, p: Pending, time: u32, ownerID: u32, groupID: u32)
    requires p.node.Dir?
  {
    && |rec| == 88 && Get16(rec, 0) == 1 && Get32(rec, 8) == p.cnid
    && Get16(rec, 2) == 16 + (if p.node.xattrs != [] then 4 else 0)
    && Get32(rec, 4) == Supported(p.node.kids) && Get32(rec, 84) == SubDirs(p.node.kids)
    && StampsRead(rec, Dates(time, time, time, time, time), Owner(0x4000 + p.node.mode, ownerID, groupID))
  }

  /** That of a file, and that of a link: 'slnk', 'rhap'. */
  ghost predicate FileRecordOf(rec: seq<byte>, p: Pending, time: u32, ownerID: u32, groupID: u32)
    requires p.node.Regular?
  {
    && |rec| == 248 && Get16(rec, 0) == 2 && Get32(rec, 8) == p.cnid
    && Get16(rec, 2) == (if p.node.xattrs != [] then 4 else 0)
    && Get32(rec, 48) == 0 && Get32(rec, 52) == 0 && Get64(rec, 88) == p.node.size
    && StampsRead(rec, Dates(time, time, time, time, time), Owner(0x8000 + p.node.mode, ownerID, groupID))
  }

  ghost predicate LinkRecordOf(rec: seq<byte>, p: Pending, time: u32, ownerID: u32, groupID: u32)
    requires p.node.Link?
  {
    && |rec| == 248 && Get16(rec, 0) == 2 && Get32(rec, 8) == p.cnid && Get16(rec, 2) == 0
    && Get32(rec, 48) == 0x736C6E6B && Get32(rec, 52) == 0x72686170 && Get64(rec, 88) == |p.node.target|
    && StampsRead(rec, Dates(time, time, time, time, time), Owner(0xA000 + p.node.mode, ownerID, groupID))
  }

  ghost predicate NodeRecordOf(rec: seq<byte>, p: Pending, time: u32, ownerID: u32, groupID: u32) {
    && (p.node.Dir? ==> FolderRecordOf(rec, p, time, ownerID, groupID))
    && (p.node.Regular? ==> FileRecordOf(rec, p, time, ownerID, groupID))
    && (p.node.Link? ==> LinkRecordOf(rec, p, time, ownerID, groupID))
  }

  lemma FolderViewRecord(e: EntryView, p: Pending, time: u32, ownerID: u32, groupID: u32)
    requires p.node.Dir? && e.cnid == p.cnid && e.kind == Folder
    requires e.owner == Owner(0x4000 + p.node.mode, ownerID, groupID) && e.dates == Dates(time, time, time, time, time)
    requires e.hasAttributes <==> p.node.xattrs != []
    requires e.valence == Supported(p.node.kids) && e.subFolders == SubDirs(p.node.kids)
    ensures FolderRecordOf(ForwardRecord(e), p, time, ownerID, groupID)
  {
    FolderRecordReads(e);
    FolderRecordStamps(e);
    hide FolderRecord, StampsRead, Get16, Get32, Supported, SubDirs;
  }

  lemma FileViewRecord(e: EntryView, p: Pending, time: u32, ownerID: u32, groupID: u32)
    requires p.node.Regular? && e.cnid == p.cnid && e.kind == File && e.size == p.node.size
    requires e.owner == Owner(0x8000 + p.node.mode, ownerID, groupID) && e.dates == Dates(time, time, time, time, time)
    requires e.hasAttributes <==> p.node.xattrs != []
    ensures FileRecordOf(ForwardRecord(e), p, time, ownerID, groupID)
  {
    FileRecordReads(e);
    FileRecordStamps(e);
    hide FileRecord, StampsRead, Get16, Get32, Get64;
  }

  lemma LinkViewRecord(e: EntryView, p: Pending, time: u32, ownerID: u32, groupID: u32)
    requires p.node.Link? && e.cnid == p.cnid && e.kind == Symlink && e.size == |p.node.target|
    requires e.owner == Owner(0xA000 + p.node.mode, ownerID, groupID) && e.dates == Dates(time, time, time, time, time)
    requires !e.hasAttributes
    ensures LinkRecordOf(ForwardRecord(e), p, time, ownerID, groupID)
  {
    FileRecordReads(e);
    FileRecordStamps(e);
    hide FileRecord, StampsRead, Get16, Get32, Get64;
  }

  /** The record found for a node says of it what the tree says: kind, flags, ID,
      counters, size, mode, owner, dates. */
  lemma TreeRecordFound(scratch: Image, entries: seq<Entry>, files: seq<UserFileInput>, attrs: seq<Attr>, v: Assembled,
                        kids: seq<Node>, rootName: Name, nfd: Normalizer, info: Option<seq<byte>>,
                        time: u32, ownerID: u32, groupID: u32, i: nat)
    requires Written(scratch.buf, entries, files, attrs, v, Listing(kids, 2, FIRST_USER), rootName, nfd)
    requires Detailed(entries, attrs, v, Listing(kids, 2, FIRST_USER), info, time, ownerID, groupID)
    requires v.layout.blockSize >= LEAST_SAFE_BLOCK && i < |Listing(kids, 2, FIRST_USER)|
    ensures var p := Listing(kids, 2, FIRST_USER)[i];
      && ReadRecordOf(scratch.buf, p.parent, NameFor(p, nfd)).Some?
      && NodeRecordOf(ReadRecordOf(scratch.buf, p.parent, NameFor(p, nfd)).value, p, time, ownerID, groupID)
  {
    var ps, vs := Listing(kids, 2, FIRST_USER), Views(entries);
    hide EntryTells;
    NodeView(scratch, entries, files, attrs, v, kids, rootName, nfd, info, time, ownerID, groupID, i);
    hide Listing, Walked, Sizable, FilesOf, IsVolume, Completed, EntriesPlaced, Detailed, NameFor, ReadRecordOf,
         Supported, SubDirs,
         NodeRecordOf, ForwardRecord;
    NodeEntry(vs, ps, rootName, nfd, i);
    EntryRecordFound(scratch.buf, v, vs, attrs, nfd, files, i + 1);
    NodeViewRecord(vs[i + 1], ps[i], time, ownerID, groupID);
  }

  lemma NodeViewRecord(e: EntryView, p: Pending, time: u32, ownerID: u32, groupID: u32)
    requires EntryTells(e, p, time, ownerID, groupID)
    ensures NodeRecordOf(ForwardRecord(e), p, time, ownerID, groupID)
  {
    hide FolderRecordOf, FileRecordOf, LinkRecordOf, ForwardRecord, Supported, SubDirs;
    if p.node.Dir? {
      FolderViewRecord(e, p, time, ownerID, groupID);
    } else if p.node.Regular? {
      FileViewRecord(e, p, time, ownerID, groupID);
    } else if p.node.Link? {
      LinkViewRecord(e, p, time, ownerID, groupID);
    }
  }

  /** What is said of a node's entry, all together. */
  ghost predicate EntryTells(e: EntryView, p: Pending, time: u32, ownerID: u32, groupID: u32) {
    && e.cnid == p.cnid && e.dates == Dates(time, time, time, time, time)
    && (p.node.Dir? ==>
          && e.kind == Folder && e.owner == Owner(0x4000 + p.node.mode, ownerID, groupID)
          && (e.hasAttributes <==> p.node.xattrs != [])
          && e.valence == Supported(p.node.kids) && e.subFolders == SubDirs(p.node.kids))
    && (p.node.Regular? ==>
          && e.kind == File && e.owner == Owner(0x8000 + p.node.mode, ownerID, groupID)
          && (e.hasAttributes <==> p.node.xattrs != []) && e.size == p.node.size)
    && (p.node.Link? ==>
          && e.kind == Symlink && e.owner == Owner(0xA000 + p.node.mode, ownerID, groupID)
          && !e.hasAttributes && e.size == |p.node.target|)
  }

  lemma NodeView(scratch: Image, entries: seq<Entry>, files: seq<UserFileInput>, attrs: seq<Attr>, v: Assembled,
                 kids: seq<Node>, rootName: Name, nfd: Normalizer, info: Option<seq<byte>>,
                 time: u32, ownerID: u32, groupID: u32, i: nat)
    requires Written(scratch.buf, entries, files, attrs, v, Listing(kids, 2, FIRST_USER), rootName, nfd)
    requires Detailed(entries, attrs, v, Listing(kids, 2, FIRST_USER), info, time, ownerID, groupID)
    requires i < |Listing(kids, 2, FIRST_USER)|
    ensures |entries| == |Listing(kids, 2, FIRST_USER)| + 1
    ensures EntryTells(Views(entries)[i + 1], Listing(kids, 2, FIRST_USER)[i], time, ownerID, groupID)
  {
    var ps, vs := Listing(kids, 2, FIRST_USER), Views(entries);
    hide Sizable, FilesOf, IsVolume, Completed, EntriesPlaced, NameFor, Supported, SubDirs, Listing, Attributed,
         TagsTrue, CountsAre,
         Scanned;
    NodeTagged(entries, attrs, v, ps, rootName, nfd, info, time, ownerID, groupID, i);
    if !ps[i].node.Dir? {
      NodeSize(scratch, entries, files, attrs, v, ps, rootName, nfd, i);
    }
    WalkedIds(vs, ps, rootName, nfd);
    EntriesMatchTree(vs, kids, rootName, nfd);
    assert EntryStamped(entries[1..][i], ps[i].node, Dates(time, time, time, time, time), ownerID, groupID);
    assert entries[1..][i] == entries[i + 1];
  }

  /** The root's record is under the ID 1 and the volume's name. */
  lemma RootRecordFound(img: seq<byte>, entries: seq<Entry>, files: seq<UserFileInput>, attrs: seq<Attr>, v: Assembled,
                        kids: seq<Node>, rootName: Name, nfd: Normalizer, info: Option<seq<byte>>,
                        time: u32, ownerID: u32, groupID: u32)
    requires Written(img, entries, files, attrs, v, Listing(kids, 2, FIRST_USER), rootName, nfd)
    requires Detailed(entries, attrs, v, Listing(kids, 2, FIRST_USER), info, time, ownerID, groupID)
    requires v.layout.blockSize >= LEAST_SAFE_BLOCK
    ensures ReadRecordOf(img, 1, rootName).Some?
    ensures var rec := ReadRecordOf(img, 1, rootName).value;
      && |rec| == 88 && Get16(rec, 0) == 1 && Get32(rec, 8) == 2
      && Get16(rec, 2) == 16 + (if info.Some? then 4 else 0)
      && Get32(rec, 4) == Supported(kids) && Get32(rec, 84) == SubDirs(kids)
      && StampsRead(rec, Dates(time, time, time, time, time), Owner(0x41ED, ownerID, groupID))
  {
    var ps, vs := Listing(kids, 2, FIRST_USER), Views(entries);
    RootView(entries, attrs, v, kids, rootName, nfd, info, time, ownerID, groupID);
    hide Listing, Walked, Sizable, FilesOf, IsVolume, Completed, EntriesPlaced, Detailed, ReadRecordOf, Supported, SubDirs,
         FolderRecord, Get16, Get32, StampsRead;
    EntryRecordFound(img, v, vs, attrs, nfd, files, 0);
    FolderRecordReads(vs[0]);
    FolderRecordStamps(vs[0]);
  }

  lemma RootView(entries: seq<Entry>, attrs: seq<Attr>, v: Assembled, kids: seq<Node>, rootName: Name, nfd: Normalizer,
                 info: Option<seq<byte>>, time: u32, ownerID: u32, groupID: u32)
    requires Walked(Views(entries), Listing(kids, 2, FIRST_USER), rootName, nfd)
    requires Detailed(entries, attrs, v, Listing(kids, 2, FIRST_USER), info, time, ownerID, groupID)
    ensures |entries| > 0
    ensures var e := Views(entries)[0];
      && e.cnid == 2 && e.parent == 1 && e.name == rootName && e.kind == Folder
      && e.owner == Owner(0x41ED, ownerID, groupID) && e.dates == Dates(time, time, time, time, time)
      && (e.hasAttributes <==> info.Some?) && e.valence == Supported(kids) && e.subFolders == SubDirs(kids)
  {
    var ps, vs := Listing(kids, 2, FIRST_USER), Views(entries);
    EntriesMatchTree(vs, kids, rootName, nfd);
    WalkedIds(vs, ps, rootName, nfd);
    hide Stamped, Attributed, NameFor, Supported, SubDirs, Listing, CountsAre, FolderCounted, NoClash, Numbered,
         NamesGiven, NeverEmpties;
    var front := attrs[..|attrs| - |FinderAttr(info)|];
    if j :| 0 <= j < |attrs| && attrs[j].fileID == 2 && info.None? {
      assert attrs == front;
      var o, k := AttrHasNode(front, ps, j);
    }
    assert info.Some? ==> attrs[|attrs| - 1] == attrs[|attrs| - 1..][0];
    assert vs[0].hasAttributes <==> exists j :: 0 <= j < |attrs| && attrs[j].fileID == vs[0].cnid;
  }
}
