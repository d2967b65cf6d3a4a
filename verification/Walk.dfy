/** The walk over the source folder: catalog node IDs, name clashes and folder
    counters, on an abstract directory tree. */
module Walk {
  import opened Bytes
  import opened Wrappers
  import opened Seqs
  import opened Unicode
  import opened Catalog
  import opened Attributes
  import opened Image
  import opened VolumeWriter

  const FIRST_USER: nat := 16

  type Path = seq<seq<Rune>>

  datatype XAttr = XAttr(name: seq<Rune>, data: seq<byte>)

  /** The nine permission bits. */
  type Perm = x: int | 0 <= x < 0x200

  /** What a directory lists, in the order the sort by name leaves. */
  datatype Node =
    | Dir(name: seq<Rune>, xattrs: seq<XAttr>, mode: Perm, kids: seq<Node>)
    | Regular(name: seq<Rune>, xattrs: seq<XAttr>, mode: Perm, size: u64, source: Source)
    | Link(name: seq<Rune>, mode: Perm, target: seq<byte>)
    | Other(name: seq<Rune>) // sockets, devices, pipes

  datatype Pending = Pending(node: Node, cnid: nat, parent: nat)

  // ----- pass 1: IDs in visiting order

  /** What visiting one node of a directory appends. */
  function Visited(k: Node, parent: nat, next: nat): seq<Pending>
    decreases k, 1
  {
    match k
    case Other(_) => []
    case Dir(_, _, _, kids) => [Pending(k, next, parent)] + Listing(kids, next, next + 1)
    case Regular(_, _, _, _, _) => [Pending(k, next, parent)]
    case Link(_, _, _) => [Pending(k, next, parent)]
  }

  /** The whole of a directory: each subdirectory's contents right behind it. */
  function Listing(kids: seq<Node>, parent: nat, next: nat): seq<Pending>
    decreases kids, 0
  {
    if kids == [] then []
    else
      var front := Listing(kids[..|kids| - 1], parent, next);
      front + Visited(kids[|kids| - 1], parent, next + |front|)
  }

  /** IDs run on without a gap, and every parent's is smaller. */
  ghost predicate Numbered(ps: seq<Pending>, parent: nat, next: nat) {
    forall i :: 0 <= i < |ps| ==> ps[i].cnid == next + i && (ps[i].parent == parent || next <= ps[i].parent < ps[i].cnid)
  }

  lemma {:induction false} VisitedNumbered(k: Node, parent: nat, next: nat)
    requires parent < next
    ensures Numbered(Visited(k, parent, next), parent, next)
    decreases k, 1
  {
    if k.Dir? {
      ListingNumbered(k.kids, next, next + 1);
      var inner := Listing(k.kids, next, next + 1);
      forall i | 0 <= i < |inner| ensures inner[i].cnid == next + 1 + i && next <= inner[i].parent < inner[i].cnid {
      }
    }
  }

  lemma {:induction false} ListingNumbered(kids: seq<Node>, parent: nat, next: nat)
    requires parent < next
    ensures Numbered(Listing(kids, parent, next), parent, next)
    decreases kids, 0
  {
    if kids != [] {
      var front := Listing(kids[..|kids| - 1], parent, next);
      ListingNumbered(kids[..|kids| - 1], parent, next);
      VisitedNumbered(kids[|kids| - 1], parent, next + |front|);
    }
  }

  /** The state the visitor closes over. */
  class Walker {
    var next: nat
    var parents: map<Path, nat>
    var pending: seq<Pending>

    constructor (root: Path)
      ensures next == FIRST_USER && parents == map[root := 2] && pending == []
    {
      next, parents, pending := FIRST_USER, map[root := 2], [];
    }

    /** Give a node of a supported kind the next ID. The directory it is in must
        have been visited. */
    method Visit(path: Path, node: Node) returns (ok: bool)
      requires path != []
      modifies this
      ensures ok <==> path[..|path| - 1] in old(parents)
      ensures ok && node.Other? ==> next == old(next) && parents == old(parents) && pending == old(pending)
      ensures ok && !node.Other? ==>
        && next == old(next) + 1
        && pending == old(pending) + [Pending(node, old(next), old(parents)[path[..|path| - 1]])]
        && parents == if node.Dir? then old(parents)[path := old(next)] else old(parents)
    {
      var parentPath := path[..|path| - 1];
      if parentPath !in parents {
        return false;
      }
      var parent := parents[parentPath];
      match node {
        case Link(_, _, _) =>
          pending := pending + [Pending(node, next, parent)];
          next := next + 1;
        case Dir(_, _, _, _) =>
          parents := parents[path := next];
          pending := pending + [Pending(node, next, parent)];
          next := next + 1;
        case Regular(_, _, _, _, _) =>
          pending := pending + [Pending(node, next, parent)];
          next := next + 1;
        case Other(_) =>
      }
      return true;
    }

    /** Paths no longer than `path` keep their IDs. */
    twostate predicate ShortPathsKept(path: Path)
      reads this
    {
      forall q :: |q| <= |path| && q in old(parents) ==> q in parents && parents[q] == old(parents)[q]
    }

    /** Visit every node of a directory in order, and each subdirectory right after
        it was visited. A parent is always known. */
    method WalkDir(path: Path, kids: seq<Node>)
      requires path in parents
      modifies this
      ensures ShortPathsKept(path)
      ensures pending == old(pending) + Listing(kids, old(parents)[path], old(next))
      ensures next == old(next) + |Listing(kids, old(parents)[path], old(next))|
      decreases kids
    {
      ghost var parent, start, before, listed := parents[path], next, pending, Listing([], parents[path], next);
      assert listed == [];
      hide Listing, Visited;
      for i := 0 to |kids|
        invariant ShortPathsKept(path)
        invariant listed == Listing(kids[..i], parent, start) && pending == before + listed && next == start + |listed|
      {
        ListingStep(kids, i, parent, start);
        WalkNode(path, kids[i]);
        listed := Listing(kids[..i + 1], parent, start);
      }
      assert kids[..|kids|] == kids;
    }

    method WalkNode(path: Path, node: Node)
      requires path in parents
      modifies this
      ensures ShortPathsKept(path)
      ensures pending == old(pending) + Visited(node, old(parents)[path], old(next))
      ensures next == old(next) + |Visited(node, old(parents)[path], old(next))|
      decreases node
    {
      var sub := path + [node.name];
      assert sub[..|sub| - 1] == path;
      hide Listing, Visited;
      VisitedIs(node, parents[path], next, pending);
      var ok := Visit(sub, node);
      if node.Dir? {
        WalkDir(sub, node.kids);
      }
    }
  }

  lemma VisitedIs(k: Node, parent: nat, next: nat, before: seq<Pending>)
    ensures k.Dir? ==> |Visited(k, parent, next)| == 1 + |Listing(k.kids, next, next + 1)|
    ensures k.Dir? ==> before + Visited(k, parent, next) == before + [Pending(k, next, parent)] + Listing(k.kids, next, next + 1)
    ensures k.Other? ==> Visited(k, parent, next) == []
    ensures !k.Dir? && !k.Other? ==> Visited(k, parent, next) == [Pending(k, next, parent)]
  {
    hide Listing;
  }

  lemma ListingStep(kids: seq<Node>, i: nat, parent: nat, next: nat)
    requires i < |kids|
    ensures Listing(kids[..i + 1], parent, next)
         == Listing(kids[..i], parent, next) + Visited(kids[i], parent, next + |Listing(kids[..i], parent, next)|)
  {
    assert kids[..i + 1][..i] == kids[..i];
    hide Visited;
  }

  // ----- pass 2: entries, files, attributes

  datatype WalkError = BadVolumeName | BadName(at: nat) | SameName(first: nat, second: nat)

  function NameFor(p: Pending, nfd: Normalizer): Name {
    Utf16(nfd(p.node.name))
  }

  function NodeKind(n: Node): Kind {
    match n
    case Dir(_, _, _, _) => Folder
    case Regular(_, _, _, _, _) => File
    case Link(_, _, _) => Symlink
    case Other(_) => Unknown(0)
  }

  function DataSize(n: Node): nat {
    match n
    case Dir(_, _, _, _) => 0
    case Regular(_, _, _, size, _) => size
    case Link(_, _, target) => |target|
    case Other(_) => 0
  }

  /** Two nodes the catalog could not tell apart. */
  ghost predicate Clash(a: Pending, b: Pending, nfd: Normalizer) {
    a.parent == b.parent && NameFor(a, nfd) == NameFor(b, nfd)
  }

  ghost predicate NoClash(ps: seq<Pending>, nfd: Normalizer) {
    forall i, j :: 0 <= i < j < |ps| ==> !Clash(ps[i], ps[j], nfd)
  }

  /** Direct children of a folder, and those of them that are folders. */
  function ChildWeight(c: nat): Pending -> nat {
    (p: Pending) => if p.parent == c then 1 else 0
  }

  function SubfolderWeight(c: nat): Pending -> nat {
    (p: Pending) => if p.parent == c && p.node.Dir? then 1 else 0
  }

  function Children(ps: seq<Pending>, c: nat): nat { Total(ps, ChildWeight(c)) }

  function Subfolders(ps: seq<Pending>, c: nat): nat { Total(ps, SubfolderWeight(c)) }

  /** The entry describes the node under its ID. */
  ghost predicate EntryFor(v: EntryView, p: Pending, nfd: Normalizer) {
    v.cnid == p.cnid && v.parent == p.parent && v.name == NameFor(p, nfd) && v.kind == NodeKind(p.node)
  }

  function CountOf(counts: map<nat, nat>, c: nat): nat {
    if c in counts then counts[c] else 0
  }

  /** `counts[c]++` */
  function Bumped(counts: map<nat, nat>, c: nat): map<nat, nat> {
    counts[c := CountOf(counts, c) + 1]
  }

  ghost predicate CountsChildren(counts: map<nat, nat>, ps: seq<Pending>) {
    forall c: nat :: CountOf(counts, c) == Children(ps, c)
  }

  ghost predicate CountsSubfolders(counts: map<nat, nat>, ps: seq<Pending>) {
    forall c: nat :: CountOf(counts, c) == Subfolders(ps, c)
  }

  lemma CountsNext(valence: map<nat, nat>, folders: map<nat, nat>, ps: seq<Pending>, p: Pending)
    requires CountsChildren(valence, ps) && CountsSubfolders(folders, ps)
    ensures CountsChildren(Bumped(valence, p.parent), ps + [p])
    ensures CountsSubfolders(if p.node.Dir? then Bumped(folders, p.parent) else folders, ps + [p])
  {
    forall c: nat
      ensures Children(ps + [p], c) == Children(ps, c) + ChildWeight(c)(p)
      ensures Subfolders(ps + [p], c) == Subfolders(ps, c) + SubfolderWeight(c)(p)
    {
      TotalAppend(ps, [p], ChildWeight(c));
      TotalAppend(ps, [p], SubfolderWeight(c));
      TotalOne(p, ChildWeight(c));
      TotalOne(p, SubfolderWeight(c));
    }
  }

  lemma TotalOne<T>(x: T, w: T -> nat)
    ensures Total([x], w) == w(x)
  {
    assert [x][1..] == [];
  }

  lemma {:induction false} TotalBelowLength<T>(s: seq<T>, w: T -> nat)
    requires forall x :: x in s ==> w(x) <= 1
    ensures Total(s, w) <= |s|
  {
    TotalBound(s, w, 1);
  }

  /** The claims made so far: one for each (parent, name) pair, saying by whom. */
  ghost predicate Claimed(claims: map<(nat, Name), nat>, ps: seq<Pending>, nfd: Normalizer) {
    && (forall i :: 0 <= i < |ps| ==> (ps[i].parent, NameFor(ps[i], nfd)) in claims)
    && (forall k :: k in claims ==>
          claims[k] < |ps| && k == (ps[claims[k]].parent, NameFor(ps[claims[k]], nfd)))
  }

  lemma ClaimNext(claims: map<(nat, Name), nat>, ps: seq<Pending>, p: Pending, nfd: Normalizer, key: (nat, Name))
    requires Claimed(claims, ps, nfd) && NoClash(ps, nfd) && key == (p.parent, NameFor(p, nfd)) && key !in claims
    ensures Claimed(claims[key := |ps|], ps + [p], nfd) && NoClash(ps + [p], nfd)
  {
    hide NameFor;
    var all, after := ps + [p], claims[key := |ps|];
    forall i, j | 0 <= i < j < |all| ensures !Clash(all[i], all[j], nfd) {
      if j < |ps| {
        assert !Clash(ps[i], ps[j], nfd);
      } else {
        assert (ps[i].parent, NameFor(ps[i], nfd)) in claims;
      }
    }
    forall k | k in after ensures after[k] < |all| && k == (all[after[k]].parent, NameFor(all[after[k]], nfd)) {
    }
  }

  /** What an entry says of its node besides IDs and name, for good: kind, mode with
      the type bits of the kind, owner and dates. */
  ghost predicate EntryStamped(e: Entry, n: Node, dates: Dates, ownerID: u32, groupID: u32) {
    && e.dates == dates && e.owner.ownerID == ownerID && e.owner.groupID == groupID
    && (n.Dir? ==> e.kind == Folder && e.owner.mode == 0x4000 + n.mode)
    && (n.Regular? ==> e.kind == File && e.owner.mode == 0x8000 + n.mode)
    && (n.Link? ==> e.kind == Symlink && e.owner.mode == 0xA000 + n.mode)
  }

  ghost predicate Stamped(entries: seq<Entry>, ps: seq<Pending>, dates: Dates, ownerID: u32, groupID: u32) {
    && |entries| == |ps|
    && forall i :: 0 <= i < |ps| ==> EntryStamped(entries[i], ps[i].node, dates, ownerID, groupID)
  }

  /** The root folder: mode 0755. */
  ghost predicate RootStamped(e: Entry, dates: Dates, ownerID: u32, groupID: u32) {
    && e.dates == dates && e.owner.ownerID == ownerID && e.owner.groupID == groupID && e.owner.mode == 0x41ED
  }

  /** No entry is tagged yet. */
  ghost predicate Untagged(entries: seq<Entry>)
    reads entries
  {
    forall i :: 0 <= i < |entries| ==> !entries[i].hasAttributes
  }

  method MakeEntry(p: Pending, name: HfsName, dates: Dates, ownerID: u32, groupID: u32)
    returns (e: Entry, file: seq<UserFileInput>, attrs: seq<Attr>)
    requires p.cnid < U32_LIMIT && p.parent < U32_LIMIT && !p.node.Other? && DataSize(p.node) < U64_LIMIT
    ensures fresh(e) && e.cnid == p.cnid && e.parent == p.parent && e.name == name && e.kind == NodeKind(p.node)
    ensures file == if p.node.Dir? then [] else [UserFileInput(e, DataSize(p.node), SourceOf(p.node))]
    ensures attrs == AttrsOf(p)
    ensures EntryStamped(e, p.node, dates, ownerID, groupID) && !e.hasAttributes
  {
    file, attrs := [], [];
    match p.node {
      case Link(_, mode, target) =>
        e := new Entry(p.cnid, p.parent, name, Symlink, Owner(0xA000 + mode, ownerID, groupID), dates, |target|);
        file := [UserFileInput(e, |target|, Opened(target, Eof))];
      case Dir(_, xattrs, mode, _) =>
        e := new Entry(p.cnid, p.parent, name, Folder, Owner(0x4000 + mode, ownerID, groupID), dates, 0);
        attrs := TagXAttrs(xattrs, p.cnid);
      case Regular(_, xattrs, mode, size, source) =>
        e := new Entry(p.cnid, p.parent, name, File, Owner(0x8000 + mode, ownerID, groupID), dates, size);
        file := [UserFileInput(e, size, source)];
        attrs := TagXAttrs(xattrs, p.cnid);
    }
  }

  function SourceOf(n: Node): Source {
    match n
    case Regular(_, _, _, _, source) => source
    case Link(_, _, target) => Opened(target, Eof)
    case Dir(_, _, _, _) => NoFile
    case Other(_) => NoFile
  }

  function XAttrsOf(n: Node): seq<XAttr> {
    match n
    case Dir(_, xattrs, _, _) => xattrs
    case Regular(_, xattrs, _, _, _) => xattrs
    case Link(_, _, _) => []
    case Other(_) => []
  }

  function TagXAttrs(xs: seq<XAttr>, cnid: u32): (attrs: seq<Attr>)
    ensures |attrs| == |xs|
  {
    seq(|xs|, i requires 0 <= i < |xs| => Attr(cnid, xs[i].name, xs[i].data))
  }

  function AttrsOf(p: Pending): seq<Attr>
    requires p.cnid < U32_LIMIT
  {
    TagXAttrs(XAttrsOf(p.node), p.cnid)
  }

  /** What one node adds to the planner's file list. */
  function FileOf(e: Entry, p: Pending): seq<UserFileInput>
    requires DataSize(p.node) < U64_LIMIT
  {
    if p.node.Dir? then [] else [UserFileInput(e, DataSize(p.node), SourceOf(p.node))]
  }

  predicate Sizable(ps: seq<Pending>) {
    forall i :: 0 <= i < |ps| ==>
      !ps[i].node.Other? && DataSize(ps[i].node) < U64_LIMIT && ps[i].cnid < U32_LIMIT && ps[i].parent < U32_LIMIT
  }

  /** The files in entry order; `es[i]` is the entry of `ps[i]`. */
  function FilesOf(es: seq<Entry>, ps: seq<Pending>): seq<UserFileInput>
    requires |es| == |ps| && Sizable(ps)
  {
    if ps == [] then []
    else FilesOf(es[..|es| - 1], ps[..|ps| - 1]) + FileOf(es[|es| - 1], ps[|ps| - 1])
  }

  function AllAttrs(ps: seq<Pending>): seq<Attr>
    requires Sizable(ps)
  {
    if ps == [] then [] else AllAttrs(ps[..|ps| - 1]) + AttrsOf(ps[|ps| - 1])
  }

  /** From place `lo` up to `hi` the list has a node's attributes, in its order. */
  ghost predicate NodeAttrsAt(attrs: seq<Attr>, p: Pending, lo: nat, hi: nat) {
    && lo <= hi <= |attrs|
    && (p.node.Dir? || p.node.Regular? ==>
          && hi - lo == |p.node.xattrs|
          && forall k :: 0 <= k < |p.node.xattrs| ==>
               && attrs[lo + k].fileID == p.cnid && attrs[lo + k].name == p.node.xattrs[k].name
               && attrs[lo + k].data == p.node.xattrs[k].data)
    && (p.node.Link? || p.node.Other? ==> lo == hi)
  }

  /** The list is the attributes of all nodes, node by node; those of node `i` begin
      at `at[i]`. */
  ghost predicate LaidOut(attrs: seq<Attr>, ps: seq<Pending>, at: seq<nat>) {
    && |at| == |ps| + 1 && at[0] == 0 && at[|ps|] == |attrs|
    && forall i :: 0 <= i < |ps| ==> NodeAttrsAt(attrs, ps[i], at[i], at[i + 1])
  }

  ghost predicate Attributed(attrs: seq<Attr>, ps: seq<Pending>) {
    exists at: seq<nat> :: LaidOut(attrs, ps, at)
  }

  lemma {:induction false} AllAttrsLaidOut(ps: seq<Pending>) returns (at: seq<nat>)
    requires Sizable(ps)
    ensures LaidOut(AllAttrs(ps), ps, at)
    decreases |ps|
  {
    if ps == [] {
      at := [0];
    } else {
      var n := |ps| - 1;
      var front := AllAttrs(ps[..n]);
      var before := AllAttrsLaidOut(ps[..n]);
      at := before + [|AllAttrs(ps)|];
      forall i | 0 <= i < |ps| ensures NodeAttrsAt(AllAttrs(ps), ps[i], at[i], at[i + 1]) {
        if i < n {
          assert NodeAttrsAt(front, ps[..n][i], before[i], before[i + 1]);
        }
      }
    }
  }

  lemma FilesStep(es: seq<Entry>, ps: seq<Pending>, e: Entry, p: Pending)
    requires |es| == |ps| && Sizable(ps) && Sizable([p])
    ensures Sizable(ps + [p]) && DataSize(p.node) < U64_LIMIT && p.cnid < U32_LIMIT
    ensures FilesOf(es + [e], ps + [p]) == FilesOf(es, ps) + FileOf(e, p)
    ensures AllAttrs(ps + [p]) == AllAttrs(ps) + AttrsOf(p)
  {
    assert [p][0] == p;
    assert (es + [e])[..|es|] == es && (ps + [p])[..|ps|] == ps;
    hide DataSize, SourceOf;
  }

  /** The entries of the nodes, not yet counted. */
  ghost predicate Listed(entries: seq<Entry>, ps: seq<Pending>, nfd: Normalizer)
    reads entries
  {
    && |entries| == |ps| && (forall i :: 0 <= i < |ps| ==> EntryFor(entries[i].View(), ps[i], nfd))
    && forall i, j :: 0 <= i < j < |entries| ==> entries[i] != entries[j]
  }

  lemma Prefix(ps: seq<Pending>, i: nat)
    requires Sizable(ps) && i < |ps|
    ensures ps[..i + 1] == ps[..i] + [ps[i]] && Sizable(ps[..i]) && Sizable([ps[i]])
    ensures !ps[i].node.Other? && DataSize(ps[i].node) < U64_LIMIT && ps[i].cnid < U32_LIMIT && ps[i].parent < U32_LIMIT
  {
    hide DataSize;
  }

  lemma ClaimFound(claims: map<(nat, Name), nat>, ps: seq<Pending>, i: nat, nfd: Normalizer, key: (nat, Name))
    requires i < |ps| && Claimed(claims, ps[..i], nfd) && key in claims && key == (ps[i].parent, NameFor(ps[i], nfd))
    ensures claims[key] < i && Clash(ps[claims[key]], ps[i], nfd) && !NoClash(ps, nfd)
  {
    hide NameFor;
  }

  lemma ListedNext(entries: seq<Entry>, ps: seq<Pending>, nfd: Normalizer, e: Entry, p: Pending)
    requires Listed(entries, ps, nfd) && EntryFor(e.View(), p, nfd) && e !in entries
    ensures Listed(entries + [e], ps + [p], nfd)
  {
    hide EntryFor;
  }

  /** Names and counters of the nodes so far. */
  ghost predicate NamesDone(claims: map<(nat, Name), nat>, valence: map<nat, nat>, folders: map<nat, nat>,
                            ps: seq<Pending>, nfd: Normalizer)
  {
    && Claimed(claims, ps, nfd) && NoClash(ps, nfd) && NamesShort(ps, nfd)
    && CountsChildren(valence, ps) && CountsSubfolders(folders, ps)
  }

  ghost predicate NamesShort(ps: seq<Pending>, nfd: Normalizer) {
    forall i :: 0 <= i < |ps| ==> |NameFor(ps[i], nfd)| <= MAX_NAME
  }

  /** Entries, files and attributes of the nodes so far. */
  ghost predicate EntriesDone(entries: seq<Entry>, files: seq<UserFileInput>, attrs: seq<Attr>, ps: seq<Pending>, nfd: Normalizer)
    reads entries
  {
    |entries| == |ps| && Sizable(ps) && Listed(entries, ps, nfd) && files == FilesOf(entries, ps) && attrs == AllAttrs(ps)
  }

  datatype Names = Names(claims: map<(nat, Name), nat>, valence: map<nat, nat>, folders: map<nat, nat>)

  /** Claim a node's name and count it for its folder. */
  method ClaimName(n: Names, ps: seq<Pending>, i: nat, nfd: Normalizer) returns (r: Result<(HfsName, Names), WalkError>)
    requires i < |ps| && NamesDone(n.claims, n.valence, n.folders, ps[..i], nfd)
    ensures r.Ok? ==>
      && r.value.0 == NameFor(ps[i], nfd)
      && NamesDone(r.value.1.claims, r.value.1.valence, r.value.1.folders, ps[..i] + [ps[i]], nfd)
    ensures r.Err? ==> IsWalkError(r.error, ps, nfd) && (!NoClash(ps, nfd) || !NamesShort(ps, nfd))
  {
    hide Claimed, NoClash, CountsChildren, CountsSubfolders, Utf16, Clash;
    var p := ps[i];
    var name := NewName(p.node.name, nfd);
    if name.Err? {
      return Err(BadName(i));
    }
    var key := (p.parent, name.value);
    if key in n.claims {
      ClaimFound(n.claims, ps, i, nfd, key);
      return Err(SameName(n.claims[key], i));
    }
    ClaimNext(n.claims, ps[..i], p, nfd, key);
    CountsNext(n.valence, n.folders, ps[..i], p);
    var folders := if p.node.Dir? then Bumped(n.folders, p.parent) else n.folders;
    return Ok((name.value, Names(n.claims[key := i], Bumped(n.valence, p.parent), folders)));
  }

  /** The error names a node whose name is too long, or two that clash. */
  ghost predicate IsWalkError(e: WalkError, ps: seq<Pending>, nfd: Normalizer) {
    match e
    case BadName(at) => at < |ps| && |NameFor(ps[at], nfd)| > MAX_NAME
    case SameName(first, second) => first < second < |ps| && Clash(ps[first], ps[second], nfd)
    case BadVolumeName => false
  }

  method AddEntry(entries: seq<Entry>, files: seq<UserFileInput>, attrs: seq<Attr>, ghost ps: seq<Pending>, p: Pending,
                  name: HfsName, dates: Dates, ownerID: u32, groupID: u32, ghost nfd: Normalizer)
    returns (entries': seq<Entry>, files': seq<UserFileInput>, attrs': seq<Attr>)
    requires EntriesDone(entries, files, attrs, ps, nfd) && Sizable([p]) && name == NameFor(p, nfd)
    ensures |entries'| == |entries| + 1 && entries'[..|entries|] == entries && fresh(entries'[|entries|])
    ensures EntriesDone(entries', files', attrs', ps + [p], nfd)
    ensures EntryStamped(entries'[|entries|], p.node, dates, ownerID, groupID) && !entries'[|entries|].hasAttributes
  {
    hide EntryStamped, Listed, FilesOf, AllAttrs, DataSize, NameFor, Sizable;
    OneSizable(p);
    var e, file, more := MakeEntry(p, name, dates, ownerID, groupID);
    FilesStep(entries, ps, e, p);
    ListedNext(entries, ps, nfd, e, p);
    return entries + [e], files + file, attrs + more;
  }

  lemma OneSizable(p: Pending)
    requires Sizable([p])
    ensures !p.node.Other? && DataSize(p.node) < U64_LIMIT && p.cnid < U32_LIMIT && p.parent < U32_LIMIT
  {
    assert [p][0] == p;
  }

  lemma NothingDone(nfd: Normalizer)
    ensures NamesDone(map[], map[], map[], [], nfd) && EntriesDone([], [], [], [], nfd)
  {
  }

  /** Materialize one entry per node; the first clash of two names stops it. */
  method Materialize(ps: seq<Pending>, nfd: Normalizer, dates: Dates, ownerID: u32, groupID: u32)
    returns (failed: Option<WalkError>, entries: seq<Entry>, files: seq<UserFileInput>, attrs: seq<Attr>, n: Names)
    requires Sizable(ps)
    ensures fresh(entries)
    ensures match failed
      case Some(e) => IsWalkError(e, ps, nfd) && (!NoClash(ps, nfd) || !NamesShort(ps, nfd))
      case None =>
        && EntriesDone(entries, files, attrs, ps, nfd) && NamesDone(n.claims, n.valence, n.folders, ps, nfd)
        && Stamped(entries, ps, dates, ownerID, groupID) && Untagged(entries)
  {
    hide EntryStamped, NamesDone, EntriesDone, IsWalkError, NoClash, NamesShort, Sizable, NameFor;
    entries, files, attrs, n := [], [], [], Names(map[], map[], map[]);
    NothingDone(nfd);
    assert ps[..0] == [];
    for i := 0 to |ps|
      invariant fresh(entries) && EntriesDone(entries, files, attrs, ps[..i], nfd)
      invariant NamesDone(n.claims, n.valence, n.folders, ps[..i], nfd)
      invariant Stamped(entries, ps[..i], dates, ownerID, groupID) && Untagged(entries)
    {
      Prefix(ps, i);
      var claimed := ClaimName(n, ps, i, nfd);
      if claimed.Err? {
        failed := Some(claimed.error);
        return;
      }
      n := claimed.value.1;
      entries, files, attrs :=
        AddEntry(entries, files, attrs, ps[..i], ps[i], claimed.value.0, dates, ownerID, groupID, nfd);
    }
    assert ps[..|ps|] == ps;
    failed := None;
  }

  // ----- counters and the whole walk

  ghost predicate FolderCounted(v: EntryView, ps: seq<Pending>) {
    v.kind.Folder? ==> v.valence == Children(ps, v.cnid) && v.subFolders == Subfolders(ps, v.cnid)
  }

  lemma CountsFit(ps: seq<Pending>, c: nat)
    ensures Children(ps, c) <= |ps| && Subfolders(ps, c) <= |ps|
  {
    TotalBelowLength(ps, ChildWeight(c));
    TotalBelowLength(ps, SubfolderWeight(c));
  }

  /** Backfill the counters of every folder. */
  method Backfill(entries: seq<Entry>, valence: map<nat, nat>, folders: map<nat, nat>, ghost ps: seq<Pending>)
    requires CountsChildren(valence, ps) && CountsSubfolders(folders, ps) && |ps| < U32_LIMIT
    modifies (set i | 0 <= i < |entries| :: entries[i])`valence, (set i | 0 <= i < |entries| :: entries[i])`subFolders
    ensures forall i :: 0 <= i < |entries| ==> FolderCounted(entries[i].View(), ps)
  {
    for i := 0 to |entries|
      invariant forall k :: 0 <= k < i ==> FolderCounted(entries[k].View(), ps)
    {
      hide Children, Subfolders;
      var e := entries[i];
      CountsFit(ps, e.cnid);
      if e.kind.Folder? {
        e.valence := CountOf(valence, e.cnid);
        e.subFolders := CountOf(folders, e.cnid);
      }
    }
  }

  /** The entries of a finished walk: the root, then one per node, folders counted. */
  ghost predicate Scanned(vs: seq<EntryView>, ps: seq<Pending>, rootName: Name, nfd: Normalizer) {
    && |vs| == |ps| + 1
    && vs[0].cnid == ROOT_FOLDER && vs[0].parent == ROOT_PARENT && vs[0].name == rootName && vs[0].kind == Folder
    && (forall i :: 0 <= i < |ps| ==> EntryFor(vs[i + 1], ps[i], nfd))
    && (forall i :: 0 <= i < |vs| ==> FolderCounted(vs[i], ps))
  }

  /** Both passes below the root, once its name is known to be good. */
  method ScanNodes(root: Entry, pending: seq<Pending>, nfd: Normalizer, dates: Dates, ownerID: u32, groupID: u32)
    returns (failed: Option<WalkError>, entries: seq<Entry>, files: seq<UserFileInput>, attrs: seq<Attr>)
    requires Sizable(pending) && |pending| < U32_LIMIT
    requires root.cnid == ROOT_FOLDER && root.parent == ROOT_PARENT && root.kind == Folder
    modifies root`valence, root`subFolders
    ensures forall i :: 0 <= i < |entries| ==> entries[i] == root || fresh(entries[i])
    ensures match failed
      case Some(e) => IsWalkError(e, pending, nfd) && (!NoClash(pending, nfd) || !NamesShort(pending, nfd))
      case None =>
        && Scanned(Views(entries), pending, root.name, nfd) && NoClash(pending, nfd) && |entries| == |pending| + 1
        && entries[0] == root && Stamped(entries[1..], pending, dates, ownerID, groupID) && Attributed(attrs, pending)
        && (old(root.hasAttributes) || Untagged(entries))
        && files == FilesOf(entries[1..], pending) && attrs == AllAttrs(pending)
  {
    hide EntryStamped, LaidOut, Sizable, NoClash, NamesShort, IsWalkError, FilesOf, AllAttrs, Views, Scanned,
         Identified, EntriesDone, NamesDone, Listed,
         CountsChildren, CountsSubfolders, FolderCounted;
    var listed, n;
    failed, listed, files, attrs, n := Materialize(pending, nfd, dates, ownerID, groupID);
    if failed.Some? {
      entries := [];
      return;
    }
    entries := [root] + listed;
    DoneParts(listed, files, attrs, pending, nfd, n);
    ScanStarts(entries, root, listed, pending, nfd);
    ghost var at := AllAttrsLaidOut(pending);
    assert entries[1..] == listed;
    hide Stamped;
    Backfill(entries, n.valence, n.folders, pending);
    ScanEnds(entries, pending, root.name, nfd);
  }

  /** Number the nodes. */
  method NumberNodes(kids: seq<Node>) returns (pending: seq<Pending>)
    ensures pending == Listing(kids, 2, FIRST_USER)
  {
    hide Listing;
    var walker := new Walker([]);
    walker.WalkDir([], kids);
    pending := walker.pending;
  }

  method WalkTree(kids: seq<Node>, volumeName: seq<Rune>, nfd: Normalizer, dates: Dates, ownerID: u32, groupID: u32)
    returns (failed: Option<WalkError>, entries: seq<Entry>, files: seq<UserFileInput>, attrs: seq<Attr>,
             ghost ps: seq<Pending>)
    requires Sizable(Listing(kids, 2, FIRST_USER)) && |Listing(kids, 2, FIRST_USER)| < U32_LIMIT
    ensures ps == Listing(kids, 2, 16)
    ensures forall i :: 0 <= i < |entries| ==> fresh(entries[i])
    ensures failed == Some(BadVolumeName) <==> |Utf16(nfd(volumeName))| > MAX_NAME
    ensures match failed
      case Some(BadVolumeName) => true
      case Some(e) => IsWalkError(e, ps, nfd) && (!NoClash(ps, nfd) || !NamesShort(ps, nfd))
      case None =>
        && Scanned(Views(entries), ps, Utf16(nfd(volumeName)), nfd) && NoClash(ps, nfd) && |entries| == |ps| + 1
        && files == FilesOf(entries[1..], ps) && attrs == AllAttrs(ps)
        && Attributed(attrs, ps) && Stamped(entries[1..], ps, dates, ownerID, groupID)
        && RootStamped(entries[0], dates, ownerID, groupID) && Untagged(entries)
  {
    hide Stamped, Attributed, Listing, Sizable, NoClash, NamesShort, IsWalkError, Utf16, FilesOf, AllAttrs, Views, Scanned;
    entries, files, attrs, ps := [], [], [], Listing(kids, 2, FIRST_USER);
    var rootName := NewName(volumeName, nfd);
    if rootName.Err? {
      failed := Some(BadVolumeName);
      return;
    }
    var root := new Entry(ROOT_FOLDER, ROOT_PARENT, rootName.value, Folder, Owner(0x41ED, ownerID, groupID), dates, 0);
    var pending := NumberNodes(kids);
    failed, entries, files, attrs := ScanNodes(root, pending, nfd, dates, ownerID, groupID);
    if failed.Some? {
      NodeErrors(failed.value, ps, nfd);
    }
  }

  lemma NodeErrors(e: WalkError, ps: seq<Pending>, nfd: Normalizer)
    requires IsWalkError(e, ps, nfd)
    ensures e != BadVolumeName
  {
  }

  lemma DoneParts(entries: seq<Entry>, files: seq<UserFileInput>, attrs: seq<Attr>, ps: seq<Pending>, nfd: Normalizer, n: Names)
    requires EntriesDone(entries, files, attrs, ps, nfd) && NamesDone(n.claims, n.valence, n.folders, ps, nfd)
    ensures |entries| == |ps| && Listed(entries, ps, nfd) && Sizable(ps) && files == FilesOf(entries, ps) && attrs == AllAttrs(ps)
    ensures NoClash(ps, nfd) && CountsChildren(n.valence, ps) && CountsSubfolders(n.folders, ps)
  {
    hide Listed, Sizable, NoClash, CountsChildren, CountsSubfolders;
  }

  /** What the backfill does not touch. */
  ghost predicate Identified(entries: seq<Entry>, ps: seq<Pending>, rootName: Name, nfd: Normalizer) {
    && |entries| == |ps| + 1
    && entries[0].cnid == ROOT_FOLDER && entries[0].parent == ROOT_PARENT && entries[0].name == rootName
    && entries[0].kind == Folder
    && forall i :: 0 <= i < |ps| ==>
         && entries[i + 1].cnid == ps[i].cnid && entries[i + 1].parent == ps[i].parent
         && entries[i + 1].name == NameFor(ps[i], nfd) && entries[i + 1].kind == NodeKind(ps[i].node)
  }

  lemma ScanStarts(entries: seq<Entry>, root: Entry, listed: seq<Entry>, ps: seq<Pending>, nfd: Normalizer)
    requires entries == [root] + listed && Listed(listed, ps, nfd)
    requires root.cnid == ROOT_FOLDER && root.parent == ROOT_PARENT && root.kind == Folder
    ensures Identified(entries, ps, root.name, nfd) && entries[1..] == listed
  {
    hide NameFor, NodeKind;
    forall i | 0 <= i < |ps| ensures EntryFor(entries[i + 1].View(), ps[i], nfd) {
      assert EntryFor(listed[i].View(), ps[i], nfd);
    }
  }

  lemma ScanEnds(entries: seq<Entry>, ps: seq<Pending>, rootName: Name, nfd: Normalizer)
    requires Identified(entries, ps, rootName, nfd)
    requires forall i :: 0 <= i < |entries| ==> FolderCounted(entries[i].View(), ps)
    ensures Scanned(Views(entries), ps, rootName, nfd)
  {
    hide NameFor, NodeKind, FolderCounted;
  }
}
