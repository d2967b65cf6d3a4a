/** The catalog the walk leads to: no two records share a key, counters agree with
    the directory tree, and every folder's children follow its thread record. */
module WalkTheorems {
  import opened Seqs
  import opened Unicode
  import opened Tower
  import opened Keys
  import opened Sorting
  import opened Catalog
  import opened Attributes
  import opened Layout
  import opened Walk

  // ----- counters count what the directories list

  /** Nodes of a kind the catalog holds. */
  function Supported(kids: seq<Node>): nat { Total(kids, (k: Node) => if k.Other? then 0 else 1) }

  function SubDirs(kids: seq<Node>): nat { Total(kids, (k: Node) => if k.Dir? then 1 else 0) }

  /** Nobody in the list has this parent. */
  lemma {:induction false} NoChildren(ps: seq<Pending>, c: nat)
    requires forall i :: 0 <= i < |ps| ==> ps[i].parent != c
    ensures Children(ps, c) == 0 && Subfolders(ps, c) == 0
  {
    TotalZero(ps, ChildWeight(c));
    TotalZero(ps, SubfolderWeight(c));
  }

  lemma ChildrenAppend(a: seq<Pending>, b: seq<Pending>, c: nat)
    ensures Children(a + b, c) == Children(a, c) + Children(b, c)
    ensures Subfolders(a + b, c) == Subfolders(a, c) + Subfolders(b, c)
  {
    TotalAppend(a, b, ChildWeight(c));
    TotalAppend(a, b, SubfolderWeight(c));
  }

  lemma OneChild(p: Pending, c: nat)
    ensures Children([p], c) == ChildWeight(c)(p) && Subfolders([p], c) == SubfolderWeight(c)(p)
  {
    TotalOne(p, ChildWeight(c));
    TotalOne(p, SubfolderWeight(c));
  }

  lemma SupportedStep(kids: seq<Node>, k: Node)
    ensures Supported(kids + [k]) == Supported(kids) + if k.Other? then 0 else 1
    ensures SubDirs(kids + [k]) == SubDirs(kids) + if k.Dir? then 1 else 0
  {
    TotalAppend(kids, [k], (k: Node) => if k.Other? then 0 else 1);
    TotalAppend(kids, [k], (k: Node) => if k.Dir? then 1 else 0);
    TotalOne(k, (k: Node) => if k.Other? then 0 else 1);
    TotalOne(k, (k: Node) => if k.Dir? then 1 else 0);
  }

  /** In the list of one directory its own children are exactly the supported nodes
      it lists, and each subdirectory's are those of that subdirectory. */
  ghost predicate CountsTrue(ps: seq<Pending>, parent: nat, kids: seq<Node>) {
    && Children(ps, parent) == Supported(kids) && Subfolders(ps, parent) == SubDirs(kids)
    && forall i :: 0 <= i < |ps| && ps[i].node.Dir? ==>
         Children(ps, ps[i].cnid) == Supported(ps[i].node.kids) && Subfolders(ps, ps[i].cnid) == SubDirs(ps[i].node.kids)
  }

  lemma {:induction false} CountersMatchTree(kids: seq<Node>, parent: nat, next: nat)
    requires parent < next
    ensures CountsTrue(Listing(kids, parent, next), parent, kids)
    decreases kids, 0
  {
    if kids != [] {
      var last := |kids| - 1;
      var front := Listing(kids[..last], parent, next);
      var more := Visited(kids[last], parent, next + |front|);
      assert kids == kids[..last] + [kids[last]];
      assert Listing(kids, parent, next) == front + more;
      CountersMatchTree(kids[..last], parent, next);
      NodeCounters(kids[last], parent, next + |front|);
      ListingNumbered(kids[..last], parent, next);
      VisitedNumbered(kids[last], parent, next + |front|);
      hide Listing, Visited, CountsTrue, NodeCounted, Numbered;
      SupportedStep(kids[..last], kids[last]);
      Joined(front, more, kids[..last], kids[last], parent, next);
    }
  }

  /** The entries of a walk carry those counts: the root's are those of the source
      folder, and every directory's are its own. */
  lemma EntriesMatchTree(vs: seq<EntryView>, kids: seq<Node>, rootName: Name, nfd: Normalizer)
    requires Scanned(vs, Listing(kids, 2, FIRST_USER), rootName, nfd)
    ensures vs[0].valence == Supported(kids) && vs[0].subFolders == SubDirs(kids)
    ensures forall i :: 0 <= i < |Listing(kids, 2, FIRST_USER)| && Listing(kids, 2, FIRST_USER)[i].node.Dir? ==>
      && vs[i + 1].valence == Supported(Listing(kids, 2, FIRST_USER)[i].node.kids)
      && vs[i + 1].subFolders == SubDirs(Listing(kids, 2, FIRST_USER)[i].node.kids)
  {
    var ps := Listing(kids, 2, FIRST_USER);
    CountersMatchTree(kids, 2, FIRST_USER);
    hide Listing, Children, Subfolders, Supported, SubDirs, NameFor;
    assert FolderCounted(vs[0], ps);
    forall i | 0 <= i < |ps| && ps[i].node.Dir?
      ensures vs[i + 1].valence == Supported(ps[i].node.kids) && vs[i + 1].subFolders == SubDirs(ps[i].node.kids)
    {
      assert EntryFor(vs[i + 1], ps[i], nfd) && FolderCounted(vs[i + 1], ps);
    }
  }

  /** What one visited node adds. */
  ghost predicate NodeCounted(ps: seq<Pending>, parent: nat, k: Node) {
    && Children(ps, parent) == (if k.Other? then 0 else 1) && Subfolders(ps, parent) == (if k.Dir? then 1 else 0)
    && forall i :: 0 <= i < |ps| && ps[i].node.Dir? ==>
         Children(ps, ps[i].cnid) == Supported(ps[i].node.kids) && Subfolders(ps, ps[i].cnid) == SubDirs(ps[i].node.kids)
  }

  lemma Joined(front: seq<Pending>, more: seq<Pending>, kids: seq<Node>, k: Node, parent: nat, next: nat)
    requires parent < next && Numbered(front, parent, next) && Numbered(more, parent, next + |front|)
    requires CountsTrue(front, parent, kids) && NodeCounted(more, parent, k)
    ensures CountsTrue(front + more, parent, kids + [k])
  {
    var all := front + more;
    SupportedStep(kids, k);
    ChildrenAppend(front, more, parent);
    hide Children, Subfolders, Supported, SubDirs;
    forall i | 0 <= i < |all| && all[i].node.Dir?
      ensures Children(all, all[i].cnid) == Supported(all[i].node.kids) && Subfolders(all, all[i].cnid) == SubDirs(all[i].node.kids)
    {
      var c := all[i].cnid;
      ChildrenAppend(front, more, c);
      if i < |front| {
        assert front[i].node.Dir? && front[i].cnid == c;
        NoChildren(more, c);
      } else {
        assert more[i - |front|].node.Dir? && more[i - |front|].cnid == c;
        NoChildren(front, c);
      }
    }
  }

  lemma {:induction false} NodeCounters(k: Node, parent: nat, next: nat)
    requires parent < next
    ensures NodeCounted(Visited(k, parent, next), parent, k)
    decreases k, 1
  {
    var ps := Visited(k, parent, next);
    if k.Dir? {
      var inner := Listing(k.kids, next, next + 1);
      CountersMatchTree(k.kids, next, next + 1);
      ListingNumbered(k.kids, next, next + 1);
      assert ps == [Pending(k, next, parent)] + inner;
      hide Listing, Visited, CountsTrue, Numbered;
      WithDirectory(k, inner, parent, next);
    } else if k.Other? {
      NoChildren(ps, parent);
    } else {
      OneChild(Pending(k, next, parent), parent);
    }
  }

  lemma WithDirectory(k: Node, inner: seq<Pending>, parent: nat, next: nat)
    requires k.Dir? && parent < next && Numbered(inner, next, next + 1) && CountsTrue(inner, next, k.kids)
    ensures NodeCounted([Pending(k, next, parent)] + inner, parent, k)
  {
    var own := Pending(k, next, parent);
    var ps := [own] + inner;
    OneChild(own, parent);
    NoChildren(inner, parent);
    ChildrenAppend([own], inner, parent);
    hide Children, Subfolders, Supported, SubDirs;
    forall i | 0 <= i < |ps| && ps[i].node.Dir?
      ensures Children(ps, ps[i].cnid) == Supported(ps[i].node.kids) && Subfolders(ps, ps[i].cnid) == SubDirs(ps[i].node.kids)
    {
      var c := ps[i].cnid;
      ChildrenAppend([own], inner, c);
      NoChildren([own], c);
      if i > 0 {
        assert inner[i - 1].node.Dir? && inner[i - 1].cnid == c;
      }
    }
  }

  // ----- the packer's duplicate check cannot fire

  /** A law of normalization: it leaves no name empty that was not. */
  ghost predicate NeverEmpties(nfd: Normalizer) {
    forall s: seq<Rune> :: s != [] ==> nfd(s) != []
  }

  /** File names are not empty. */
  ghost predicate NamesGiven(ps: seq<Pending>) {
    forall i :: 0 <= i < |ps| ==> ps[i].node.name != []
  }

  /** What the walk guarantees of its entries. */
  ghost predicate Walked(vs: seq<EntryView>, ps: seq<Pending>, rootName: Name, nfd: Normalizer) {
    && Scanned(vs, ps, rootName, nfd) && NoClash(ps, nfd) && Numbered(ps, 2, FIRST_USER)
    && NamesGiven(ps) && NeverEmpties(nfd)
  }

  /** IDs are distinct, and every parent's ID is smaller than its child's. */
  lemma IdsAreDistinct(vs: seq<EntryView>, ps: seq<Pending>, rootName: Name, nfd: Normalizer, i: nat, j: nat)
    requires Walked(vs, ps, rootName, nfd) && i < |vs| && j < |vs|
    ensures vs[i].cnid == vs[j].cnid <==> i == j
    ensures vs[i].cnid >= 2 && vs[i].parent < vs[i].cnid && (i > 0 ==> vs[i].parent >= 2)
  {
    hide NoClash, NamesGiven, NeverEmpties, NameFor;
    IdOf(vs, ps, rootName, nfd, i);
    IdOf(vs, ps, rootName, nfd, j);
  }

  lemma IdOf(vs: seq<EntryView>, ps: seq<Pending>, rootName: Name, nfd: Normalizer, i: nat)
    requires Scanned(vs, ps, rootName, nfd) && Numbered(ps, 2, FIRST_USER) && i < |vs|
    ensures vs[i].cnid == (if i == 0 then 2 else FIRST_USER + i - 1)
    ensures vs[i].parent == (if i == 0 then 1 else ps[i - 1].parent)
    ensures i > 0 ==> vs[i].name == NameFor(ps[i - 1], nfd) && 2 <= vs[i].parent < vs[i].cnid
  {
    hide NameFor, FolderCounted;
    if i > 0 {
      assert EntryFor(vs[i - 1 + 1], ps[i - 1], nfd);
      assert ps[i - 1].cnid == FIRST_USER + (i - 1);
    }
  }

  /** Two records per entry, in entry order. */
  lemma {:induction false} RecordsAt(vs: seq<EntryView>, i: nat)
    requires (forall k :: 0 <= k < |vs| ==> vs[k].cnid != ROOT_PARENT)
    ensures |CatalogRecords(vs)| == 2 * |vs|
    ensures i < |vs| ==>
      CatalogRecords(vs)[2 * i] == Record(CatalogKey(vs[i].parent, vs[i].name), ForwardRecord(vs[i]))
      && CatalogRecords(vs)[2 * i + 1] == Record(CatalogKey(vs[i].cnid, []), ThreadRecord(vs[i]))
    decreases |vs|
  {
    hide CatalogKey, ForwardRecord, ThreadRecord;
    if vs != [] {
      var n := |vs| - 1;
      RecordsAt(vs[..n], i);
      assert |PairOf(vs[n])| == 2;
      assert i < n ==> vs[..n][i] == vs[i];
    }
  }

  /** The key in place `r` of the list. */
  function KeyAt(vs: seq<EntryView>, r: nat): (nat, Name)
    requires r < 2 * |vs|
  {
    if r % 2 == 0 then (vs[r / 2].parent, vs[r / 2].name) else (vs[r / 2].cnid, [])
  }

  lemma ListedKey(vs: seq<EntryView>, r: nat)
    requires (forall k :: 0 <= k < |vs| ==> vs[k].cnid != ROOT_PARENT) && r < 2 * |vs|
    ensures r < |CatalogRecords(vs)|
    ensures CatalogParent(CatalogRecords(vs)[r].key) == KeyAt(vs, r).0 && CatalogName(CatalogRecords(vs)[r].key) == KeyAt(vs, r).1
  {
    hide CatalogKey, CatalogParent, CatalogName, CatalogRecords, ForwardRecord, ThreadRecord;
    var i := r / 2;
    RecordsAt(vs, i);
    if r % 2 == 0 {
      CatalogKeyReads(vs[i].parent, vs[i].name);
    } else {
      CatalogKeyReads(vs[i].cnid, []);
    }
  }

  /** Keys in different places differ. */
  lemma KeysDiffer(vs: seq<EntryView>, ps: seq<Pending>, rootName: Name, nfd: Normalizer, r: nat, t: nat)
    requires Walked(vs, ps, rootName, nfd) && r < t < 2 * |vs|
    ensures KeyAt(vs, r) != KeyAt(vs, t)
  {
    var i, j := r / 2, t / 2;
    IdsAreDistinct(vs, ps, rootName, nfd, i, j);
    IdsAreDistinct(vs, ps, rootName, nfd, j, i);
    NamesDiffer(vs, ps, rootName, nfd, i, j);
    NameNotEmpty(vs, ps, rootName, nfd, i);
    NameNotEmpty(vs, ps, rootName, nfd, j);
    hide Walked;
  }

  lemma NamesDiffer(vs: seq<EntryView>, ps: seq<Pending>, rootName: Name, nfd: Normalizer, i: nat, j: nat)
    requires Walked(vs, ps, rootName, nfd) && i < |vs| && j < |vs|
    ensures i < j ==> vs[i].parent != vs[j].parent || vs[i].name != vs[j].name
  {
    hide NoClash, NamesGiven, NeverEmpties, NameFor;
    IdOf(vs, ps, rootName, nfd, i);
    IdOf(vs, ps, rootName, nfd, j);
    if 0 < i < j {
      Apart(ps, nfd, i - 1, j - 1);
    }
  }

  lemma Apart(ps: seq<Pending>, nfd: Normalizer, i: nat, j: nat)
    requires NoClash(ps, nfd) && i < j < |ps|
    ensures ps[i].parent != ps[j].parent || NameFor(ps[i], nfd) != NameFor(ps[j], nfd)
  {
    hide NameFor;
    assert !Clash(ps[i], ps[j], nfd);
  }

  lemma NameNotEmpty(vs: seq<EntryView>, ps: seq<Pending>, rootName: Name, nfd: Normalizer, i: nat)
    requires Walked(vs, ps, rootName, nfd) && i < |vs|
    ensures i > 0 ==> vs[i].name != []
  {
    IdOf(vs, ps, rootName, nfd, i);
    if i > 0 {
      assert ps[i - 1].node.name != [];
      OnlyNothingIsEmpty(nfd(ps[i - 1].node.name));
    }
    hide NoClash;
  }

  /** After a successful walk no two catalog records share a key, so the packer
      cannot refuse the catalog. */
  lemma WalkedKeysDistinct(vs: seq<EntryView>, ps: seq<Pending>, rootName: Name, nfd: Normalizer)
    requires Walked(vs, ps, rootName, nfd)
    ensures DistinctKeys(CatalogRecords(vs)) && |CatalogRecords(vs)| == 2 * |vs|
  {
    NobodyIsRootParent(vs, ps, rootName, nfd);
    RecordsAt(vs, 0);
    hide Walked, CatalogRecords, CatalogName, CatalogParent, KeyAt;
    var recs := CatalogRecords(vs);
    forall r, t | 0 <= r < t < |recs| ensures recs[r].key != recs[t].key {
      ListedKey(vs, r);
      ListedKey(vs, t);
      KeysDiffer(vs, ps, rootName, nfd, r, t);
    }
  }

  lemma NobodyIsRootParent(vs: seq<EntryView>, ps: seq<Pending>, rootName: Name, nfd: Normalizer)
    requires Walked(vs, ps, rootName, nfd)
    ensures forall k :: 0 <= k < |vs| ==> vs[k].cnid != ROOT_PARENT
    ensures vs != []
  {
    hide Walked;
    forall k | 0 <= k < |vs| ensures vs[k].cnid != ROOT_PARENT {
      IdsAreDistinct(vs, ps, rootName, nfd, k, k);
    }
    AtLeastRoot(vs, ps, rootName, nfd);
  }

  lemma AtLeastRoot(vs: seq<EntryView>, ps: seq<Pending>, rootName: Name, nfd: Normalizer)
    requires Walked(vs, ps, rootName, nfd)
    ensures |vs| == |ps| + 1
  {
    hide NoClash, NamesGiven, NeverEmpties, NameFor, Numbered, FolderCounted;
  }

  /** So the catalog of a walk is never refused, for kinds or for keys. */
  lemma WalkedCatalogPacks(vs: seq<EntryView>, ps: seq<Pending>, rootName: Name, nfd: Normalizer)
    requires Walked(vs, ps, rootName, nfd) && forall i :: 0 <= i < |ps| ==> !ps[i].node.Other?
    ensures AllKnown(vs) && DistinctKeys(CatalogRecords(vs))
  {
    WalkedKeysDistinct(vs, ps, rootName, nfd);
    RootIs(vs, ps, rootName, nfd);
    AtLeastRoot(vs, ps, rootName, nfd);
    forall i | 0 <= i < |vs| ensures KnownKind(vs[i]) {
      if i > 0 {
        KindIs(vs, ps, rootName, nfd, i);
      }
    }
    hide Walked;
  }

  // ----- leaf records

  lemma {:induction false} OneWeightEach(vs: seq<EntryView>, n: nat)
    requires 1 <= n <= |vs| && vs[0].cnid == ROOT_FOLDER && vs[0].kind == Folder
    requires forall i :: 0 < i < |vs| ==> vs[i].cnid != ROOT_PARENT && vs[i].cnid != ROOT_FOLDER && !vs[i].kind.Unknown?
    ensures Total(vs[..n], FileWeight()) + Total(vs[..n], FolderWeight()) + 1 == n
  {
    CountStep(vs, n - 1);
    if n > 1 {
      OneWeightEach(vs, n - 1);
    } else {
      assert vs[..0] == [];
    }
  }

  /** Leaf records are twice the files, folders and the root. */
  lemma LeafRecordsCount(vs: seq<EntryView>, ps: seq<Pending>, rootName: Name, nfd: Normalizer)
    requires Walked(vs, ps, rootName, nfd) && forall i :: 0 <= i < |ps| ==> !ps[i].node.Other?
    ensures |CatalogRecords(vs)| == 2 * (Total(vs, FileWeight()) + Total(vs, FolderWeight()) + 1)
  {
    WalkedKeysDistinct(vs, ps, rootName, nfd);
    AtLeastRoot(vs, ps, rootName, nfd);
    forall i | 0 < i < |vs|
      ensures vs[i].cnid != ROOT_PARENT && vs[i].cnid != ROOT_FOLDER && !vs[i].kind.Unknown?
    {
      IdsAreDistinct(vs, ps, rootName, nfd, i, 0);
      KindIs(vs, ps, rootName, nfd, i);
    }
    RootIs(vs, ps, rootName, nfd);
    hide Walked, CatalogRecords, Total;
    OneWeightEach(vs, |vs|);
    assert vs[..|vs|] == vs;
  }

  lemma KindIs(vs: seq<EntryView>, ps: seq<Pending>, rootName: Name, nfd: Normalizer, i: nat)
    requires Walked(vs, ps, rootName, nfd) && 0 < i < |vs|
    ensures |vs| == |ps| + 1 && vs[i].kind == NodeKind(ps[i - 1].node) && vs[i].parent == ps[i - 1].parent
  {
    hide NoClash, NamesGiven, NeverEmpties, NameFor, Numbered, FolderCounted;
    assert EntryFor(vs[i - 1 + 1], ps[i - 1], nfd);
  }

  lemma RootIs(vs: seq<EntryView>, ps: seq<Pending>, rootName: Name, nfd: Normalizer)
    requires Walked(vs, ps, rootName, nfd)
    ensures vs != [] && vs[0].cnid == ROOT_FOLDER && vs[0].kind == Folder && vs[0].parent == ROOT_PARENT
  {
    hide NoClash, NamesGiven, NeverEmpties, NameFor, Numbered, FolderCounted;
  }

  // ----- the order of the listing

  /** A supported node comes behind everything its directory lists before it, under the
      next ID, and a directory's own contents follow it at once. */
  lemma {:induction false} NodeInOrder(kids: seq<Node>, parent: nat, next: nat, i: nat)
    requires i < |kids| && !kids[i].Other?
    ensures var ps, at := Listing(kids, parent, next), |Listing(kids[..i], parent, next)|;
      && at < |ps| && ps[at] == Pending(kids[i], next + at, parent)
      && (kids[i].Dir? ==>
            var inner := Listing(kids[i].kids, next + at, next + at + 1);
            at + 1 + |inner| <= |ps| && ps[at + 1..at + 1 + |inner|] == inner)
      && |Listing(kids[..i + 1], parent, next)| == at + 1 + if kids[i].Dir? then |Listing(kids[i].kids, next + at, next + at + 1)| else 0
    decreases |kids|
  {
    var n := |kids| - 1;
    if i < n {
      NodeInOrder(kids[..n], parent, next, i);
      assert kids[..n][i] == kids[i] && kids[..n][..i] == kids[..i] && kids[..n][..i + 1] == kids[..i + 1];
    } else {
      LastInOrder(kids, parent, next);
    }
  }

  lemma LastInOrder(kids: seq<Node>, parent: nat, next: nat)
    requires kids != [] && !kids[|kids| - 1].Other?
    ensures var n := |kids| - 1;
      var ps, at := Listing(kids, parent, next), |Listing(kids[..n], parent, next)|;
      && at < |ps| && ps[at] == Pending(kids[n], next + at, parent)
      && (kids[n].Dir? ==>
            var inner := Listing(kids[n].kids, next + at, next + at + 1);
            at + 1 + |inner| == |ps| && ps[at + 1..at + 1 + |inner|] == inner)
      && (!kids[n].Dir? ==> |ps| == at + 1)
      && kids[..n + 1] == kids
  {
    var n := |kids| - 1;
    ListingStep(kids, n, parent, next);
    assert kids[..n + 1] == kids;
    var at := |Listing(kids[..n], parent, next)|;
    VisitedIs(kids[n], parent, next + at, []);
    hide Listing, Visited;
  }

  /** Siblings get their IDs in the order they are listed in. */
  lemma SiblingsAscend(kids: seq<Node>, parent: nat, next: nat, i: nat, j: nat) returns (a: nat, b: nat)
    requires i < j < |kids| && !kids[i].Other? && !kids[j].Other?
    ensures a < b < |Listing(kids, parent, next)|
    ensures Listing(kids, parent, next)[a] == Pending(kids[i], next + a, parent)
    ensures Listing(kids, parent, next)[b] == Pending(kids[j], next + b, parent)
  {
    NodeInOrder(kids, parent, next, i);
    NodeInOrder(kids, parent, next, j);
    ListingGrows(kids, parent, next, i + 1, j);
    a, b := |Listing(kids[..i], parent, next)|, |Listing(kids[..j], parent, next)|;
  }

  lemma {:induction false} ListingGrows(kids: seq<Node>, parent: nat, next: nat, i: nat, j: nat)
    requires i <= j <= |kids|
    ensures |Listing(kids[..i], parent, next)| <= |Listing(kids[..j], parent, next)|
    decreases j
  {
    if i < j {
      ListingGrows(kids, parent, next, i, j - 1);
      assert kids[..j][..j - 1] == kids[..j - 1];
    }
  }

  /** How many of a directory's nodes the catalog holds, and how many are directories. */
  lemma SupportedIsCount(kids: seq<Node>)
    ensures Supported(kids) == |set i: nat | i < |kids| && !kids[i].Other?|
    ensures SubDirs(kids) == |set i: nat | i < |kids| && kids[i].Dir?|
  {
    TotalIsCount(kids, (k: Node) => if k.Other? then 0 else 1, set i: nat | i < |kids| && !kids[i].Other?);
    TotalIsCount(kids, (k: Node) => if k.Dir? then 1 else 0, set i: nat | i < |kids| && kids[i].Dir?);
  }

  // ----- attributes

  /** Every attribute of every directory and file is listed under the node's ID. */
  lemma NodeAttrsListed(attrs: seq<Attr>, ps: seq<Pending>, i: nat, k: nat) returns (j: nat)
    requires Attributed(attrs, ps) && i < |ps| && (ps[i].node.Dir? || ps[i].node.Regular?) && k < |ps[i].node.xattrs|
    ensures j < |attrs| && attrs[j].fileID == ps[i].cnid
    ensures attrs[j].name == ps[i].node.xattrs[k].name && attrs[j].data == ps[i].node.xattrs[k].data
  {
    var at: seq<nat> :| LaidOut(attrs, ps, at);
    assert NodeAttrsAt(attrs, ps[i], at[i], at[i + 1]);
    j := at[i] + k;
    var x := ps[i].node.xattrs[k];
    assert attrs[at[i] + k].name == x.name;
  }

  /** Where node by node the list goes on. */
  lemma {:induction false} StartsAscend(attrs: seq<Attr>, ps: seq<Pending>, at: seq<nat>, a: nat, b: nat)
    requires LaidOut(attrs, ps, at) && a <= b <= |ps|
    ensures at[a] <= at[b] <= |attrs|
    decreases |ps| - a
  {
    if a < |ps| {
      assert NodeAttrsAt(attrs, ps[a], at[a], at[a + 1]);
      if a < b {
        StartsAscend(attrs, ps, at, a + 1, b);
      } else {
        StartsAscend(attrs, ps, at, a + 1, |ps|);
      }
    }
  }

  /** Every listed attribute is in the stretch of some node. */
  lemma {:induction false} StretchOf(attrs: seq<Attr>, ps: seq<Pending>, at: seq<nat>, j: nat, n: nat) returns (i: nat)
    requires LaidOut(attrs, ps, at) && n <= |ps| && j < at[n]
    ensures i < n && at[i] <= j < at[i + 1]
    decreases n
  {
    i := n - 1;
    if j < at[i] {
      i := StretchOf(attrs, ps, at, j, i);
    }
  }

  /** And every listed attribute is one of a directory or file of the tree. */
  lemma AttrHasNode(attrs: seq<Attr>, ps: seq<Pending>, j: nat) returns (i: nat, k: nat)
    requires Attributed(attrs, ps) && j < |attrs|
    ensures i < |ps| && (ps[i].node.Dir? || ps[i].node.Regular?) && k < |ps[i].node.xattrs|
    ensures attrs[j].fileID == ps[i].cnid
    ensures attrs[j].name == ps[i].node.xattrs[k].name && attrs[j].data == ps[i].node.xattrs[k].data
  {
    var at: seq<nat> :| LaidOut(attrs, ps, at);
    i := StretchOf(attrs, ps, at, j, |ps|);
    assert NodeAttrsAt(attrs, ps[i], at[i], at[i + 1]);
    k := j - at[i];
    var x := ps[i].node.xattrs[k];
    assert attrs[at[i] + k].name == x.name;
  }

  /** The attributes under a node's ID are those of its stretch, each of its own ones
      once, in its order. */
  lemma AttrsAreTheNodes(attrs: seq<Attr>, ps: seq<Pending>, at: seq<nat>, i: nat, j: nat)
    requires LaidOut(attrs, ps, at) && i < |ps| && j < |attrs|
    requires forall a, b :: 0 <= a < b < |ps| ==> ps[a].cnid != ps[b].cnid
    ensures attrs[j].fileID == ps[i].cnid <==> at[i] <= j < at[i + 1]
    ensures attrs[j].fileID == ps[i].cnid ==>
      && (ps[i].node.Dir? || ps[i].node.Regular?) && 0 <= j - at[i] < |ps[i].node.xattrs|
      && attrs[j].name == ps[i].node.xattrs[j - at[i]].name && attrs[j].data == ps[i].node.xattrs[j - at[i]].data
  {
    var o := StretchOf(attrs, ps, at, j, |ps|);
    assert NodeAttrsAt(attrs, ps[o], at[o], at[o + 1]);
    var k := j - at[o];
    var x := ps[o].node.xattrs[k];
    assert attrs[at[o] + k].name == x.name;
    assert NodeAttrsAt(attrs, ps[i], at[i], at[i + 1]);
    if i < o {
      StartsAscend(attrs, ps, at, i + 1, o);
    } else if o < i {
      StartsAscend(attrs, ps, at, o + 1, i);
    }
  }
}
