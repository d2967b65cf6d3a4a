/** Each folder's thread record is followed immediately by its children, in name
    order, as many as its counters say. */
module FolderBlocks {
  import opened Bytes
  import opened Seqs
  import opened Packing
  import opened Unicode
  import opened Tower
  import opened TreeReader
  import opened Keys
  import opened Catalog
  import opened CatalogTheorems
  import opened Walk
  import opened WalkTheorems

  // ----- counting by weight

  lemma {:induction false} TotalPermutation<T>(a: seq<T>, b: seq<T>, w: T -> nat)
    requires multiset(a) == multiset(b)
    ensures Total(a, w) == Total(b, w)
    decreases |a|
  {
    if a == [] {
      assert |multiset(b)| == |b|;
    } else {
      var j := TakeOut(a, b);
      TotalPermutation(a[1..], b[..j] + b[j + 1..], w);
      TotalAppend(b[..j], b[j + 1..], w);
      TotalAppend(b[..j] + [b[j]], b[j + 1..], w);
      TotalAppend(b[..j], [b[j]], w);
      TotalOne(b[j], w);
      assert b == b[..j] + [b[j]] + b[j + 1..];
    }
  }

  lemma {:induction false} TotalSum<T>(s: seq<T>, v: T -> nat, w: T -> nat, both: T -> nat)
    requires forall x :: both(x) == v(x) + w(x)
    ensures Total(s, both) == Total(s, v) + Total(s, w)
  {
    if s != [] {
      TotalSum(s[1..], v, w, both);
    }
  }

  function UnderWeight(c: nat): Record -> nat {
    (r: Record) => if CatalogParent(r.key) == c then 1 else 0
  }

  function BelowWeight(c: nat): Record -> nat {
    (r: Record) => if CatalogParent(r.key) < c then 1 else 0
  }

  /** Parents never fall in a sorted list: those below `c` come first. */
  lemma {:induction false} SmallerParentsFirst(recs: seq<Record>, c: nat, n: nat)
    requires forall i, j :: 0 <= i < j < |recs| ==> CatalogParent(recs[i].key) <= CatalogParent(recs[j].key)
    requires n <= |recs|
    ensures Total(recs[..n], BelowWeight(c)) <= n
    ensures forall j :: 0 <= j < n ==> (CatalogParent(recs[j].key) < c <==> j < Total(recs[..n], BelowWeight(c)))
  {
    hide CatalogParent;
    if n > 0 {
      SmallerParentsFirst(recs, c, n - 1);
      assert recs[..n] == recs[..n - 1] + [recs[n - 1]];
      TotalAppend(recs[..n - 1], [recs[n - 1]], BelowWeight(c));
      TotalOne(recs[n - 1], BelowWeight(c));
      if CatalogParent(recs[n - 1].key) < c && n > 1 {
        assert CatalogParent(recs[n - 2].key) < c;
      }
    } else {
      assert recs[..0] == [];
    }
  }

  lemma SortedParents(recs: seq<Record>)
    requires Sorted(recs, CatalogLess(), IsCatalogKey)
    ensures forall i, j :: 0 <= i < j < |recs| ==> CatalogParent(recs[i].key) <= CatalogParent(recs[j].key)
  {
    hide CatalogParent, CatalogName, Compare;
    forall i, j | 0 <= i < j < |recs| ensures CatalogParent(recs[i].key) <= CatalogParent(recs[j].key) {
      assert CatalogLess()(recs[i].key, recs[j].key);
      assert CompareCatalog(recs[i].key, recs[j].key) < 0;
    }
  }

  /** The records under one parent are an interval as long as their number. */
  lemma UnderIsInterval(recs: seq<Record>, c: nat) returns (t: nat)
    requires Sorted(recs, CatalogLess(), IsCatalogKey)
    ensures t + Total(recs, UnderWeight(c)) <= |recs|
    ensures forall j :: 0 <= j < |recs| ==> (CatalogParent(recs[j].key) == c <==> t <= j < t + Total(recs, UnderWeight(c)))
  {
    SortedParents(recs);
    assert recs[..|recs|] == recs;
    hide CatalogParent, Sorted;
    t := Total(recs, BelowWeight(c));
    SmallerParentsFirst(recs, c, |recs|);
    SmallerParentsFirst(recs, c + 1, |recs|);
    TotalSum(recs, BelowWeight(c), UnderWeight(c), BelowWeight(c + 1));
  }

  // ----- counting a folder's records through the entries

  /** A record of a folder, by its type. */
  predicate IsFolderRecord(data: seq<byte>) {
    |data| >= 2 && Get16(data, 0) == FOLDER_RECORD
  }

  function FolderUnderWeight(c: nat): Record -> nat {
    (r: Record) => if CatalogParent(r.key) == c && IsFolderRecord(r.data) then 1 else 0
  }

  function ViewChild(c: nat): EntryView -> nat {
    (v: EntryView) => if v.parent == c then 1 else 0
  }

  function ViewSubfolder(c: nat): EntryView -> nat {
    (v: EntryView) => if v.parent == c && v.kind.Folder? then 1 else 0
  }

  function ViewSelf(c: nat): EntryView -> nat {
    (v: EntryView) => if v.cnid == c then 1 else 0
  }

  function ViewUnder(c: nat): EntryView -> nat {
    (v: EntryView) => (if v.parent == c then 1 else 0) + if v.cnid == c then 1 else 0
  }

  lemma TwoTotals<T>(a: T, b: T, w: T -> nat)
    ensures Total([a, b], w) == w(a) + w(b)
  {
    assert [a, b][1..] == [b];
    TotalOne(b, w);
  }

  lemma TypeOf(v: EntryView)
    requires !v.kind.Unknown?
    ensures IsFolderRecord(ForwardRecord(v)) <==> v.kind.Folder?
    ensures !IsFolderRecord(ThreadRecord(v))
  {
    FolderRecordReads(v);
    FileRecordReads(v);
    ThreadRecordReads(v);
    hide FolderRecord, FileRecord, ThreadRecord, Get16, Get32, Get64;
  }

  /** One entry's two records: one under its parent, one under itself. */
  lemma PairCounts(v: EntryView, c: nat)
    requires v.cnid != ROOT_PARENT && !v.kind.Unknown?
    ensures Total(PairOf(v), UnderWeight(c)) == ViewUnder(c)(v)
    ensures Total(PairOf(v), FolderUnderWeight(c)) == ViewSubfolder(c)(v)
  {
    TypeOf(v);
    hide CatalogKey, CatalogParent, IsFolderRecord, ForwardRecord, ThreadRecord, CatalogName, IsCatalogKey;
    var a, b := Record(CatalogKey(v.parent, v.name), ForwardRecord(v)), Record(CatalogKey(v.cnid, []), ThreadRecord(v));
    assert PairOf(v) == [a, b];
    ParentsOf(v);
    TwoTotals(a, b, UnderWeight(c));
    TwoTotals(a, b, FolderUnderWeight(c));
    hide PairOf, Total;
  }

  lemma ParentsOf(v: EntryView)
    ensures CatalogParent(CatalogKey(v.parent, v.name)) == v.parent && CatalogParent(CatalogKey(v.cnid, [])) == v.cnid
  {
    CatalogKeyReads(v.parent, v.name);
    CatalogKeyReads(v.cnid, []);
    hide CatalogKey, CatalogParent;
  }

  lemma {:induction false} ListCounts(vs: seq<EntryView>, c: nat, n: nat)
    requires n <= |vs| && forall i :: 0 <= i < |vs| ==> vs[i].cnid != ROOT_PARENT && !vs[i].kind.Unknown?
    ensures Total(CatalogRecords(vs[..n]), UnderWeight(c)) == Total(vs[..n], ViewUnder(c))
    ensures Total(CatalogRecords(vs[..n]), FolderUnderWeight(c)) == Total(vs[..n], ViewSubfolder(c))
  {
    if n > 0 {
      var front, v := vs[..n - 1], vs[n - 1];
      assert vs[..n] == front + [v];
      RecordsStep(vs, n - 1);
      hide CatalogRecords, PairOf;
      ListCounts(vs, c, n - 1);
      PairCounts(v, c);
      TotalAppend(CatalogRecords(front), PairOf(v), UnderWeight(c));
      TotalAppend(CatalogRecords(front), PairOf(v), FolderUnderWeight(c));
      TotalAppend(front, [v], ViewUnder(c));
      TotalAppend(front, [v], ViewSubfolder(c));
      TotalOne(v, ViewUnder(c));
      TotalOne(v, ViewSubfolder(c));
    } else {
      assert vs[..0] == [];
    }
  }

  /** Exactly one entry has the folder's own ID. */
  lemma {:induction false} OneSelf(vs: seq<EntryView>, c: nat, f: nat, n: nat)
    requires n <= |vs| && f < |vs| && vs[f].cnid == c && forall i :: 0 <= i < |vs| && i != f ==> vs[i].cnid != c
    ensures Total(vs[..n], ViewSelf(c)) == if f < n then 1 else 0
  {
    if n > 0 {
      OneSelf(vs, c, f, n - 1);
      assert vs[..n] == vs[..n - 1] + [vs[n - 1]];
      TotalAppend(vs[..n - 1], [vs[n - 1]], ViewSelf(c));
      TotalOne(vs[n - 1], ViewSelf(c));
    } else {
      assert vs[..0] == [];
    }
  }

  /** Entries under a folder are the nodes under it. */
  lemma ChildrenOfViews(vs: seq<EntryView>, ps: seq<Pending>, rootName: Name, nfd: Normalizer, c: nat)
    requires Walked(vs, ps, rootName, nfd) && c >= 2
    ensures Total(vs, ViewChild(c)) == Children(ps, c) && Total(vs, ViewSubfolder(c)) == Subfolders(ps, c)
  {
    RootIs(vs, ps, rootName, nfd);
    AtLeastRoot(vs, ps, rootName, nfd);
    var rest := vs[1..];
    forall i | 0 <= i < |ps| ensures ViewChild(c)(rest[i]) == ChildWeight(c)(ps[i]) && ViewSubfolder(c)(rest[i]) == SubfolderWeight(c)(ps[i]) {
      KindIs(vs, ps, rootName, nfd, i + 1);
    }
    hide Walked;
    TotalSame(rest, ViewChild(c), ps, ChildWeight(c));
    TotalSame(rest, ViewSubfolder(c), ps, SubfolderWeight(c));
  }

  /** Under a folder's ID the catalog has its thread record and its children. */
  lemma UnderCount(recs: seq<Record>, vs: seq<EntryView>, ps: seq<Pending>, rootName: Name, nfd: Normalizer, f: nat)
    requires Walked(vs, ps, rootName, nfd) && f < |vs| && forall i :: 0 <= i < |ps| ==> !ps[i].node.Other?
    requires multiset(recs) == multiset(CatalogRecords(vs))
    ensures Total(recs, UnderWeight(vs[f].cnid)) == 1 + Children(ps, vs[f].cnid)
    ensures Total(recs, FolderUnderWeight(vs[f].cnid)) == Subfolders(ps, vs[f].cnid)
  {
    var c := vs[f].cnid;
    TotalPermutation(recs, CatalogRecords(vs), UnderWeight(c));
    TotalPermutation(recs, CatalogRecords(vs), FolderUnderWeight(c));
    forall i | 0 <= i < |vs|
      ensures vs[i].cnid != ROOT_PARENT && !vs[i].kind.Unknown? && (i != f ==> vs[i].cnid != c) && c >= 2
    {
      IdsAreDistinct(vs, ps, rootName, nfd, i, f);
      IdsAreDistinct(vs, ps, rootName, nfd, f, i);
      KnownView(vs, ps, rootName, nfd, i);
    }
    assert vs[..|vs|] == vs;
    hide Walked, CatalogRecords, Total;
    ListCounts(vs, c, |vs|);
    OneSelf(vs, c, f, |vs|);
    TotalSum(vs, ViewChild(c), ViewSelf(c), ViewUnder(c));
    ChildrenOfViews(vs, ps, rootName, nfd, c);
  }

  lemma KnownView(vs: seq<EntryView>, ps: seq<Pending>, rootName: Name, nfd: Normalizer, i: nat)
    requires Walked(vs, ps, rootName, nfd) && i < |vs| && forall i :: 0 <= i < |ps| ==> !ps[i].node.Other?
    ensures !vs[i].kind.Unknown?
  {
    RootIs(vs, ps, rootName, nfd);
    if i > 0 {
      KindIs(vs, ps, rootName, nfd, i);
    }
    hide Walked;
  }

  // ----- the block

  /** A thread key is the least under its parent. */
  lemma ThreadIsLeast(c: u32, k: Key)
    requires IsCatalogKey(k) && CatalogParent(k) == c
    ensures CompareCatalog(k, CatalogKey(c, [])) >= 0
  {
    CatalogKeyReads(c, []);
    hide CatalogParent, CatalogKey, IsCatalogKey;
    assert CompareFrom(CatalogName(k), [], 0) >= 0;
    hide CatalogName;
  }

  /** The names of the records behind place `t`, up to `last`, strictly ascend. */
  ghost predicate NamesAscending(recs: seq<Record>, t: nat, last: nat)
    requires last < |recs|
  {
    forall i, j :: t < i < j <= last ==> Compare(CatalogName(recs[i].key), CatalogName(recs[j].key)) < 0
  }

  /** The records from the thread on, up to the last child. */
  ghost predicate IsFolderBlock(recs: seq<Record>, v: EntryView, t: nat) {
    && t + v.valence < |recs|
    && recs[t] == Record(CatalogKey(v.cnid, []), ThreadRecord(v))
    && (forall j :: 0 <= j < |recs| ==> (CatalogParent(recs[j].key) == v.cnid <==> t <= j <= t + v.valence))
    && NamesAscending(recs, t, t + v.valence)
    && Total(recs[t..t + v.valence + 1], FolderUnderWeight(v.cnid)) == v.subFolders
  }

  /** In the sorted catalog a folder's thread record is followed at once by exactly
      `valence` children in name order, `subFolders` of them folders. */
  lemma ChildrenFollowThread(recs: seq<Record>, vs: seq<EntryView>, ps: seq<Pending>, rootName: Name, nfd: Normalizer, f: nat)
    returns (t: nat)
    requires Walked(vs, ps, rootName, nfd) && f < |vs| && vs[f].kind.Folder? && forall i :: 0 <= i < |ps| ==> !ps[i].node.Other?
    requires multiset(recs) == multiset(CatalogRecords(vs)) && Sorted(recs, CatalogLess(), IsCatalogKey)
    ensures IsFolderBlock(recs, vs[f], t)
  {
    hide Walked, IsFolderBlock, Sorted, CatalogRecords, Total, FolderUnderWeight, UnderWeight;
    FolderCounts(recs, vs, ps, rootName, nfd, f);
    t := Block(recs, vs, f);
  }

  lemma FolderCounts(recs: seq<Record>, vs: seq<EntryView>, ps: seq<Pending>, rootName: Name, nfd: Normalizer, f: nat)
    requires Walked(vs, ps, rootName, nfd) && f < |vs| && vs[f].kind.Folder? && forall i :: 0 <= i < |ps| ==> !ps[i].node.Other?
    requires multiset(recs) == multiset(CatalogRecords(vs))
    ensures Total(recs, UnderWeight(vs[f].cnid)) == 1 + vs[f].valence && vs[f].cnid != ROOT_PARENT
    ensures Total(recs, FolderUnderWeight(vs[f].cnid)) == vs[f].subFolders
  {
    hide Walked, CatalogRecords, Children, Subfolders, Total, FolderUnderWeight, UnderWeight;
    UnderCount(recs, vs, ps, rootName, nfd, f);
    CountersOf(vs, ps, rootName, nfd, f);
    IdsAreDistinct(vs, ps, rootName, nfd, f, f);
  }

  lemma Block(recs: seq<Record>, vs: seq<EntryView>, f: nat) returns (t: nat)
    requires multiset(recs) == multiset(CatalogRecords(vs)) && Sorted(recs, CatalogLess(), IsCatalogKey)
    requires f < |vs| && vs[f].cnid != ROOT_PARENT
    requires Total(recs, UnderWeight(vs[f].cnid)) == 1 + vs[f].valence
    requires Total(recs, FolderUnderWeight(vs[f].cnid)) == vs[f].subFolders
    ensures IsFolderBlock(recs, vs[f], t)
  {
    hide Sorted, CatalogRecords, CatalogParent, CatalogName, CatalogKey, ThreadRecord, Total,
         FolderUnderWeight, UnderWeight, IsCatalogKey, NamesAscending;
    t := ThreadInPlace(recs, vs, f);
    RestOfBlock(recs, vs[f].cnid, t, vs[f].valence);
  }

  /** The records of one parent are neighbours, and its thread is the first. */
  lemma ThreadInPlace(recs: seq<Record>, vs: seq<EntryView>, f: nat) returns (t: nat)
    requires multiset(recs) == multiset(CatalogRecords(vs)) && Sorted(recs, CatalogLess(), IsCatalogKey)
    requires f < |vs| && vs[f].cnid != ROOT_PARENT
    requires Total(recs, UnderWeight(vs[f].cnid)) == 1 + vs[f].valence
    ensures t + vs[f].valence < |recs| && recs[t] == Record(CatalogKey(vs[f].cnid, []), ThreadRecord(vs[f]))
    ensures forall j :: 0 <= j < |recs| ==> (CatalogParent(recs[j].key) == vs[f].cnid <==> t <= j <= t + vs[f].valence)
  {
    hide Sorted, CatalogRecords, CatalogParent, CatalogName, CatalogKey, ThreadRecord, Total, UnderWeight, IsCatalogKey;
    t := UnderIsInterval(recs, vs[f].cnid);
    var j := ThreadListed(recs, vs, f);
    ThreadFirst(recs, vs[f], t, j);
  }

  lemma RestOfBlock(recs: seq<Record>, c: nat, t: nat, n: nat)
    requires Sorted(recs, CatalogLess(), IsCatalogKey) && t + n < |recs|
    requires forall j :: 0 <= j < |recs| ==> (CatalogParent(recs[j].key) == c <==> t <= j < t + 1 + n)
    ensures NamesAscending(recs, t, t + n)
    ensures Total(recs[t..t + n + 1], FolderUnderWeight(c)) == Total(recs, FolderUnderWeight(c))
  {
    hide Sorted, CatalogParent, Total, FolderUnderWeight, IsCatalogKey, NamesAscending;
    NamesAscend(recs, c, t, t + n);
    OnlyInBlock(recs, c, t, t + n + 1);
  }

  lemma CountersOf(vs: seq<EntryView>, ps: seq<Pending>, rootName: Name, nfd: Normalizer, f: nat)
    requires Walked(vs, ps, rootName, nfd) && f < |vs| && vs[f].kind.Folder?
    ensures vs[f].valence == Children(ps, vs[f].cnid) && vs[f].subFolders == Subfolders(ps, vs[f].cnid)
  {
    hide NoClash, NamesGiven, NeverEmpties, NameFor, Numbered, Children, Subfolders;
    assert FolderCounted(vs[f], ps);
  }

  lemma ThreadListed(recs: seq<Record>, vs: seq<EntryView>, f: nat) returns (j: nat)
    requires multiset(recs) == multiset(CatalogRecords(vs)) && f < |vs| && vs[f].cnid != ROOT_PARENT
    ensures j < |recs| && recs[j] == Record(CatalogKey(vs[f].cnid, []), ThreadRecord(vs[f]))
    ensures CatalogParent(recs[j].key) == vs[f].cnid
  {
    ParentsOf(vs[f]);
    EntryHasRecords(vs, f);
    hide CatalogRecords, CatalogKey, ThreadRecord, CatalogParent;
    var r := Record(CatalogKey(vs[f].cnid, []), ThreadRecord(vs[f]));
    assert r in multiset(recs);
    j :| 0 <= j < |recs| && recs[j] == r;
  }

  lemma ThreadFirst(recs: seq<Record>, v: EntryView, t: nat, j: nat)
    requires Sorted(recs, CatalogLess(), IsCatalogKey) && t <= j < |recs|
    requires recs[j].key == CatalogKey(v.cnid, []) && CatalogParent(recs[t].key) == v.cnid
    ensures j == t
  {
    LessAt(recs, t, j);
    InOrder(recs, t);
    hide CatalogParent, CatalogKey, Sorted, CompareCatalog;
    ThreadIsLeast(v.cnid, recs[t].key);
  }

  lemma InOrder(recs: seq<Record>, t: nat)
    requires Sorted(recs, CatalogLess(), IsCatalogKey) && t < |recs|
    ensures IsCatalogKey(recs[t].key)
  {
  }

  lemma LessAt(recs: seq<Record>, i: nat, j: nat)
    requires Sorted(recs, CatalogLess(), IsCatalogKey) && j < |recs|
    ensures i < j ==> CompareCatalog(recs[i].key, recs[j].key) < 0
  {
    hide CompareCatalog;
    if i < j {
      assert CatalogLess()(recs[i].key, recs[j].key);
    }
  }

  lemma NamesAscend(recs: seq<Record>, c: nat, t: nat, last: nat)
    requires Sorted(recs, CatalogLess(), IsCatalogKey) && last < |recs|
    requires forall j :: 0 <= j < |recs| ==> (CatalogParent(recs[j].key) == c <==> t <= j <= last)
    ensures NamesAscending(recs, t, last)
  {
    hide CatalogParent, CatalogName, Sorted, Compare;
    forall i, j | t < i < j <= last ensures Compare(CatalogName(recs[i].key), CatalogName(recs[j].key)) < 0 {
      LessAt(recs, i, j);
      assert CatalogParent(recs[i].key) == c && CatalogParent(recs[j].key) == c;
    }
  }

  lemma OnlyInBlock(recs: seq<Record>, c: nat, t: nat, end: nat)
    requires t <= end <= |recs|
    requires forall j :: 0 <= j < |recs| ==> (CatalogParent(recs[j].key) == c <==> t <= j < end)
    ensures Total(recs[t..end], FolderUnderWeight(c)) == Total(recs, FolderUnderWeight(c))
  {
    hide CatalogParent, IsFolderRecord;
    var w := FolderUnderWeight(c);
    assert recs == recs[..t] + recs[t..end] + recs[end..];
    TotalAppend(recs[..t] + recs[t..end], recs[end..], w);
    TotalAppend(recs[..t], recs[t..end], w);
    TotalZero(recs[..t], w);
    TotalZero(recs[end..], w);
  }
}
