/** Catalog and attribute keys: their bytes, and the order both trees are sorted
    and searched by. */
module Keys {
  import opened Bytes
  import opened Unicode
  import opened Tower
  import opened TreeReader

  // ----- ordering by a number, then by a name

  function CompareRanked(p: nat, a: Name, q: nat, b: Name): (c: int)
    ensures -1 <= c <= 1
  {
    if p < q then -1 else if p > q then 1 else Compare(a, b)
  }

  lemma RankedTotal(p: nat, a: Name, q: nat, b: Name)
    ensures CompareRanked(p, a, q, b) == 0 <==> p == q && a == b
    ensures CompareRanked(q, b, p, a) == -CompareRanked(p, a, q, b)
  {
    hide CompareFrom;
    CompareIsTotal(a, b, 0);
  }

  lemma RankedTransitive(p: nat, a: Name, q: nat, b: Name, r: nat, c: Name)
    requires CompareRanked(p, a, q, b) < 0 && CompareRanked(q, b, r, c) < 0
    ensures CompareRanked(p, a, r, c) < 0
  {
    hide CompareFrom;
    if p == q == r {
      CompareIsTransitive(a, b, c, 0);
    }
  }

  type Comparison = (Key, Key) -> int

  function LessBy(cmp: Comparison): Order {
    (a, b) => cmp(a, b) < 0
  }

  /** A comparison by rank and name orders its domain strictly, if rank and name
      together tell the keys apart. */
  lemma RankedIsStrict(cmp: Comparison, dom: Key -> bool, rank: Key -> nat, name: Key -> Name)
    requires forall a, b :: dom(a) && dom(b) ==> cmp(a, b) == CompareRanked(rank(a), name(a), rank(b), name(b))
    requires forall a, b :: dom(a) && dom(b) && rank(a) == rank(b) && name(a) == name(b) ==> a == b
    ensures StrictOrder(LessBy(cmp), dom)
    ensures forall a, b :: dom(a) && dom(b) ==> (cmp(a, b) == 0 <==> a == b) && cmp(b, a) == -cmp(a, b)
  {
    var lt := LessBy(cmp);
    hide CompareRanked;
    forall a, b | dom(a) && dom(b) ensures (cmp(a, b) == 0 <==> a == b) && cmp(b, a) == -cmp(a, b) {
      RankedTotal(rank(a), name(a), rank(b), name(b));
    }
    forall a, b, c | dom(a) && dom(b) && dom(c) && lt(a, b) && lt(b, c) ensures lt(a, c) {
      RankedTransitive(rank(a), name(a), rank(b), name(b), rank(c), name(c));
    }
  }

  // ----- catalog keys: parent, name length, name

  const CATALOG_NAME_AT: nat := 6

  function CatalogKey(parent: nat, name: Name): (k: Key)
    ensures |k| == CATALOG_NAME_AT + 2 * |name|
  {
    U32(parent) + U16(|name|) + NameBytes(name)
  }

  predicate IsCatalogKey(k: Key) {
    |k| >= CATALOG_NAME_AT && |k| == CATALOG_NAME_AT + 2 * Get16(k, 4)
  }

  function CatalogParent(k: Key): nat {
    if |k| < CATALOG_NAME_AT then 0 else Get32(k, 0)
  }

  function CatalogName(k: Key): Name {
    if !IsCatalogKey(k) then [] else UnitsAt(k, CATALOG_NAME_AT, Get16(k, 4))
  }

  function CompareCatalog(a: Key, b: Key): (c: int) {
    CompareRanked(CatalogParent(a), CatalogName(a), CatalogParent(b), CatalogName(b))
  }

  method EncodeCatalogKey(parent: nat, name: Name) returns (key: Key)
    ensures key == CatalogKey(parent, name)
  {
    hide U16, U32, NameBytes;
    var buf := new byte[6 + 2 * |name|](_ => 0);
    Put(buf, 0, U32(parent));
    Put(buf, 4, U16(|name|));
    PutName(buf, 6, name);
    return buf[..];
  }

  /** The key's fields read back. */
  lemma CatalogKeyReads(parent: nat, name: Name)
    requires parent < 0x1_0000_0000 && |name| < 0x1_0000
    ensures IsCatalogKey(CatalogKey(parent, name))
    ensures CatalogParent(CatalogKey(parent, name)) == parent && CatalogName(CatalogKey(parent, name)) == name
    ensures var k := CatalogKey(parent, name);
      && |k| == 6 + 2 * |name| && Get32(k, 0) == parent && Get16(k, 4) == |name|
      && forall i :: 0 <= i < |name| ==> Get16(k, 6 + 2 * i) == name[i]
  {
    var k := CatalogKey(parent, name);
    hide U16, U32, NameBytes, Get16, Get32, UnitsAt;
    assert k[0..4] == U32(parent) && k[4..6] == U16(|name|) && k[6..6 + 2 * |name|] == NameBytes(name);
    Get32Slice(k, 0, parent);
    Get16Slice(k, 4, |name|);
    NameReadsBack(k, 6, name);
  }

  lemma U32Of(b: seq<byte>)
    requires |b| == 4
    ensures U32(Get32(b, 0)) == b
  {
    U16Of(b[0..2]);
    U16Of(b[2..4]);
    assert Get16(b, 0) == Get16(b[0..2], 0) && Get16(b, 2) == Get16(b[2..4], 0);
    var hi, lo := Get16(b, 0), Get16(b, 2);
    Halves(hi, lo);
    hide Get16, U16;
    assert b == b[0..2] + b[2..4];
  }

  lemma Halves(hi: nat, lo: nat)
    requires lo < 0x1_0000 && hi < 0x1_0000
    ensures U32(hi * 0x1_0000 + lo) == U16(hi) + U16(lo)
  {
    var v := hi * 0x1_0000 + lo;
    assert v / 0x1_0000 == hi;
    assert v / 0x100 == hi * 0x100 + lo / 0x100;
    assert v / 0x100 % 0x100 == lo / 0x100 % 0x100 && v % 0x100 == lo % 0x100;
  }

  /** Parent and name determine the key. */
  lemma CatalogKeyIs(k: Key)
    requires IsCatalogKey(k)
    ensures k == CatalogKey(CatalogParent(k), CatalogName(k))
  {
    KeyField16(k, 4);
    KeyField32(k, 0);
    hide U16, U32, NameBytes, Get16, Get32;
    BytesReadBack(k, 6, Get16(k, 4));
    assert k == k[0..4] + k[4..6] + k[6..];
  }

  lemma KeyField16(k: Key, at: nat)
    requires at + 2 <= |k|
    ensures U16(Get16(k, at)) == k[at..at + 2]
  {
    U16Of(k[at..at + 2]);
  }

  lemma KeyField32(k: Key, at: nat)
    requires at + 4 <= |k|
    ensures U32(Get32(k, at)) == k[at..at + 4]
  {
    var b := k[at..at + 4];
    assert Get16(b, 0) == Get16(k, at) && Get16(b, 2) == Get16(k, at + 2);
    U32Of(b);
  }

  /** A strict total order, equal only on identical bytes. */
  lemma CatalogOrder()
    ensures StrictOrder(LessBy(CompareCatalog), IsCatalogKey)
    ensures forall a, b :: IsCatalogKey(a) && IsCatalogKey(b) ==>
      (CompareCatalog(a, b) == 0 <==> a == b) && CompareCatalog(b, a) == -CompareCatalog(a, b)
  {
    forall a, b | IsCatalogKey(a) && IsCatalogKey(b) && CatalogParent(a) == CatalogParent(b)
                  && CatalogName(a) == CatalogName(b)
      ensures a == b
    {
      CatalogKeyIs(a);
      CatalogKeyIs(b);
    }
    hide CatalogParent, CatalogName, IsCatalogKey, CompareRanked;
    RankedIsStrict(CompareCatalog, IsCatalogKey, CatalogParent, CatalogName);
  }

  /** Under one parent the keys compare as their names do. */
  lemma CatalogAgreesWithNames(parent: nat, a: Name, b: Name)
    requires parent < 0x1_0000_0000 && |a| < 0x1_0000 && |b| < 0x1_0000
    ensures CompareCatalog(CatalogKey(parent, a), CatalogKey(parent, b)) == Compare(a, b)
  {
    CatalogKeyReads(parent, a);
    CatalogKeyReads(parent, b);
  }

  /** Under two parents the smaller ID comes first, whatever the names. */
  lemma CatalogParentsFirst(p: nat, a: Name, q: nat, b: Name)
    requires p < 0x1_0000_0000 && q < 0x1_0000_0000 && |a| < 0x1_0000 && |b| < 0x1_0000
    ensures p < q ==> CompareCatalog(CatalogKey(p, a), CatalogKey(q, b)) == -1
    ensures p > q ==> CompareCatalog(CatalogKey(p, a), CatalogKey(q, b)) == 1
  {
    CatalogKeyReads(p, a);
    CatalogKeyReads(q, b);
    hide CatalogKey, CatalogParent, CatalogName, IsCatalogKey, Compare;
  }

  method CompareCatalogKeys(a: Key, b: Key) returns (c: int)
    requires IsCatalogKey(a) && IsCatalogKey(b)
    ensures c == CompareCatalog(a, b)
  {
    hide Get32, Get16, CompareFrom;
    var pa, pb := Get32(a, 0), Get32(b, 0);
    if pa < pb {
      return -1;
    }
    if pa > pb {
      return 1;
    }
    c := CompareUnits(a, b, 6, Get16(a, 4), Get16(b, 4));
  }

  /** The loop over the name field both comparisons end in. */
  method CompareUnits(a: Key, b: Key, at: nat, la: nat, lb: nat) returns (c: int)
    requires at + 2 * la <= |a| && at + 2 * lb <= |b|
    ensures c == Compare(UnitsAt(a, at, la), UnitsAt(b, at, lb))
  {
    hide Get16;
    ghost var na, nb := UnitsAt(a, at, la), UnitsAt(b, at, lb);
    var least := if lb < la then lb else la;
    for i := 0 to least
      invariant CompareFrom(na, nb, 0) == CompareFrom(na, nb, i)
    {
      var ua: int, ub: int := Get16(a, at + i * 2), Get16(b, at + i * 2);
      assert na[i] == ua && nb[i] == ub;
      if ua < ub {
        return -1;
      }
      if ua > ub {
        return 1;
      }
    }
    return if la < lb then -1 else if la > lb then 1 else 0;
  }

  /** Parent and name back out of a key, for an error message. */
  method DescribeCatalogKey(key: Key) returns (parent: nat, name: Name)
    requires |key| >= 6
    ensures IsCatalogKey(key) ==> key == CatalogKey(parent, name)
  {
    hide U16, U32, NameBytes, Get16, Get32;
    parent := Get32(key, 0);
    name := ReadUnits(key, 6, Get16(key, 4));
    if IsCatalogKey(key) {
      CatalogKeyIs(key);
    }
  }

  /** At most `n` units at `at`, stopping early where the buffer ends. */
  method ReadUnits(b: seq<byte>, at: nat, n: nat) returns (units: Name)
    ensures at + 2 * n <= |b| ==> units == UnitsAt(b, at, n)
  {
    hide Get16;
    units := [];
    var i := 0;
    while i < n && at + i * 2 + 2 <= |b|
      invariant i <= n && |units| == i
      invariant forall j :: 0 <= j < i ==> at + 2 * j + 2 <= |b| && units[j] == Get16(b, at + 2 * j)
    {
      units := units + [Get16(b, at + i * 2)];
      i := i + 1;
    }
  }

  // ----- attribute keys: pad, file, start block, name length, name

  const ATTR_NAME_AT: nat := 12

  function AttrKey(fileID: nat, startBlock: nat, name: Name): (k: Key)
    ensures |k| == ATTR_NAME_AT + 2 * |name|
  {
    U16(0) + U32(fileID) + U32(startBlock) + U16(|name|) + NameBytes(name)
  }

  predicate IsAttrKey(k: Key) {
    |k| >= ATTR_NAME_AT && |k| == ATTR_NAME_AT + 2 * Get16(k, 10) && k[0] == 0 && k[1] == 0
  }

  /** File and start block as one number. */
  function AttrRank(k: Key): nat {
    if |k| < ATTR_NAME_AT then 0 else Get32(k, 2) * 0x1_0000_0000 + Get32(k, 6)
  }

  function AttrName(k: Key): Name {
    if !IsAttrKey(k) then [] else UnitsAt(k, ATTR_NAME_AT, Get16(k, 10))
  }

  function CompareAttr(a: Key, b: Key): (c: int) {
    CompareRanked(AttrRank(a), AttrName(a), AttrRank(b), AttrName(b))
  }

  method EncodeAttrKey(fileID: nat, startBlock: nat, name: Name) returns (key: Key)
    ensures key == AttrKey(fileID, startBlock, name)
  {
    hide U16, U32, NameBytes, Splice;
    var buf := new byte[2 + 4 + 4 + 2 + 2 * |name|](_ => 0);
    ghost var s := buf[..];
    Put(buf, 0, U16(0));
    Put(buf, 2, U32(fileID));
    Put(buf, 6, U32(startBlock));
    Put(buf, 10, U16(|name|));
    PutName(buf, 12, name);
    SpliceTwice(s, 0, U16(0), U32(fileID));
    SpliceTwice(s, 0, U16(0) + U32(fileID), U32(startBlock));
    SpliceTwice(s, 0, U16(0) + U32(fileID) + U32(startBlock), U16(|name|));
    SpliceTwice(s, 0, U16(0) + U32(fileID) + U32(startBlock) + U16(|name|), NameBytes(name));
    SpliceAll(s, AttrKey(fileID, startBlock, name));
    return buf[..];
  }

  lemma SpliceAll<T>(s: seq<T>, bs: seq<T>)
    requires |s| == |bs|
    ensures Splice(s, 0, bs) == bs
  {
  }

  lemma AttrKeyFields(fileID: nat, startBlock: nat, name: Name)
    requires fileID < 0x1_0000_0000 && startBlock < 0x1_0000_0000 && |name| < 0x1_0000
    ensures var k := AttrKey(fileID, startBlock, name);
      && Get32(k, 2) == fileID && Get32(k, 6) == startBlock && Get16(k, 10) == |name|
      && UnitsAt(k, 12, |name|) == name
  {
    var k := AttrKey(fileID, startBlock, name);
    hide U32, U16, NameBytes, Get16, Get32, UnitsAt;
    FiveParts(U16(0), U32(fileID), U32(startBlock), U16(|name|), NameBytes(name));
    Get32Slice(k, 2, fileID);
    Get32Slice(k, 6, startBlock);
    Get16Slice(k, 10, |name|);
    NameReadsBack(k, 12, name);
  }

  lemma AttrKeyReads(fileID: nat, startBlock: nat, name: Name)
    requires fileID < 0x1_0000_0000 && startBlock < 0x1_0000_0000 && |name| < 0x1_0000
    ensures IsAttrKey(AttrKey(fileID, startBlock, name))
    ensures AttrRank(AttrKey(fileID, startBlock, name)) == fileID * 0x1_0000_0000 + startBlock
    ensures AttrName(AttrKey(fileID, startBlock, name)) == name
    ensures var k := AttrKey(fileID, startBlock, name);
      && |k| == 12 + 2 * |name| && k[0] == k[1] == 0
      && Get32(k, 2) == fileID && Get32(k, 6) == startBlock && Get16(k, 10) == |name|
      && forall i :: 0 <= i < |name| ==> Get16(k, 12 + 2 * i) == name[i]
  {
    var k := AttrKey(fileID, startBlock, name);
    assert k[0] == U16(0)[0] && k[1] == U16(0)[1];
    hide U32, NameBytes, Get16, Get32, UnitsAt;
    AttrKeyFields(fileID, startBlock, name);
  }

  lemma FiveParts<T>(a: seq<T>, b: seq<T>, c: seq<T>, d: seq<T>, e: seq<T>)
    requires |a| == 2 && |b| == 4 && |c| == 4 && |d| == 2
    ensures var k := a + b + c + d + e;
      k[2..6] == b && k[6..10] == c && k[10..12] == d && k[12..12 + |e|] == e
  {
  }

  lemma AttrKeyIs(k: Key)
    requires IsAttrKey(k)
    ensures k == AttrKey(Get32(k, 2), Get32(k, 6), AttrName(k))
  {
    KeyField32(k, 2);
    KeyField32(k, 6);
    KeyField16(k, 10);
    assert k[0..2] == U16(0);
    hide U16, U32, NameBytes, Get16, Get32;
    BytesReadBack(k, 12, Get16(k, 10));
    assert k == k[0..2] + k[2..6] + k[6..10] + k[10..12] + k[12..];
  }

  lemma RankSplits(a: Key, b: Key)
    requires |a| >= ATTR_NAME_AT && |b| >= ATTR_NAME_AT
    ensures AttrRank(a) < AttrRank(b) <==>
      Get32(a, 2) < Get32(b, 2) || (Get32(a, 2) == Get32(b, 2) && Get32(a, 6) < Get32(b, 6))
  {
    hide Get32;
  }

  lemma AttrOrder()
    ensures StrictOrder(LessBy(CompareAttr), IsAttrKey)
    ensures forall a, b :: IsAttrKey(a) && IsAttrKey(b) ==>
      (CompareAttr(a, b) == 0 <==> a == b) && CompareAttr(b, a) == -CompareAttr(a, b)
  {
    forall a, b | IsAttrKey(a) && IsAttrKey(b) && AttrRank(a) == AttrRank(b) && AttrName(a) == AttrName(b)
      ensures a == b
    {
      AttrKeyIs(a);
      AttrKeyIs(b);
      RankSplits(a, b);
      RankSplits(b, a);
    }
    hide AttrRank, AttrName, IsAttrKey, CompareRanked;
    RankedIsStrict(CompareAttr, IsAttrKey, AttrRank, AttrName);
  }

  lemma AttrAgreesWithNames(fileID: nat, a: Name, b: Name)
    requires fileID < 0x1_0000_0000 && |a| < 0x1_0000 && |b| < 0x1_0000
    ensures CompareAttr(AttrKey(fileID, 0, a), AttrKey(fileID, 0, b)) == Compare(a, b)
  {
    AttrKeyReads(fileID, 0, a);
    AttrKeyReads(fileID, 0, b);
  }

  /** The file decides first, then the start block. */
  lemma AttrFilesFirst(file: nat, block: nat, a: Name, file': nat, block': nat, b: Name)
    requires file < 0x1_0000_0000 && block < 0x1_0000_0000 && |a| < 0x1_0000
    requires file' < 0x1_0000_0000 && block' < 0x1_0000_0000 && |b| < 0x1_0000
    ensures file < file' || (file == file' && block < block') ==>
      CompareAttr(AttrKey(file, block, a), AttrKey(file', block', b)) == -1
    ensures file > file' || (file == file' && block > block') ==>
      CompareAttr(AttrKey(file, block, a), AttrKey(file', block', b)) == 1
  {
    AttrKeyReads(file, block, a);
    AttrKeyReads(file', block', b);
    hide AttrKey, AttrRank, AttrName, IsAttrKey, Compare;
  }

  method CompareAttrKeys(a: Key, b: Key) returns (c: int)
    requires IsAttrKey(a) && IsAttrKey(b)
    ensures c == CompareAttr(a, b)
  {
    hide Get32, Get16, CompareFrom;
    RankSplits(a, b);
    RankSplits(b, a);
    var fa, fb := Get32(a, 2), Get32(b, 2);
    if fa != fb {
      return if fa < fb then -1 else 1;
    }
    var sa, sb := Get32(a, 6), Get32(b, 6);
    if sa != sb {
      return if sa < sb then -1 else 1;
    }
    c := CompareUnits(a, b, 12, Get16(a, 10), Get16(b, 10));
  }

  method DescribeAttrKey(key: Key) returns (fileID: nat, name: Name)
    requires |key| >= 12
    ensures IsAttrKey(key) ==> exists startBlock :: key == AttrKey(fileID, startBlock, name)
  {
    hide U16, U32, NameBytes, Get16, Get32;
    fileID := Get32(key, 2);
    name := ReadUnits(key, 12, Get16(key, 10));
    if IsAttrKey(key) {
      AttrKeyIs(key);
    }
  }
}
