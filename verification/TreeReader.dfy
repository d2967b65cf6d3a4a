/** A reader of B-tree images: search from the root by index records, and walks
    along the leaf chain in both directions. It knows nothing of the builder. */
module TreeReader {
  import opened Bytes
  import opened Wrappers
  import opened Tower
  import opened NodeCodec

  type Order = (Key, Key) -> bool

  /** `lt` is a strict total order on the keys `dom` admits. */
  ghost predicate StrictOrder(lt: Order, dom: Key -> bool) {
    && (forall a, b {:trigger lt(a, b)} :: dom(a) && dom(b) ==>
          (lt(a, b) || lt(b, a) || a == b) && !(lt(a, b) && lt(b, a)))
    && (forall a, b, c {:trigger lt(a, b), lt(b, c)} :: dom(a) && dom(b) && dom(c) && lt(a, b) && lt(b, c) ==> lt(a, c))
  }

  ghost predicate Sorted(recs: seq<Record>, lt: Order, dom: Key -> bool) {
    && (forall i :: 0 <= i < |recs| ==> dom(recs[i].key))
    && (forall i, j :: 0 <= i < j < |recs| ==> lt(recs[i].key, recs[j].key))
  }

  /** What looking `q` up in a record list has to return. */
  ghost predicate IsLookup(recs: seq<Record>, q: Key, found: Option<seq<byte>>) {
    match found
    case Some(data) => Record(q, data) in recs
    case None => forall i :: 0 <= i < |recs| ==> recs[i].key != q
  }

  // ----- reading nodes out of an image

  predicate HasNode(img: seq<byte>, nodeSize: nat, num: nat) {
    DESCRIPTOR_SIZE <= nodeSize && num * nodeSize + nodeSize <= |img|
  }

  function NodeAt(img: seq<byte>, nodeSize: nat, num: nat): (node: seq<byte>)
    requires HasNode(img, nodeSize, num)
    ensures |node| == nodeSize
  {
    img[num * nodeSize..num * nodeSize + nodeSize]
  }

  /** The last of the first `n` records whose key is not above `q`. */
  function LastNotAbove(node: seq<byte>, n: nat, q: Key, lt: Order): Option<Record>
  {
    if n == 0 then None
    else
      match ReadRecord(node, n - 1)
      case Some(r) => if !lt(q, r.key) then Some(r) else LastNotAbove(node, n - 1, q, lt)
      case None => None
  }

  function Scan(node: seq<byte>, n: nat, q: Key): Option<seq<byte>>
  {
    if n == 0 then None
    else
      match ReadRecord(node, n - 1)
      case Some(r) => if r.key == q then Some(r.data) else Scan(node, n - 1, q)
      case None => None
  }

  /** Look `q` up below node `num`, which must have the height and kind its depth
      calls for. Heights are stored in one byte. */
  function Search(img: seq<byte>, nodeSize: nat, num: nat, depth: nat, q: Key, lt: Order): Option<seq<byte>>
    decreases depth
  {
    if depth == 0 || !HasNode(img, nodeSize, num) then None
    else
      var node := NodeAt(img, nodeSize, num);
      if HeightOf(node) != depth % 0x100 then None
      else if depth == 1 then
        if KindOf(node) == LEAF_KIND then Scan(node, NumRecords(node), q) else None
      else if KindOf(node) != INDEX_KIND then None
      else
        match LastNotAbove(node, NumRecords(node), q, lt)
        case Some(r) => if |r.data| == 4 then Search(img, nodeSize, Get32(r.data, 0), depth - 1, q, lt) else None
        case None => None
  }

  // ----- the tree an image stands for

  datatype Tree = Leaf(recs: seq<Record>) | Index(kids: seq<Tree>)

  /** The records below a node, in order. */
  function Under(t: Tree): seq<Record>
    decreases t, 1
  {
    match t
    case Leaf(recs) => recs
    case Index(kids) => UnderAll(kids)
  }

  function UnderAll(ts: seq<Tree>): seq<Record>
    decreases ts, 0
  {
    if ts == [] then [] else Under(ts[0]) + UnderAll(ts[1..])
  }

  /** No node is empty. */
  predicate Solid(t: Tree) {
    match t
    case Leaf(recs) => recs != []
    case Index(kids) => kids != [] && forall i :: 0 <= i < |kids| ==> Solid(kids[i])
  }

  function FirstKeyOf(t: Tree): Key
    requires Solid(t)
  {
    match t
    case Leaf(recs) => recs[0].key
    case Index(kids) => FirstKeyOf(kids[0])
  }

  lemma {:induction false} FirstKeyIsFirst(t: Tree)
    requires Solid(t)
    ensures Under(t) != [] && Under(t)[0].key == FirstKeyOf(t)
  {
    match t {
      case Leaf(_) =>
      case Index(kids) => FirstKeyIsFirst(kids[0]);
    }
  }

  lemma {:induction false} UnderAllAppend(a: seq<Tree>, b: seq<Tree>)
    ensures UnderAll(a + b) == UnderAll(a) + UnderAll(b)
  {
    if a == [] {
      assert a + b == b;
    } else {
      assert (a + b)[0] == a[0] && (a + b)[1..] == a[1..] + b;
      UnderAllAppend(a[1..], b);
    }
  }

  /** The node reads back as these records. */
  ghost predicate ReadsAs(node: seq<byte>, kind: byte, height: nat, recs: seq<Record>)
    requires |node| >= DESCRIPTOR_SIZE
  {
    && KindOf(node) == kind && HeightOf(node) == height && NumRecords(node) == |recs|
    && forall i :: 0 <= i < |recs| ==> ReadRecord(node, i) == Some(recs[i])
  }

  lemma PageReadsAs(node: seq<byte>, desc: Desc, recs: seq<Record>)
    requires PageHolds(node, desc, recs) && desc.numRecords == |recs|
    ensures ReadsAs(node, desc.kind, desc.height, recs)
  {
    hide PageHolds, ReadRecord, KindOf, HeightOf, NumRecords;
    FewRecords(node, desc, recs);
    DescReadsBack(node, desc, recs);
    forall i | 0 <= i < |recs| ensures ReadRecord(node, i) == Some(recs[i]) {
      RecordReadsBack(node, desc, recs, i);
    }
  }

  /** Node `num` of the image is the root of `t`, `depth` levels above nothing. */
  ghost predicate Represents(img: seq<byte>, nodeSize: nat, num: nat, t: Tree, depth: nat)
    requires Solid(t)
    decreases t
  {
    && HasNode(img, nodeSize, num)
    && var node := NodeAt(img, nodeSize, num);
       match t
       case Leaf(recs) => depth == 1 && ReadsAs(node, LEAF_KIND, 1, recs)
       case Index(kids) =>
         && depth > 1
         && KindOf(node) == INDEX_KIND && HeightOf(node) == depth % 0x100 && NumRecords(node) == |kids|
         && forall j :: 0 <= j < |kids| ==>
              && ReadRecord(node, j).Some?
              && ReadRecord(node, j).value.key == FirstKeyOf(kids[j])
              && |ReadRecord(node, j).value.data| == 4
              && Represents(img, nodeSize, Get32(ReadRecord(node, j).value.data, 0), kids[j], depth - 1)
  }

  // ----- search is correct

  lemma {:induction false} ScanFinds(node: seq<byte>, recs: seq<Record>, n: nat, q: Key)
    requires n <= |recs| && forall i :: 0 <= i < |recs| ==> ReadRecord(node, i) == Some(recs[i])
    ensures IsLookup(recs[..n], q, Scan(node, n, q))
  {
    hide ReadRecord;
    if n > 0 {
      ScanFinds(node, recs, n - 1, q);
      assert recs[..n] == recs[..n - 1] + [recs[n - 1]];
    }
  }

  /** The index record the descent follows: the last whose key is not above. */
  lemma {:induction false} LastNotAboveIs(node: seq<byte>, keys: seq<Key>, n: nat, q: Key, lt: Order)
    requires n <= |keys|
    requires forall j :: 0 <= j < |keys| ==> ReadRecord(node, j).Some? && ReadRecord(node, j).value.key == keys[j]
    ensures var r := LastNotAbove(node, n, q, lt);
      && (r.None? ==> forall j :: 0 <= j < n ==> lt(q, keys[j]))
      && (r.Some? ==> exists j :: 0 <= j < n && r == ReadRecord(node, j) && !lt(q, keys[j])
                                  && forall k :: j < k < n ==> lt(q, keys[k]))
  {
    hide ReadRecord;
    if n > 0 && lt(q, keys[n - 1]) {
      LastNotAboveIs(node, keys, n - 1, q, lt);
    }
  }

  /** A sorted list cut in three: outside the middle there is no `q`, so looking
      it up there is looking it up everywhere. */
  lemma LookupInPart(a: seq<Record>, b: seq<Record>, c: seq<Record>, q: Key, found: Option<seq<byte>>,
                     lt: Order, dom: Key -> bool)
    requires StrictOrder(lt, dom) && dom(q) && Sorted(a + b + c, lt, dom) && b != []
    requires !lt(q, b[0].key)
    requires c != [] ==> lt(q, c[0].key)
    requires IsLookup(b, q, found)
    ensures IsLookup(a + b + c, q, found)
  {
    var all := a + b + c;
    assert all[|a|] == b[0];
    match found {
      case Some(data) =>
        var i :| 0 <= i < |b| && b[i] == Record(q, data);
        assert all[|a| + i] == b[i];
      case None =>
        forall i | 0 <= i < |all| ensures all[i].key != q {
          if i < |a| {
            assert lt(all[i].key, all[|a|].key);
          } else if i < |a| + |b| {
            assert all[i] == b[i - |a|];
          } else {
            assert all[|a| + |b|] == c[0];
            assert i > |a| + |b| ==> lt(all[|a| + |b|].key, all[i].key);
          }
        }
    }
  }

  lemma LookupBelowAll(recs: seq<Record>, q: Key, lt: Order, dom: Key -> bool)
    requires StrictOrder(lt, dom) && dom(q) && Sorted(recs, lt, dom) && recs != [] && lt(q, recs[0].key)
    ensures IsLookup(recs, q, None)
  {
    forall i | 0 <= i < |recs| ensures recs[i].key != q {
      assert i > 0 ==> lt(recs[0].key, recs[i].key);
    }
  }

  lemma SortedPart(a: seq<Record>, b: seq<Record>, c: seq<Record>, lt: Order, dom: Key -> bool)
    requires Sorted(a + b + c, lt, dom)
    ensures Sorted(b, lt, dom)
  {
    var all := a + b + c;
    forall i | 0 <= i < |b| ensures b[i] == all[|a| + i] {
    }
  }

  /** The three parts of an index node's records: before, below and after kid `j`. */
  lemma KidParts(kids: seq<Tree>, j: nat)
    requires j < |kids| && Solid(Index(kids))
    ensures UnderAll(kids) == UnderAll(kids[..j]) + Under(kids[j]) + UnderAll(kids[j + 1..])
    ensures Under(kids[j]) != [] && Under(kids[j])[0].key == FirstKeyOf(kids[j])
    ensures UnderAll(kids[j + 1..]) != [] ==>
      j + 1 < |kids| && UnderAll(kids[j + 1..])[0].key == FirstKeyOf(kids[j + 1])
  {
    assert kids[..j] + kids[j..] == kids;
    UnderAllAppend(kids[..j], kids[j..]);
    assert kids[j..][0] == kids[j] && kids[j..][1..] == kids[j + 1..];
    FirstKeyIsFirst(kids[j]);
    if j + 1 < |kids| {
      assert kids[j + 1..][0] == kids[j + 1];
      FirstKeyIsFirst(kids[j + 1]);
    }
  }

  /** Search by index records finds each record's data and finds nothing for any
      other key, at any depth. */
  lemma {:induction false} SearchFinds(img: seq<byte>, nodeSize: nat, num: nat, t: Tree, depth: nat, q: Key,
                                       lt: Order, dom: Key -> bool)
    requires Solid(t) && Represents(img, nodeSize, num, t, depth)
    requires StrictOrder(lt, dom) && dom(q) && Sorted(Under(t), lt, dom)
    ensures IsLookup(Under(t), q, Search(img, nodeSize, num, depth, q, lt))
    decreases t
  {
    hide ReadRecord, StrictOrder, NodeAt, Sorted, IsLookup;
    var node := NodeAt(img, nodeSize, num);
    match t {
      case Leaf(recs) =>
        ScanFinds(node, recs, |recs|, q);
        assert recs[..|recs|] == recs;
      case Index(kids) =>
        SearchIndex(img, nodeSize, num, kids, depth, q, lt, dom);
        var chosen := LastNotAbove(node, |kids|, q, lt);
        if chosen.Some? {
          var j := Chosen(node, kids, q, lt);
          KidParts(kids, j);
          var a, b, c := UnderAll(kids[..j]), Under(kids[j]), UnderAll(kids[j + 1..]);
          SortedPart(a, b, c, lt, dom);
          SearchFinds(img, nodeSize, Get32(chosen.value.data, 0), kids[j], depth - 1, q, lt, dom);
          LookupInPart(a, b, c, q, Search(img, nodeSize, num, depth, q, lt), lt, dom);
        } else {
          LastNotAboveIs(node, seq(|kids|, i requires 0 <= i < |kids| => FirstKeyOf(kids[i])), |kids|, q, lt);
          KidParts(kids, 0);
          FirstKeyIsFirst(t);
          LookupBelowAll(Under(t), q, lt, dom);
        }
    }
  }

  lemma SearchIndex(img: seq<byte>, nodeSize: nat, num: nat, kids: seq<Tree>, depth: nat, q: Key,
                    lt: Order, dom: Key -> bool)
    requires Solid(Index(kids)) && Represents(img, nodeSize, num, Index(kids), depth)
    ensures var r := LastNotAbove(NodeAt(img, nodeSize, num), |kids|, q, lt);
      Search(img, nodeSize, num, depth, q, lt)
      == if r.Some? && |r.value.data| == 4 then Search(img, nodeSize, Get32(r.value.data, 0), depth - 1, q, lt) else None
  {
    hide LastNotAbove, ReadRecord, NodeAt;
  }

  lemma Chosen(node: seq<byte>, kids: seq<Tree>, q: Key, lt: Order) returns (j: nat)
    requires Solid(Index(kids))
    requires forall i :: 0 <= i < |kids| ==>
      ReadRecord(node, i).Some? && ReadRecord(node, i).value.key == FirstKeyOf(kids[i])
    requires LastNotAbove(node, |kids|, q, lt).Some?
    ensures j < |kids| && LastNotAbove(node, |kids|, q, lt) == ReadRecord(node, j)
    ensures !lt(q, FirstKeyOf(kids[j])) && (j + 1 < |kids| ==> lt(q, FirstKeyOf(kids[j + 1])))
  {
    var keys := seq(|kids|, i requires 0 <= i < |kids| => FirstKeyOf(kids[i]));
    LastNotAboveIs(node, keys, |kids|, q, lt);
    var r := LastNotAbove(node, |kids|, q, lt);
    j :| 0 <= j < |kids| && r == ReadRecord(node, j) && !lt(q, keys[j]) && forall k :: j < k < |kids| ==> lt(q, keys[k]);
    assert j + 1 < |kids| ==> lt(q, keys[j + 1]);
  }

  // ----- the leaf chain

  function ReadAll(node: seq<byte>, n: nat): seq<Record>
  {
    if n == 0 then []
    else
      match ReadRecord(node, n - 1)
      case Some(r) => ReadAll(node, n - 1) + [r]
      case None => ReadAll(node, n - 1)
  }

  lemma {:induction false} ReadAllReads(node: seq<byte>, recs: seq<Record>, n: nat)
    requires n <= |recs| && forall i :: 0 <= i < |recs| ==> ReadRecord(node, i) == Some(recs[i])
    ensures ReadAll(node, n) == recs[..n]
  {
    hide ReadRecord;
    if n > 0 {
      ReadAllReads(node, recs, n - 1);
      assert recs[..n] == recs[..n - 1] + [recs[n - 1]];
    }
  }

  /** The leaves met following forward links from `num`, at most `most` of them. */
  function ForwardLeaves(img: seq<byte>, nodeSize: nat, num: nat, most: nat): seq<seq<Record>>
    decreases most
  {
    if most == 0 || !HasNode(img, nodeSize, num) then []
    else
      var node := NodeAt(img, nodeSize, num);
      if KindOf(node) != LEAF_KIND then []
      else
        [ReadAll(node, NumRecords(node))]
        + if FLink(node) == 0 then [] else ForwardLeaves(img, nodeSize, FLink(node), most - 1)
  }

  /** The leaves met following backward links, put back in order. */
  function BackwardLeaves(img: seq<byte>, nodeSize: nat, num: nat, most: nat): seq<seq<Record>>
    decreases most
  {
    if most == 0 || !HasNode(img, nodeSize, num) then []
    else
      var node := NodeAt(img, nodeSize, num);
      if KindOf(node) != LEAF_KIND then []
      else
        (if BLink(node) == 0 then [] else BackwardLeaves(img, nodeSize, BLink(node), most - 1))
        + [ReadAll(node, NumRecords(node))]
  }

  /** Leaves at consecutive node numbers from `first`, chained both ways. */
  ghost predicate Chained(img: seq<byte>, nodeSize: nat, first: nat, leaves: seq<seq<Record>>) {
    && 0 < first && first + |leaves| <= 0x1_0000_0000
    && forall i :: 0 <= i < |leaves| ==> ChainedAt(img, nodeSize, first, leaves, i)
  }

  ghost predicate ChainedAt(img: seq<byte>, nodeSize: nat, first: nat, leaves: seq<seq<Record>>, i: nat)
    requires i < |leaves|
  {
    && HasNode(img, nodeSize, first + i)
    && ReadsAs(NodeAt(img, nodeSize, first + i), LEAF_KIND, 1, leaves[i])
    && FLink(NodeAt(img, nodeSize, first + i)) == (if i + 1 < |leaves| then first + i + 1 else 0)
    && BLink(NodeAt(img, nodeSize, first + i)) == (if i > 0 then first + i - 1 else 0)
  }

  /** Walking forward from leaf `i` reads the leaves from there on. */
  lemma {:induction false} ForwardReads(img: seq<byte>, nodeSize: nat, first: nat, leaves: seq<seq<Record>>,
                                        i: nat, most: nat)
    requires Chained(img, nodeSize, first, leaves) && i < |leaves| && most >= |leaves| - i
    ensures ForwardLeaves(img, nodeSize, first + i, most) == leaves[i..]
    decreases |leaves| - i
  {
    hide ReadRecord, NodeAt, ReadAll;
    assert ChainedAt(img, nodeSize, first, leaves, i);
    ReadAllReads(NodeAt(img, nodeSize, first + i), leaves[i], |leaves[i]|);
    assert leaves[i][..|leaves[i]|] == leaves[i];
    if i + 1 < |leaves| {
      ForwardReads(img, nodeSize, first, leaves, i + 1, most - 1);
      assert leaves[i..] == [leaves[i]] + leaves[i + 1..];
    } else {
      assert leaves[i..] == [leaves[i]];
    }
  }

  /** Walking backward from leaf `i` reads the leaves up to there. */
  lemma {:induction false} BackwardReads(img: seq<byte>, nodeSize: nat, first: nat, leaves: seq<seq<Record>>,
                                         i: nat, most: nat)
    requires Chained(img, nodeSize, first, leaves) && i < |leaves| && most >= i + 1
    ensures BackwardLeaves(img, nodeSize, first + i, most) == leaves[..i + 1]
    decreases i
  {
    hide ReadRecord, NodeAt, ReadAll;
    assert ChainedAt(img, nodeSize, first, leaves, i);
    ReadAllReads(NodeAt(img, nodeSize, first + i), leaves[i], |leaves[i]|);
    assert leaves[i][..|leaves[i]|] == leaves[i];
    assert leaves[..i + 1] == leaves[..i] + [leaves[i]];
    if i > 0 {
      BackwardReads(img, nodeSize, first, leaves, i - 1, most - 1);
    }
  }
}
