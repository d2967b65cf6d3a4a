/** The levels of a packed B-tree: greedy leaves, and index levels over them
    until one node is left. */
module Tower {
  import opened Bytes
  import opened Wrappers
  import opened Seqs
  import opened Packing

  type Key = seq<byte>

  datatype Record = Record(key: Key, data: seq<byte>)

  /** An index record before node numbers are known: `child` counts nodes of the
      level below. */
  datatype IdxRec = IdxRec(key: Key, child: nat)

  datatype BuildError =
    | ZeroNodeSize
    | NotPowerOfTwo
    | BelowMinimum
    | RecordTooBig
    | CannotShrink

  const DESCRIPTOR_SIZE: nat := 14
  const MIN_NODE_SIZE: nat := 512

  /** What a node offers its records and their offset slots: all but the
      descriptor and the free-space slot. */
  function Room(nodeSize: nat): nat
    requires nodeSize >= MIN_NODE_SIZE
  {
    nodeSize - DESCRIPTOR_SIZE - 2
  }

  /** Key length, key, data and an offset slot. */
  function LeafSize(): Record -> nat { (r: Record) => 2 + |r.key| + |r.data| + 2 }

  /** Key length, key, child number and an offset slot. */
  function IdxSize(): IdxRec -> nat { (r: IdxRec) => 2 + |r.key| + 4 + 2 }

  datatype Level = Leaves(leaves: seq<seq<Record>>) | Indices(nodes: seq<seq<IdxRec>>)
  {
    function Count(): nat { if Leaves? then |leaves| else |nodes| }

    function FirstKey(i: nat): Key
      requires i < Count()
    {
      if Leaves? then if leaves[i] == [] then [] else leaves[i][0].key
      else if nodes[i] == [] then [] else nodes[i][0].key
    }

    function FirstKeys(): (ks: seq<Key>)
      ensures |ks| == Count()
    {
      seq(Count(), i requires 0 <= i < Count() => FirstKey(i))
    }
  }

  function Entries(keys: seq<Key>): (es: seq<IdxRec>)
    ensures |es| == |keys|
  {
    seq(|keys|, i requires 0 <= i < |keys| => IdxRec(keys[i], i))
  }

  /** `above` is the index level the packer builds over `below`. */
  ghost predicate LevelOver(below: Level, above: Level, nodeSize: nat)
    requires nodeSize >= MIN_NODE_SIZE
  {
    above.Indices? && Greedy(Entries(below.FirstKeys()), IdxSize(), Room(nodeSize), above.nodes)
  }

  ghost predicate IsTower(records: seq<Record>, nodeSize: nat, levels: seq<Level>)
    requires nodeSize >= MIN_NODE_SIZE
  {
    && levels != []
    && levels[0].Leaves? && Greedy(records, LeafSize(), Room(nodeSize), levels[0].leaves)
    && (forall l :: 1 <= l < |levels| ==> LevelOver(levels[l - 1], levels[l], nodeSize))
    && (forall l :: 1 <= l < |levels| ==> levels[l].Count() < levels[l - 1].Count())
  }

  ghost predicate Finished(levels: seq<Level>) {
    levels != [] && levels[|levels| - 1].Count() == 1
  }

  /** The index nodes of a level stay clear of their offset tables. */
  ghost predicate IndexFits(level: Level, nodeSize: nat)
    requires nodeSize >= MIN_NODE_SIZE
  {
    level.Indices? ==> forall i :: 0 <= i < |level.nodes| ==> Total(level.nodes[i], IdxSize()) <= Room(nodeSize)
  }

  ghost predicate LeavesFit(records: seq<Record>, nodeSize: nat)
    requires nodeSize >= MIN_NODE_SIZE
  {
    forall i :: 0 <= i < |records| ==> LeafSize()(records[i]) <= Room(nodeSize)
  }

  // ----- the packers

  method PackLeaves(records: seq<Record>, nodeSize: nat) returns (r: Result<seq<seq<Record>>, BuildError>)
    requires nodeSize >= MIN_NODE_SIZE
    ensures r.Ok? <==> LeavesFit(records, nodeSize)
    ensures r.Ok? ==> Greedy(records, LeafSize(), Room(nodeSize), r.value)
    ensures r.Err? ==> r.error == RecordTooBig
  {
    if |records| == 0 {
      return Ok([]);
    }
    ghost var size, room := LeafSize(), Room(nodeSize);
    var leaves: seq<seq<Record>>, cur: seq<Record> := [], [];
    var used := DESCRIPTOR_SIZE + 2;
    for i := 0 to |records|
      invariant used == DESCRIPTOR_SIZE + 2 + Total(cur, size)
      invariant cur == [] ==> i == 0 && leaves == []
      invariant cur != [] ==> Greedy(records[..i], size, room, leaves + [cur])
      invariant forall j :: 0 <= j < i ==> size(records[j]) <= room
    {
      var rec := records[i];
      var recSize := 2 + |rec.key| + |rec.data| + 2;
      if recSize + DESCRIPTOR_SIZE + 2 > nodeSize {
        assert size(records[i]) > room;
        return Err(RecordTooBig);
      }
      assert records[..i + 1] == records[..i] + [rec];
      if used + recSize > nodeSize && |cur| > 0 {
        GreedyFlush(records[..i], size, room, leaves, cur, rec);
        leaves := leaves + [cur];
        cur := [];
        used := DESCRIPTOR_SIZE + 2;
        assert cur + [rec] == [rec];
      } else if cur == [] {
        GreedyStart(size, room, rec);
        assert cur + [rec] == [rec] && records[..i + 1] == [rec];
        assert leaves + [[rec]] == [[rec]];
      } else {
        GreedyJoin(records[..i], size, room, leaves, cur, rec);
      }
      TotalSnoc(cur, rec, size);
      cur := cur + [rec];
      used := used + recSize;
    }
    assert records[..|records|] == records;
    if |cur| > 0 {
      leaves := leaves + [cur];
    }
    return Ok(leaves);
  }

  method PackIndex(keys: seq<Key>, nodeSize: nat) returns (idx: seq<seq<IdxRec>>)
    requires nodeSize >= MIN_NODE_SIZE
    ensures Greedy(Entries(keys), IdxSize(), Room(nodeSize), idx)
  {
    ghost var size, room := IdxSize(), Room(nodeSize);
    idx := [];
    var cur: seq<IdxRec> := [];
    var used := DESCRIPTOR_SIZE + 2;
    GreedyNothing(size, room);
    for i := 0 to |keys|
      invariant used == DESCRIPTOR_SIZE + 2 + Total(cur, size)
      invariant cur == [] ==> i == 0 && idx == []
      invariant cur != [] ==> Greedy(Entries(keys)[..i], size, room, idx + [cur])
    {
      var rec := IdxRec(keys[i], i);
      var recSize := 2 + |keys[i]| + 4 + 2;
      assert Entries(keys)[..i + 1] == Entries(keys)[..i] + [rec];
      if used + recSize > nodeSize && |cur| > 0 {
        GreedyFlush(Entries(keys)[..i], size, room, idx, cur, rec);
        idx := idx + [cur];
        cur := [];
        used := DESCRIPTOR_SIZE + 2;
        assert cur + [rec] == [rec];
      } else if cur == [] {
        GreedyStart(size, room, rec);
        assert cur + [rec] == [rec] && Entries(keys)[..i + 1] == [rec];
        assert idx + [[rec]] == [[rec]];
      } else {
        GreedyJoin(Entries(keys)[..i], size, room, idx, cur, rec);
      }
      TotalSnoc(cur, rec, size);
      cur := cur + [rec];
      used := used + recSize;
    }
    assert Entries(keys)[..|keys|] == Entries(keys);
    if |cur| > 0 {
      idx := idx + [cur];
    }
  }

  // ----- index records that do not fit a node

  predicate Oversize(key: Key, nodeSize: nat)
    requires nodeSize >= MIN_NODE_SIZE
  {
    2 + |key| + 4 + 2 > Room(nodeSize)
  }

  ghost predicate HasOversize(keys: seq<Key>, nodeSize: nat)
    requires nodeSize >= MIN_NODE_SIZE
  {
    exists j :: 0 <= j < |keys| && Oversize(keys[j], nodeSize)
  }

  /** An oversize key sits alone in its index node, so the level above has it
      again. */
  lemma OversizePromoted(below: Level, above: Level, nodeSize: nat)
    requires nodeSize >= MIN_NODE_SIZE && LevelOver(below, above, nodeSize)
    requires HasOversize(below.FirstKeys(), nodeSize)
    ensures HasOversize(above.FirstKeys(), nodeSize)
  {
    var keys := below.FirstKeys();
    var j :| 0 <= j < |keys| && Oversize(keys[j], nodeSize);
    var g, i := ConcatAt(above.nodes, j);
    OversizeAlone(Entries(keys), IdxSize(), Room(nodeSize), above.nodes, g, i);
    assert above.FirstKeys()[g] == keys[j];
  }

  /** Without an oversize key every index node fits. */
  lemma NoOversizeFits(below: Level, above: Level, nodeSize: nat)
    requires nodeSize >= MIN_NODE_SIZE && LevelOver(below, above, nodeSize)
    requires !HasOversize(below.FirstKeys(), nodeSize)
    ensures IndexFits(above, nodeSize)
  {
    forall i | 0 <= i < |above.nodes| ensures Total(above.nodes[i], IdxSize()) <= Room(nodeSize) {
      if |above.nodes[i]| == 1 {
        var k := ConcatIndex(above.nodes, i, 0);
        assert above.nodes[i][0] == Entries(below.FirstKeys())[k];
        TotalSingle(above.nodes[i], IdxSize());
      }
    }
  }

  /** Position in the concatenation of item `i` of group `g`. */
  lemma {:induction false} ConcatIndex<T>(groups: seq<seq<T>>, g: nat, i: nat) returns (k: nat)
    requires g < |groups| && i < |groups[g]|
    ensures k < |Concat(groups)| && Concat(groups)[k] == groups[g][i]
  {
    if g == 0 {
      k := i;
    } else {
      k := ConcatIndex(groups[1..], g - 1, i);
      k := k + |groups[0]|;
    }
  }

  /** A single root over several nodes fits, and so its key is not oversize. */
  lemma RootNotOversize(below: Level, above: Level, nodeSize: nat)
    requires nodeSize >= MIN_NODE_SIZE && LevelOver(below, above, nodeSize)
    requires below.Count() > 1 && above.Count() == 1
    ensures !HasOversize(above.FirstKeys(), nodeSize)
  {
    var root := above.nodes[0];
    assert above.nodes == [root];
    assert Concat(above.nodes) == root + Concat(above.nodes[1..]);
    assert root == Entries(below.FirstKeys());
    TotalPositive(root, IdxSize(), 0);
    assert above.FirstKeys() == [root[0].key];
  }

  /** The two facts the level loop keeps about index nodes. */
  ghost predicate FitsSoFar(levels: seq<Level>, nodeSize: nat)
    requires nodeSize >= MIN_NODE_SIZE && levels != []
  {
    HasOversize(levels[|levels| - 1].FirstKeys(), nodeSize)
    || forall l :: 1 <= l < |levels| ==> IndexFits(levels[l], nodeSize)
  }

  lemma FitsStep(levels: seq<Level>, above: Level, nodeSize: nat)
    requires nodeSize >= MIN_NODE_SIZE && levels != [] && FitsSoFar(levels, nodeSize)
    requires LevelOver(levels[|levels| - 1], above, nodeSize)
    ensures FitsSoFar(levels + [above], nodeSize)
  {
    var below := levels[|levels| - 1];
    if HasOversize(below.FirstKeys(), nodeSize) {
      OversizePromoted(below, above, nodeSize);
    } else {
      NoOversizeFits(below, above, nodeSize);
    }
  }

  /** No line compares one index record with the node size, yet in a finished
      tower every index node fits. */
  lemma FinishedTowerFits(records: seq<Record>, nodeSize: nat, levels: seq<Level>)
    requires nodeSize >= MIN_NODE_SIZE && IsTower(records, nodeSize, levels) && Finished(levels)
    ensures forall l :: 1 <= l < |levels| ==> IndexFits(levels[l], nodeSize)
  {
    if |levels| > 1 {
      var top := |levels| - 1;
      PrefixFits(records, nodeSize, levels, |levels|);
      assert levels[..|levels|] == levels;
      RootNotOversize(levels[top - 1], levels[top], nodeSize);
    }
  }

  lemma {:induction false} PrefixFits(records: seq<Record>, nodeSize: nat, levels: seq<Level>, n: nat)
    requires nodeSize >= MIN_NODE_SIZE && IsTower(records, nodeSize, levels) && 0 < n <= |levels|
    ensures FitsSoFar(levels[..n], nodeSize)
  {
    if n > 1 {
      PrefixFits(records, nodeSize, levels, n - 1);
      assert levels[..n] == levels[..n - 1] + [levels[n - 1]];
      FitsStep(levels[..n - 1], levels[n - 1], nodeSize);
    }
  }

  // ----- the level loop

  /** Any two index records fit together in a node. */
  ghost predicate NarrowKeys(records: seq<Record>, nodeSize: nat)
    requires nodeSize >= MIN_NODE_SIZE
  {
    forall i :: 0 <= i < |records| ==> 2 * (2 + |records[i].key| + 4 + 2) <= Room(nodeSize)
  }

  /** Every first key of every level is the key of some record. */
  lemma {:induction false} FirstKeysAreKeys(records: seq<Record>, nodeSize: nat, levels: seq<Level>, l: nat, i: nat)
    returns (k: nat)
    requires nodeSize >= MIN_NODE_SIZE && IsTower(records, nodeSize, levels)
    requires l < |levels| && i < levels[l].Count()
    ensures k < |records| && records[k].key == levels[l].FirstKey(i)
    decreases l
  {
    if l == 0 {
      k := ConcatIndex(levels[0].leaves, i, 0);
    } else {
      assert LevelOver(levels[l - 1], levels[l], nodeSize);
      var j := ConcatIndex(levels[l].nodes, i, 0);
      k := FirstKeysAreKeys(records, nodeSize, levels, l - 1, j);
    }
  }

  /** With narrow keys each index level at least halves. */
  lemma NarrowKeysHalve(records: seq<Record>, nodeSize: nat, levels: seq<Level>, above: Level)
    requires nodeSize >= MIN_NODE_SIZE && IsTower(records, nodeSize, levels) && NarrowKeys(records, nodeSize)
    requires LevelOver(levels[|levels| - 1], above, nodeSize)
    ensures above.Count() <= (levels[|levels| - 1].Count() + 1) / 2
  {
    var below := levels[|levels| - 1];
    var entries := Entries(below.FirstKeys());
    forall j | 0 <= j < |entries| ensures 2 * IdxSize()(entries[j]) <= Room(nodeSize) {
      var k := FirstKeysAreKeys(records, nodeSize, levels, |levels| - 1, j);
      assert entries[j].key == records[k].key;
    }
    GreedyHalves(entries, IdxSize(), Room(nodeSize), above.nodes);
  }

  // ----- when the level loop fails

  /** No two neighbouring index records fit one node. */
  ghost predicate NoPairFits(keys: seq<Key>, nodeSize: nat)
    requires nodeSize >= MIN_NODE_SIZE
  {
    forall i :: 0 < i < |keys| ==> (2 + |keys[i - 1]| + 4 + 2) + (2 + |keys[i]| + 4 + 2) > Room(nodeSize)
  }

  /** The tower of the records reaches a level of several nodes over which an index
      level gains nothing. */
  ghost predicate Stalls(records: seq<Record>, nodeSize: nat, levels: seq<Level>)
    requires nodeSize >= MIN_NODE_SIZE
  {
    && IsTower(records, nodeSize, levels) && levels[|levels| - 1].Count() > 1
    && NoPairFits(levels[|levels| - 1].FirstKeys(), nodeSize)
  }

  lemma LevelGains(below: Level, above: Level, nodeSize: nat)
    requires nodeSize >= MIN_NODE_SIZE && LevelOver(below, above, nodeSize)
    ensures above.Count() <= below.Count()
    ensures above.Count() == below.Count() <==> NoPairFits(below.FirstKeys(), nodeSize)
  {
    var keys := below.FirstKeys();
    hide Greedy;
    NothingGained(Entries(keys), IdxSize(), Room(nodeSize), above.nodes);
    PairSizes(keys, nodeSize);
  }

  lemma PairSizes(keys: seq<Key>, nodeSize: nat)
    requires nodeSize >= MIN_NODE_SIZE
    ensures NoPairFits(keys, nodeSize) <==> NoPair(Entries(keys), IdxSize(), Room(nodeSize))
  {
    var e, size := Entries(keys), IdxSize();
    forall i | 0 < i < |e|
      ensures size(e[i - 1]) + size(e[i]) == (2 + |keys[i - 1]| + 4 + 2) + (2 + |keys[i]| + 4 + 2)
    {
    }
  }

  /** Towers over the same records agree as far as both go. */
  lemma {:induction false} TowersAgree(records: seq<Record>, nodeSize: nat, a: seq<Level>, b: seq<Level>, l: nat)
    requires nodeSize >= MIN_NODE_SIZE && IsTower(records, nodeSize, a) && IsTower(records, nodeSize, b)
    requires l < |a| && l < |b|
    ensures a[l] == b[l]
    decreases l
  {
    if l == 0 {
      GroupsSame(records, LeafSize(), Room(nodeSize), a[0].leaves, b[0].leaves);
    } else {
      TowersAgree(records, nodeSize, a, b, l - 1);
      assert LevelOver(a[l - 1], a[l], nodeSize) && LevelOver(b[l - 1], b[l], nodeSize);
      hide Greedy, IsTower;
      GroupsSame(Entries(a[l - 1].FirstKeys()), IdxSize(), Room(nodeSize), a[l].nodes, b[l].nodes);
    }
  }

  /** Records whose tower stalls have no finished tower. */
  lemma StallsForGood(records: seq<Record>, nodeSize: nat, stuck: seq<Level>, levels: seq<Level>)
    requires nodeSize >= MIN_NODE_SIZE && Stalls(records, nodeSize, stuck) && IsTower(records, nodeSize, levels)
    ensures !Finished(levels)
  {
    if Finished(levels) {
      var top := |stuck| - 1;
      if |stuck| < |levels| {
        TowersAgree(records, nodeSize, stuck, levels, top);
        assert LevelOver(levels[top + 1 - 1], levels[top + 1], nodeSize) && levels[top + 1].Count() < levels[top + 1 - 1].Count();
        LevelGains(levels[top], levels[top + 1], nodeSize);
      } else {
        TowersAgree(records, nodeSize, stuck, levels, |levels| - 1);
        CountsFall(records, nodeSize, stuck, |levels| - 1);
      }
    }
  }

  lemma {:induction false} CountsFall(records: seq<Record>, nodeSize: nat, levels: seq<Level>, l: nat)
    requires nodeSize >= MIN_NODE_SIZE && IsTower(records, nodeSize, levels) && l < |levels|
    ensures levels[|levels| - 1].Count() <= levels[l].Count()
    decreases |levels| - l
  {
    if l < |levels| - 1 {
      CountsFall(records, nodeSize, levels, l + 1);
      assert levels[l + 1].Count() < levels[l + 1 - 1].Count();
    }
  }

  /** Index levels until one node is left, or until a level fails to shrink: that
      is, exactly if the tower stalls. */
  method BuildLevels(records: seq<Record>, leaves: seq<seq<Record>>, nodeSize: nat)
    returns (r: Result<seq<Level>, BuildError>)
    requires nodeSize >= MIN_NODE_SIZE && leaves != []
    requires Greedy(records, LeafSize(), Room(nodeSize), leaves)
    ensures r.Ok? ==>
      && IsTower(records, nodeSize, r.value) && Finished(r.value)
      && r.value[0] == Leaves(leaves)
      && forall l :: 1 <= l < |r.value| ==> IndexFits(r.value[l], nodeSize)
    ensures r.Err? ==> r.error == CannotShrink && !NarrowKeys(records, nodeSize)
    ensures r.Err? <==> exists levels :: Stalls(records, nodeSize, levels)
  {
    var levels := [Leaves(leaves)];
    while levels[|levels| - 1].Count() > 1
      invariant IsTower(records, nodeSize, levels) && levels[0] == Leaves(leaves)
      invariant levels[|levels| - 1].Count() >= 1
      decreases levels[|levels| - 1].Count()
    {
      var prev := levels[|levels| - 1];
      var idx := PackIndex(prev.FirstKeys(), nodeSize);
      var above := Indices(idx);
      assert LevelOver(prev, above, nodeSize);
      LevelGains(prev, above, nodeSize);
      if |idx| >= prev.Count() {
        assert Stalls(records, nodeSize, levels);
        if NarrowKeys(records, nodeSize) {
          NarrowKeysHalve(records, nodeSize, levels, above);
          assert false;
        }
        return Err(CannotShrink);
      }
      assert idx != [] by { assert Concat(idx) != []; }
      levels := levels + [above];
    }
    FinishedTowerFits(records, nodeSize, levels);
    forall stuck | Stalls(records, nodeSize, stuck) ensures false {
      StallsForGood(records, nodeSize, stuck, levels);
    }
    return Ok(levels);
  }

  /** A power of two no smaller than the number of leaves bounds the depth: with
      narrow keys a tower over at most 2^d leaves has at most d + 1 levels. */
  lemma {:induction false} DepthIsLogarithmic(records: seq<Record>, nodeSize: nat, levels: seq<Level>, d: nat)
    requires nodeSize >= MIN_NODE_SIZE && IsTower(records, nodeSize, levels) && NarrowKeys(records, nodeSize)
    requires levels[0].Count() <= Pow2(d) && levels[|levels| - 1].Count() >= 1
    ensures |levels| <= d + 1
    decreases d
  {
    LevelCount(records, nodeSize, levels, d, |levels| - 1);
  }

  function Pow2(n: nat): (p: nat)
    ensures p >= 1
  {
    if n == 0 then 1 else 2 * Pow2(n - 1)
  }

  lemma {:induction false} LevelCount(records: seq<Record>, nodeSize: nat, levels: seq<Level>, d: nat, l: nat)
    requires nodeSize >= MIN_NODE_SIZE && IsTower(records, nodeSize, levels) && NarrowKeys(records, nodeSize)
    requires levels[0].Count() <= Pow2(d) && levels[|levels| - 1].Count() >= 1 && l < |levels|
    ensures l <= d && levels[l].Count() <= Pow2(d - l)
    decreases l
  {
    if l > 0 {
      LevelCount(records, nodeSize, levels, d, l - 1);
      assert LevelOver(levels[l - 1], levels[l], nodeSize);
      assert IsTower(records, nodeSize, levels[..l]);
      NarrowKeysHalve(records, nodeSize, levels[..l], levels[l]);
      CountsPositive(records, nodeSize, levels, l);
    }
  }

  lemma {:induction false} CountsPositive(records: seq<Record>, nodeSize: nat, levels: seq<Level>, l: nat)
    requires nodeSize >= MIN_NODE_SIZE && IsTower(records, nodeSize, levels) && l < |levels|
    requires levels[|levels| - 1].Count() >= 1
    ensures levels[l].Count() >= 1
    decreases |levels| - l
  {
    if l < |levels| - 1 {
      assert levels[l + 1].Count() < levels[l + 1 - 1].Count();
    }
  }
}
