/** A tree's bytes are settled by its records: nothing in the image is left to
    chance, so building twice gives the same bytes. */
module TreeIdentity {
  import opened Bytes
  import opened Bits
  import opened Tower
  import opened NodeCodec
  import opened TreeReader
  import opened NodeMap
  import opened TreeBytes
  import opened BTree
  import opened BTreeBuilder
  import opened TreeShape
  import opened ForkTree

  // ----- stretches

  /** Numbers of `8 - k` bits with the same bits are the same. */
  lemma {:induction false} SameBits(a: nat, b: nat, k: nat)
    requires k < 8 && a < 2 * Mask(k) && b < 2 * Mask(k)
    requires forall j :: k <= j < 8 ==> (Bit(a, j) <==> Bit(b, j))
    ensures a == b
    decreases 8 - k
  {
    assert Bit(a, 7) <==> Bit(b, 7);
    if k < 7 {
      forall j | k + 1 <= j < 8 ensures Bit(a / 2, j) <==> Bit(b / 2, j) {
        assert Bit(a, j - 1) <==> Bit(b, j - 1);
      }
      SameBits(a / 2, b / 2, k + 1);
    }
  }

  lemma SameBitsSameBytes(a: seq<byte>, b: seq<byte>)
    requires |a| == |b| && forall n :: 0 <= n < 8 * |a| ==> (BitAt(a, n) <==> BitAt(b, n))
    ensures a == b
  {
    assert 2 * Mask(0) == 256;
    forall i | 0 <= i < |a| ensures a[i] == b[i] {
      forall j | 0 <= j < 8 ensures Bit(a[i], j) <==> Bit(b[i], j) {
        assert (8 * i + j) / 8 == i && (8 * i + j) % 8 == j;
        assert BitAt(a, 8 * i + j) <==> BitAt(b, 8 * i + j);
      }
      SameBits(a[i], b[i], 0);
    }
  }

  /** A map record is settled by what it counts. */
  lemma SameMapRecord(a: seq<byte>, b: seq<byte>, first: nat, total: nat)
    requires CountsUpTo(a, first, total) && CountsUpTo(b, first, total) && |a| == |b|
    ensures a == b
  {
    hide BitAt;
    forall n | 0 <= n < 8 * |a| ensures BitAt(a, n) <==> BitAt(b, n) {
      assert BitAt(a, n) <==> first + n < total;
      assert BitAt(b, n) <==> first + n < total;
    }
    SameBitsSameBytes(a, b);
  }

  lemma SameBlank(s: seq<byte>, t: seq<byte>, lo: nat, hi: nat)
    requires Blank(s, lo, hi) && Blank(t, lo, hi)
    ensures s[lo..hi] == t[lo..hi]
  {
  }

  /** Buffers that agree up to `mid` and from `mid` up to `hi` agree up to `hi`. */
  lemma SameJoined(s: seq<byte>, t: seq<byte>, mid: nat, hi: nat)
    requires mid <= hi <= |s| == |t| && s[..mid] == t[..mid] && s[mid..hi] == t[mid..hi]
    ensures s[..hi] == t[..hi]
  {
    assert s[..hi] == s[..mid] + s[mid..hi] && t[..hi] == t[..mid] + t[mid..hi];
  }

  lemma SameWhole(s: seq<byte>, t: seq<byte>, mid: nat)
    requires mid <= |s| == |t| && s[..mid] == t[..mid] && s[mid..] == t[mid..]
    ensures s == t
  {
    assert s == s[..mid] + s[mid..] && t == t[..mid] + t[mid..];
  }

  // ----- nodes

  lemma SamePage(m: seq<byte>, n: seq<byte>, desc: Desc, recs: seq<Record>)
    requires |m| == |n| && PageHolds(m, desc, recs) && PageHolds(n, desc, recs)
    ensures m == n
  {
    hide Body, DescBytes, Table, Offsets, Blank;
    var end, slots := DESCRIPTOR_SIZE + |Body(recs)|, |m| - 2 * (|recs| + 1);
    SameBlank(m, n, end, slots);
    SameJoined(m, n, DESCRIPTOR_SIZE, end);
    SameJoined(m, n, end, slots);
    SameWhole(m, n, slots);
  }

  lemma SameHeaderNode(m: seq<byte>, n: seq<byte>, h: HeaderRec, mapNodes: nat, total: nat)
    requires |m| == |n| && HeaderHolds(m, h, mapNodes, total) && HeaderHolds(n, h, mapNodes, total)
    ensures m == n
  {
    hide DescBytes, HeaderBytes, Table, Blank, CountsUpTo;
    var top, slots := DESCRIPTOR_SIZE + HEADER_REC_SIZE, |m| - 8;
    SameBlank(m, n, top, MAP_OFFSET);
    SameMapRecord(m[MAP_OFFSET..slots], n[MAP_OFFSET..slots], 0, total);
    SameJoined(m, n, DESCRIPTOR_SIZE, top);
    SameJoined(m, n, top, MAP_OFFSET);
    SameJoined(m, n, MAP_OFFSET, slots);
    SameWhole(m, n, slots);
  }

  lemma SameMapNode(m: seq<byte>, n: seq<byte>, next: nat, first: nat, total: nat)
    requires |m| == |n| && MapHolds(m, next, first, total) && MapHolds(n, next, first, total)
    ensures m == n
  {
    hide DescBytes, Table, CountsUpTo;
    var slots := |m| - 4;
    SameMapRecord(m[DESCRIPTOR_SIZE..slots], n[DESCRIPTOR_SIZE..slots], first, total);
    SameJoined(m, n, DESCRIPTOR_SIZE, slots);
    SameWhole(m, n, slots);
  }

  // ----- images

  /** Both images have node `n`, and it is the same. */
  ghost predicate SameNode(s: seq<byte>, t: seq<byte>, nodeSize: nat, n: nat) {
    HasNode(s, nodeSize, n) && HasNode(t, nodeSize, n) && NodeAt(s, nodeSize, n) == NodeAt(t, nodeSize, n)
  }

  lemma {:induction false} SameUpTo(s: seq<byte>, t: seq<byte>, nodeSize: nat, n: nat)
    requires |s| == |t| && n * nodeSize <= |s| && forall k :: 0 <= k < n ==> SameNode(s, t, nodeSize, k)
    ensures s[..n * nodeSize] == t[..n * nodeSize]
    decreases n
  {
    if n > 0 {
      Times(n - 1, n - 1, nodeSize);
      SameUpTo(s, t, nodeSize, n - 1);
      assert SameNode(s, t, nodeSize, n - 1);
      SameJoined(s, t, (n - 1) * nodeSize, n * nodeSize);
    }
  }

  /** Header and map nodes. */
  lemma SameFrontNode(s: seq<byte>, t: seq<byte>, nodeSize: nat, h: HeaderRec, mapNodes: nat, packed: nat, n: nat)
    requires MapInPlace(s, nodeSize, h, mapNodes, packed) && MapInPlace(t, nodeSize, h, mapNodes, packed) && n <= mapNodes
    ensures SameNode(s, t, nodeSize, n)
  {
    hide HeaderHolds, MapHolds, Coverage;
    if n == 0 {
      SameHeaderNode(NodeAt(s, nodeSize, 0), NodeAt(t, nodeSize, 0), h, mapNodes, packed);
    } else {
      assert MapNodeInPlace(s, nodeSize, mapNodes, packed, n - 1) && MapNodeInPlace(t, nodeSize, mapNodes, packed, n - 1);
      SameMapNode(NodeAt(s, nodeSize, n), NodeAt(t, nodeSize, n), if n < mapNodes then n + 1 else 0,
                  Coverage(nodeSize, n - 1), packed);
    }
  }

  lemma SameTreeNode(s: seq<byte>, t: seq<byte>, nodeSize: nat, levels: seq<Level>, mapNodes: nat, l: nat, i: nat)
    requires l < |levels| && i < levels[l].Count()
    requires LevelPlaced(s, nodeSize, levels, mapNodes, l) && LevelPlaced(t, nodeSize, levels, mapNodes, l)
    ensures SameNode(s, t, nodeSize, NumberOf(levels, mapNodes, l, i))
  {
    hide PageHolds, Start, DescAt, NodeRecords;
    var start, recs := Start(levels, mapNodes, l), NodeRecords(levels, mapNodes, l, i);
    assert NodePlaced(s, nodeSize, start, levels[l].Count(), i, KindAt(l), (l + 1) % 0x100, recs);
    assert NodePlaced(t, nodeSize, start, levels[l].Count(), i, KindAt(l), (l + 1) % 0x100, recs);
    SamePage(NodeAt(s, nodeSize, start + i), NodeAt(t, nodeSize, start + i),
             DescAt(start, levels[l].Count(), i, KindAt(l), (l + 1) % 0x100, |recs|), recs);
  }

  /** Behind the packed nodes both images are blank. */
  lemma SameImage(s: seq<byte>, t: seq<byte>, nodeSize: nat, h: HeaderRec, mapNodes: nat, packed: nat)
    requires ImageHolds(s, nodeSize, h, mapNodes, packed) && ImageHolds(t, nodeSize, h, mapNodes, packed)
    requires forall n :: 0 <= n < packed ==> SameNode(s, t, nodeSize, n)
    ensures s == t
  {
    ImageFacts(s, nodeSize, h, mapNodes, packed);
    ImageFacts(t, nodeSize, h, mapNodes, packed);
    hide ImageHolds, SameNode, Blank;
    Times(packed, h.totalNodes, nodeSize);
    SameUpTo(s, t, nodeSize, packed);
    SameBlank(s, t, packed * nodeSize, |s|);
    SameWhole(s, t, packed * nodeSize);
  }

  /** Two images that hold the same tree are the same bytes. */
  lemma SameTree(s: seq<byte>, t: seq<byte>, nodeSize: nat, records: seq<Record>, levels: seq<Level>, mapNodes: nat,
                 h: HeaderRec)
    requires TreeHolds(s, nodeSize, records, levels, mapNodes, h) && TreeHolds(t, nodeSize, records, levels, mapNodes, h)
    ensures s == t
  {
    var packed := TotalNodes(levels, mapNodes);
    ImageFacts(s, nodeSize, h, mapNodes, packed);
    ImageFacts(t, nodeSize, h, mapNodes, packed);
    hide ImageHolds, MapInPlace, LevelPlaced, IsTower, SameNode, Start, NumberOf, TotalNodes, Blank;
    forall n | 0 <= n < packed ensures SameNode(s, t, nodeSize, n) {
      if n <= mapNodes {
        SameFrontNode(s, t, nodeSize, h, mapNodes, packed, n);
      } else {
        var l, i := NumberedOnce(levels, mapNodes, n);
        SameTreeNode(s, t, nodeSize, levels, mapNodes, l, i);
      }
    }
    SameImage(s, t, nodeSize, h, mapNodes, packed);
  }

  lemma SameEmptyTree(s: seq<byte>, t: seq<byte>, nodeSize: nat, h: HeaderRec)
    requires ImageHolds(s, nodeSize, h, 0, 1) && ImageHolds(t, nodeSize, h, 0, 1)
    ensures s == t
  {
    ImageFacts(s, nodeSize, h, 0, 1);
    ImageFacts(t, nodeSize, h, 0, 1);
    hide ImageHolds, MapInPlace, SameNode;
    SameFrontNode(s, t, nodeSize, h, 0, 1, 0);
    SameImage(s, t, nodeSize, h, 0, 1);
  }

  /** Building the same records twice gives the same bytes. */
  lemma SameRecordsSameBytes(img: seq<byte>, img': seq<byte>, opts: BuildOpts, p: Packed, p': Packed)
    requires BuiltFrom(img, opts, p) && BuiltFrom(img', opts, p') && p.records == p'.records
    ensures img == img'
    ensures p.mapNodes == p'.mapNodes && p.header == p'.header && (p.records != [] ==> p.levels == p'.levels)
  {
    BuiltFacts(img, opts, p);
    hide ImageHolds, LevelPlaced, IsTower;
    SameAsItself(p.records);
    BuiltSameShape(img, img', opts, p.records, p'.records, p.levels, p'.levels, p.mapNodes, p'.mapNodes, p.header, p'.header);
    if p.records == [] {
      SameEmptyTree(img, img', opts.nodeSize, p.header);
    } else {
      SameRecordsSameTower(p.records, opts.nodeSize, p.levels, p'.levels);
      SameTree(img, img', opts.nodeSize, p.records, p.levels, p.mapNodes, p.header);
    }
  }

  lemma SameAsItself(recs: seq<Record>)
    ensures SameSizes(recs, recs)
  {
  }

  /** So does filling a fork with what was built. */
  lemma SameForkBytes(img: seq<byte>, img': seq<byte>, opts: BuildOpts, p: Packed, size: nat, total: nat)
    requires Fills(img, opts, p, size, total) && Fills(img', opts, p, size, total)
    ensures img == img'
  {
    hide ImageHolds, TreeHolds;
    FillHeader(img, opts, p, size, total);
    FillHeader(img', opts, p, size, total);
    if p.records == [] {
      EmptyFork(img, img', opts, p, size, total);
    } else {
      SameTree(img, img', opts.nodeSize, p.records, p.levels, p.mapNodes, HeaderOf(p, opts.nodeSize, total));
    }
  }

  lemma EmptyFork(img: seq<byte>, img': seq<byte>, opts: BuildOpts, p: Packed, size: nat, total: nat)
    requires Fills(img, opts, p, size, total) && Fills(img', opts, p, size, total) && p.records == []
    ensures img == img'
  {
    FillHeader(img, opts, p, size, total);
    FillHeader(img', opts, p, size, total);
    assert PackedNodes(p) == 1 && p.mapNodes == 0;
    hide ImageHolds, TreeHolds, PackedNodes, HeaderOf;
    SameEmptyTree(img, img', opts.nodeSize, HeaderOf(p, opts.nodeSize, total));
  }
}
