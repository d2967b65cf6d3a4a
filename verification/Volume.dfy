/** Everything a volume image is written from, as a list of writes out of order,
    and the image that list leaves. */
module Volume {
  import opened Bytes
  import opened Allocation
  import opened Geometry
  import opened BTree
  import opened Layout
  import opened VolumeHeader
  import opened Image

  const HEADER_AT: nat := 1024
  const LEAST_SAFE_BLOCK: nat := 2048

  /** The bytes of every part, once they are known. */
  datatype Parts = Parts(header: seq<byte>, bitmap: seq<byte>, catalog: seq<byte>, extents: seq<byte>, attrs: seq<byte>,
                         contents: seq<seq<byte>>)
  {
    /** Each part fits its region. */
    ghost predicate Fit(m: Map) {
      && m.Planned() && |header| == HEADER_SIZE && |bitmap| <= m.alloc * m.blockSize
      && |catalog| <= m.catalog * m.blockSize && |extents| <= m.extents * m.blockSize && |attrs| <= m.attrs * m.blockSize
      && |contents| == |m.counts| && forall i :: 0 <= i < |contents| ==> |contents[i]| <= m.counts[i] * m.blockSize
    }

    /** What goes into region `k`. */
    function Part(k: nat): seq<byte>
      requires k < 5 + |contents|
    {
      if k == 0 then header else if k == 1 then bitmap else if k == 2 then catalog
      else if k == 3 then extents else if k == 4 then attrs else contents[k - 5]
    }
  }

  function SizeOf(m: Map): nat { m.total * m.blockSize }

  /** The write of region `k`: at its first block, but for the header, which sits
      at byte 1024 whatever the block size. */
  function RegionWrite(m: Map, p: Parts, k: nat): Write
    requires |p.contents| == |m.counts| && k < 5 + |m.counts|
  {
    Write(if k == 0 then HEADER_AT else m.Start(k) * m.blockSize, p.Part(k))
  }

  /** One zero byte at the very end, the regions, the alternate header. */
  function Writes(m: Map, p: Parts, n: nat): (ws: seq<Write>)
    requires |p.contents| == |m.counts| && n <= 5 + |m.counts| && SizeOf(m) >= 1
    ensures |ws| == 1 + n
    ensures ws[0] == Write(SizeOf(m) - 1, [0]) && forall k :: 0 <= k < n ==> ws[1 + k] == RegionWrite(m, p, k)
  {
    if n == 0 then [Write(SizeOf(m) - 1, [0])] else Writes(m, p, n - 1) + [RegionWrite(m, p, n - 1)]
  }

  function AlternateWrite(m: Map, p: Parts): Write
    requires SizeOf(m) >= 1024
  {
    Write(SizeOf(m) - 1024, p.header)
  }

  function AllWrites(m: Map, p: Parts): (ws: seq<Write>)
    requires |p.contents| == |m.counts| && SizeOf(m) >= 1024
    ensures |ws| == 7 + |m.counts|
  {
    Writes(m, p, 5 + |m.counts|) + [AlternateWrite(m, p)]
  }

  lemma VolumeIsLarge(m: Map)
    requires m.Planned()
    ensures SizeOf(m) >= 1024 && m.total >= 4 && SizeOf(m) == (m.total - 1) * m.blockSize + m.blockSize
  {
    Scaled(4, m.total, m.blockSize);
    hide LeastFixedPoint, PowerOfTwo;
  }

  // ----- where the writes land

  /** With blocks of 2048 bytes or more every region's write stays in its region. */
  lemma WriteInRegion(m: Map, p: Parts, k: nat)
    requires p.Fit(m) && k < 5 + |m.counts| && m.blockSize >= LEAST_SAFE_BLOCK
    ensures var w := RegionWrite(m, p, k);
      m.Start(k) * m.blockSize <= w.at && w.at + |w.bytes| <= (m.Start(k) + m.Lengths()[k]) * m.blockSize
  {
    hide SumOf, LeastFixedPoint, PowerOfTwo;
    PartFits(m, p, k);
    var bs, n := m.blockSize, m.Lengths()[k];
    assert (m.Start(k) + n) * bs == m.Start(k) * bs + n * bs;
    if k == 0 {
      FirstStarts(m);
    }
  }

  lemma PartFits(m: Map, p: Parts, k: nat)
    requires p.Fit(m) && k < 5 + |m.counts|
    ensures k > 0 ==> |p.Part(k)| <= m.Lengths()[k] * m.blockSize
    ensures k == 0 ==> |p.Part(k)| == HEADER_SIZE && m.Lengths()[k] == 1
  {
    hide SumOf, LeastFixedPoint, PowerOfTwo;
  }

  /** Two regions' writes are apart. */
  lemma RegionWritesApart(m: Map, p: Parts, j: nat, k: nat)
    requires p.Fit(m) && j < k < 5 + |m.counts| && m.blockSize >= LEAST_SAFE_BLOCK
    ensures RegionWrite(m, p, j).Apart(RegionWrite(m, p, k))
  {
    WriteInRegion(m, p, j);
    WriteInRegion(m, p, k);
    RegionsDisjoint(m, j, k);
    Scaled(m.Start(j) + m.Lengths()[j], m.Start(k), m.blockSize);
    hide RegionWrite, SumOf;
  }

  /** And both lie in front of the last block, where the alternate header goes. */
  lemma RegionBeforeLastBlock(m: Map, p: Parts, k: nat)
    requires p.Fit(m) && k < 5 + |m.counts| && m.blockSize >= LEAST_SAFE_BLOCK
    ensures var w := RegionWrite(m, p, k); w.at + |w.bytes| <= (m.total - 1) * m.blockSize
  {
    WriteInRegion(m, p, k);
    EndInside(m);
    SumMonotone(m.Lengths(), k, 5 + |m.counts|);
    Scaled(m.Start(k) + m.Lengths()[k], m.total - 1, m.blockSize);
    hide RegionWrite, SumOf;
  }

  /** No two of the writes overlap. */
  lemma WritesApart(m: Map, p: Parts, j: nat, k: nat)
    requires p.Fit(m) && m.blockSize >= LEAST_SAFE_BLOCK && SizeOf(m) >= 1024
    requires j < k < |AllWrites(m, p)|
    ensures AllWrites(m, p)[j].Apart(AllWrites(m, p)[k])
  {
    var n := 5 + |m.counts|;
    VolumeIsLarge(m);
    var ws := Writes(m, p, n);
    hide Writes, RegionWrite, SizeOf;
    if 1 <= j && k <= n {
      RegionWritesApart(m, p, j - 1, k - 1);
    }
    if 1 <= j <= n && k == n + 1 {
      RegionBeforeLastBlock(m, p, j - 1);
    }
    if j == 0 && k <= n {
      RegionBeforeLastBlock(m, p, k - 1);
    }
  }

  // ----- what the image holds

  ghost predicate Holds(img: seq<byte>, w: Write) {
    w.at + |w.bytes| <= |img| && img[w.at..w.at + |w.bytes|] == w.bytes
  }

  /** Byte `n` belongs to a region's contents or to the alternate header. */
  ghost predicate Spoken(m: Map, p: Parts, n: nat)
    requires |p.contents| == |m.counts| && SizeOf(m) >= 1024
  {
    AlternateWrite(m, p).Touches(n) || exists k :: 0 <= k < 5 + |m.counts| && RegionWrite(m, p, k).Touches(n)
  }

  /** Both headers, the bitmap, the trees and every file are in place, and all
      other bytes are zero. */
  ghost predicate VolumeHolds(img: seq<byte>, m: Map, p: Parts)
    requires |p.contents| == |m.counts| && SizeOf(m) >= 1024
  {
    && |img| == SizeOf(m)
    && Holds(img, AlternateWrite(m, p))
    && (forall k :: 0 <= k < 5 + |m.counts| ==> Holds(img, RegionWrite(m, p, k)))
    && forall n :: 0 <= n < |img| && !Spoken(m, p, n) ==> img[n] == 0
  }

  lemma WritesInside(m: Map, p: Parts, j: nat)
    requires p.Fit(m) && m.blockSize >= LEAST_SAFE_BLOCK && SizeOf(m) >= 1024 && j < |AllWrites(m, p)|
    ensures AllWrites(m, p)[j].at + |AllWrites(m, p)[j].bytes| <= SizeOf(m)
  {
    VolumeIsLarge(m);
    var n := 5 + |m.counts|;
    var ws := Writes(m, p, n);
    if 1 <= j <= n {
      RegionBeforeLastBlock(m, p, j - 1);
    }
    hide Writes, RegionWrite;
  }

  lemma ImageLength(m: Map, p: Parts)
    requires p.Fit(m) && m.blockSize >= LEAST_SAFE_BLOCK && SizeOf(m) >= 1024
    ensures |ApplyAll([], AllWrites(m, p))| == SizeOf(m)
  {
    var ws := AllWrites(m, p);
    hide ApplyAll;
    forall j | 0 <= j < |ws| ensures ws[j].at + |ws[j].bytes| <= SizeOf(m) {
      WritesInside(m, p, j);
    }
    FirstWrite(m, p);
    AppliedLength([], ws, SizeOf(m));
  }

  lemma FirstWrite(m: Map, p: Parts)
    requires |p.contents| == |m.counts| && SizeOf(m) >= 1024
    ensures AllWrites(m, p)[0] == Write(SizeOf(m) - 1, [0])
    ensures forall k :: 0 <= k < 5 + |m.counts| ==> AllWrites(m, p)[1 + k] == RegionWrite(m, p, k)
    ensures AllWrites(m, p)[6 + |m.counts|] == AlternateWrite(m, p)
  {
    hide RegionWrite;
  }

  lemma WriteHeld(m: Map, p: Parts, j: nat)
    requires p.Fit(m) && m.blockSize >= LEAST_SAFE_BLOCK && SizeOf(m) >= 1024 && j < |AllWrites(m, p)|
    ensures Holds(ApplyAll([], AllWrites(m, p)), AllWrites(m, p)[j])
  {
    var ws := AllWrites(m, p);
    ImageLength(m, p);
    WritesInside(m, p, j);
    hide ApplyAll, AllWrites;
    forall k | j < k < |ws| ensures ws[j].Apart(ws[k]) {
      WritesApart(m, p, j, k);
    }
    StretchSurvives([], ws, j);
  }

  lemma OthersZero(m: Map, p: Parts, n: nat)
    requires p.Fit(m) && m.blockSize >= LEAST_SAFE_BLOCK && SizeOf(m) >= 1024 && n < SizeOf(m) && !Spoken(m, p, n)
    ensures ByteAt(ApplyAll([], AllWrites(m, p)), n) == 0
  {
    var ws := AllWrites(m, p);
    FirstWrite(m, p);
    hide ApplyAll, AllWrites;
    if ws[0].Touches(n) {
      forall j | 0 < j < |ws| ensures !ws[j].Touches(n) {
        assert j < 6 + |m.counts| ==> ws[j] == RegionWrite(m, p, j - 1);
      }
      LastDecides([], ws, 0, n);
    } else {
      forall j | 0 <= j < |ws| ensures !ws[j].Touches(n) {
        assert 0 < j < 6 + |m.counts| ==> ws[j] == RegionWrite(m, p, j - 1);
      }
      Untouched([], ws, n);
    }
  }

  /** The out-of-order writes do not clobber each other: for block sizes of 2048
      and more the image holds every part where the map puts it. */
  lemma VolumeIntact(m: Map, p: Parts)
    requires p.Fit(m) && m.blockSize >= LEAST_SAFE_BLOCK
    ensures SizeOf(m) >= 1024 && VolumeHolds(ApplyAll([], AllWrites(m, p)), m, p)
  {
    VolumeIsLarge(m);
    ImageLength(m, p);
    FirstWrite(m, p);
    var img := ApplyAll([], AllWrites(m, p));
    WriteHeld(m, p, 6 + |m.counts|);
    hide ApplyAll, Holds;
    forall k | 0 <= k < 5 + |m.counts| ensures Holds(img, RegionWrite(m, p, k)) {
      WriteHeld(m, p, 1 + k);
    }
    hide AllWrites, RegionWrite, Spoken;
    forall n | 0 <= n < |img| && !Spoken(m, p, n) ensures img[n] == 0 {
      OthersZero(m, p, n);
    }
  }
}
