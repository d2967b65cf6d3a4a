/** Where the layout fails: with blocks of 512 or 1024 bytes the forks from block 1
    on reach byte 1024, and the primary volume header is lost under them. */
module SmallBlocks {
  import opened Bytes
  import opened Bits
  import opened Allocation
  import opened Geometry
  import opened BTree
  import opened TreeShape
  import opened Layout
  import opened VolumeHeader
  import opened Image
  import opened Volume
  import opened Unicode
  import opened Tower
  import opened NodeCodec
  import opened NodeMap
  import opened TreeReader
  import opened BTreeBuilder
  import opened Catalog
  import opened Attributes
  import opened ForkTree
  import opened VolumeWriter
  import opened VolumeBuilder

  const FIRST_BYTE: byte := 0x48

  lemma HeaderStarts(v: Header)
    ensures Encode(v)[0] == FIRST_BYTE
  {
    assert Identity(v)[0] == U16(SIGNATURE)[0] == FIRST_BYTE;
    hide Identity, Counters, Trailer, Forks;
    assert Encode(v)[0] == Identity(v)[0];
  }

  lemma OnlyTwoSizes(m: Map)
    requires m.Planned() && m.blockSize < LEAST_SAFE_BLOCK
    ensures m.blockSize == 512 || m.blockSize == 1024
    ensures m.total >= 6 && m.alloc >= 1
  {
    PowerIs(m.blockSize);
    hide LeastFixedPoint, PowerOfTwo;
    AllocPositive(m);
  }

  lemma AllocPositive(m: Map)
    requires m.Planned()
    ensures m.alloc >= 1 && m.total >= 2 + m.alloc + m.catalog + m.extents + m.attrs
  {
    hide PowerOfTwo, SumOf;
  }

  /** Region `k` and all later ones start past byte 1024. */
  lemma StartsPast(m: Map, p: Parts, k: nat, j: nat)
    requires m.Planned() && |p.contents| == |m.counts| && 0 < k <= j < 5 + |m.counts| && m.Start(k) * m.blockSize > HEADER_AT
    ensures !RegionWrite(m, p, j).Touches(HEADER_AT)
  {
    SumMonotone(m.Lengths(), k, j);
    Scaled(m.Start(k), m.Start(j), m.blockSize);
    hide SumOf;
  }

  /** Every write behind region `k`'s misses byte 1024. */
  lemma LaterMisses(m: Map, p: Parts, k: nat, j: nat)
    requires m.Planned() && m.blockSize < LEAST_SAFE_BLOCK && |p.contents| == |m.counts| && SizeOf(m) >= 1024
    requires 1 <= k <= 2 && m.Start(k + 1) * m.blockSize > HEADER_AT && 1 + k < j < |AllWrites(m, p)|
    ensures !AllWrites(m, p)[j].Touches(HEADER_AT)
  {
    OnlyTwoSizes(m);
    FirstWrite(m, p);
    hide SumOf, LeastFixedPoint, PowerOfTwo, Writes;
    if j < 6 + |m.counts| {
      assert AllWrites(m, p)[1 + (j - 1)] == RegionWrite(m, p, j - 1);
      StartsPast(m, p, k + 1, j - 1);
    } else {
      LastIsPast(m);
    }
  }

  /** The alternate header lies behind the primary one. */
  lemma LastIsPast(m: Map)
    requires m.Planned() && m.total >= 6
    ensures SizeOf(m) - 1024 > HEADER_AT
  {
    hide SumOf, LeastFixedPoint, PowerOfTwo;
    Scaled(6, m.total, m.blockSize);
  }

  /** The last write to reach byte 1024 is region `k`'s. */
  lemma RegionDecides(m: Map, p: Parts, k: nat)
    requires m.Planned() && m.blockSize < LEAST_SAFE_BLOCK && |p.contents| == |m.counts| && SizeOf(m) >= 1024
    requires 1 <= k <= 2 && RegionWrite(m, p, k).Touches(HEADER_AT) && m.Start(k + 1) * m.blockSize > HEADER_AT
    ensures ByteAt(ApplyAll([], AllWrites(m, p)), HEADER_AT) == p.Part(k)[HEADER_AT - m.Start(k) * m.blockSize]
  {
    OnlyTwoSizes(m);
    FirstWrite(m, p);
    hide ApplyAll, SumOf, LeastFixedPoint, PowerOfTwo, AllWrites;
    var ws := AllWrites(m, p);
    forall j | 1 + k < j < |ws| ensures !ws[j].Touches(HEADER_AT) {
      LaterMisses(m, p, k, j);
    }
    assert ws[1 + k] == RegionWrite(m, p, k);
    LastDecides([], ws, 1 + k, HEADER_AT);
  }

  lemma SignatureBits()
    ensures !Bit(FIRST_BYTE, 0) && Bit(FIRST_BYTE, 1) && Bit(FIRST_BYTE, 4)
  {
    BitIsQuotient(FIRST_BYTE);
    hide Bit;
  }

  /** A bitmap of used blocks and one more never has the signature's bit pattern. */
  lemma BitmapByteDiffers(bs: seq<byte>, m: Map, i: nat)
    requires m.Planned() && MarksPlan(bs, m) && i < |bs|
    ensures bs[i] != FIRST_BYTE
  {
    SignatureBits();
    EndInside(m);
    hide Bit, SumOf, LeastFixedPoint, PowerOfTwo;
    BitAtIs(bs, i, 0);
    BitAtIs(bs, i, 1);
    BitAtIs(bs, i, 4);
    assert BitAt(bs, 8 * i) <==> 8 * i < m.End() || 8 * i == m.total - 1;
    assert BitAt(bs, 8 * i + 1) <==> 8 * i + 1 < m.End() || 8 * i + 1 == m.total - 1;
    assert BitAt(bs, 8 * i + 4) <==> 8 * i + 4 < m.End() || 8 * i + 4 == m.total - 1;
  }

  lemma BitAtIs(bs: seq<byte>, i: nat, k: nat)
    requires i < |bs| && k < 8
    ensures BitAt(bs, 8 * i + k) == Bit(bs[i], k)
  {
    assert (8 * i + k) / 8 == i && (8 * i + k) % 8 == k;
    hide Bit;
  }

  /** Two bitmap blocks of 512 bytes mean more than 512 bytes of bitmap. */
  lemma SecondBitmapBlock(m: Map)
    requires m.Planned() && m.blockSize == 512 && m.alloc >= 2
    ensures m.total > 4096
  {
    BitmapFits(m);
    hide LeastFixedPoint, PowerOfTwo, SumOf, Ceil;
    assert (m.alloc - 1) * 4096 < m.total;
  }

  /** The bitmap, when it reaches that far. */
  lemma BitmapOverHeader(m: Map, p: Parts)
    requires p.Fit(m) && SizeOf(m) >= 1024 && MarksPlan(p.bitmap, m) && |p.bitmap| == (m.total + 7) / 8
    requires m.blockSize == 1024 || (m.blockSize == 512 && m.alloc >= 2)
    ensures ByteAt(ApplyAll([], AllWrites(m, p)), HEADER_AT) != FIRST_BYTE
  {
    OnlyTwoSizes(m);
    FirstStarts(m);
    if m.blockSize == 512 {
      SecondBitmapBlock(m);
    }
    hide ApplyAll, AllWrites, MarksPlan, LeastFixedPoint, PowerOfTwo, SumOf;
    RegionDecides(m, p, 1);
    BitmapByteDiffers(p.bitmap, m, HEADER_AT - m.blockSize);
  }

  /** Otherwise the catalog, which then starts at that byte. */
  lemma CatalogOverHeader(m: Map, p: Parts)
    requires p.Fit(m) && SizeOf(m) >= 1024 && m.blockSize == 512 && m.alloc == 1
    requires p.catalog != [] && p.catalog[0] == 0
    ensures ByteAt(ApplyAll([], AllWrites(m, p)), HEADER_AT) != FIRST_BYTE
  {
    FirstStarts(m);
    hide ApplyAll, AllWrites, LeastFixedPoint, PowerOfTwo, SumOf;
    RegionDecides(m, p, 2);
  }

  /** What is at byte 1024 is a byte of the bitmap or the first of the catalog. */
  lemma SmallBlocksLoseHeader(m: Map, p: Parts)
    requires p.Fit(m) && m.blockSize < LEAST_SAFE_BLOCK && SizeOf(m) >= 1024
    requires MarksPlan(p.bitmap, m) && |p.bitmap| == (m.total + 7) / 8
    requires p.catalog != [] && p.catalog[0] == 0
    ensures ByteAt(ApplyAll([], AllWrites(m, p)), HEADER_AT) != FIRST_BYTE
  {
    OnlyTwoSizes(m);
    hide ApplyAll, AllWrites, MarksPlan, LeastFixedPoint, PowerOfTwo, SumOf;
    if m.blockSize == 1024 || m.alloc >= 2 {
      BitmapOverHeader(m, p);
    } else {
      CatalogOverHeader(m, p);
    }
  }

  /** The primary header survives the other writes exactly for block sizes of 2048
      and more. */
  lemma HeaderSurvivesIff(m: Map, p: Parts, v: Header)
    requires p.Fit(m) && p.header == Encode(v) && MarksPlan(p.bitmap, m) && |p.bitmap| == (m.total + 7) / 8
    requires p.catalog != [] && p.catalog[0] == 0
    ensures SizeOf(m) >= 1024
    ensures var img := ApplyAll([], AllWrites(m, p));
      HEADER_AT + HEADER_SIZE <= |img| && img[HEADER_AT..HEADER_AT + HEADER_SIZE] == Encode(v)
      <==> m.blockSize >= LEAST_SAFE_BLOCK
  {
    VolumeIsLarge(m);
    HeaderStarts(v);
    hide ApplyAll, AllWrites, MarksPlan, LeastFixedPoint, PowerOfTwo, SumOf, Encode;
    var img := ApplyAll([], AllWrites(m, p));
    if m.blockSize >= LEAST_SAFE_BLOCK {
      VolumeIntact(m, p);
      assert Holds(img, RegionWrite(m, p, 0));
    } else {
      SmallBlocksLoseHeader(m, p);
      if HEADER_AT + HEADER_SIZE <= |img| {
        assert img[HEADER_AT..HEADER_AT + HEADER_SIZE][0] == img[HEADER_AT];
      }
    }
  }

  // ----- in a volume as it is built

  /** The catalog begins with its header node's forward link, which is 0 or 1. */
  lemma TreeStartsZero(img: seq<byte>, opts: BuildOpts, p: Packed, size: nat, total: nat)
    requires Fills(img, opts, p, size, total)
    ensures img != [] && img[0] == 0
  {
    FillHeader(img, opts, p, size, total);
    hide Fills, PackedNodes, HeaderOf;
    LinkIsSmall(img, opts.nodeSize, HeaderOf(p, opts.nodeSize, total), p.mapNodes, PackedNodes(p));
  }

  lemma LinkIsSmall(img: seq<byte>, nodeSize: nat, h: HeaderRec, mapNodes: nat, packed: nat)
    requires ImageHolds(img, nodeSize, h, mapNodes, packed)
    ensures img != [] && img[0] == 0
  {
    ImageFacts(img, nodeSize, h, mapNodes, packed);
    hide ImageHolds, HeaderBytes, CountsUpTo, Table, Coverage;
    var node, desc := NodeAt(img, nodeSize, 0), Desc(if mapNodes > 0 then 1 else 0, 0, HEADER_KIND, 0, 3);
    assert node[..DESCRIPTOR_SIZE] == DescBytes(desc);
    assert node[..DESCRIPTOR_SIZE][0] == node[0] == img[0];
    FirstOfLink(desc);
  }

  lemma FirstOfLink(desc: Desc)
    requires desc.fLink < 0x100_0000
    ensures DescBytes(desc)[0] == 0
  {
    assert U32(desc.fLink)[0] == 0;
    hide U32, U16;
    assert DescBytes(desc)[0] == U32(desc.fLink)[0];
  }

  /** In every volume that was built the header at byte 1024 is intact exactly for
      block sizes of 2048 and more. */
  lemma BuiltHeaderSurvivesIff(img: seq<byte>, v: Assembled, vs: seq<EntryView>, attrs: seq<Attr>, nfd: Normalizer,
                               files: seq<UserFileInput>)
    requires IsVolume(v, vs, attrs, nfd, files) && Completed(img, [], v.layout, v.parts)
    ensures HEADER_AT + HEADER_SIZE <= |img| && img[HEADER_AT..HEADER_AT + HEADER_SIZE] == Encode(v.header)
      <==> v.layout.blockSize >= LEAST_SAFE_BLOCK
  {
    VolumeFits(v, vs, attrs, nfd, files);
    hide ApplyAll, AllWrites, MarksPlan, LeastFixedPoint, PowerOfTwo, SumOf, Encode, ForkHolds, Sorted, CatalogRecords,
         HoldsAttrRecords, ContentsOf, FilesMatch, CountsFor, Fills;
    TreeStartsZero(v.parts.catalog, CatalogOpts(CATALOG_NODE), v.catalog, v.layout.SizeIn(v.layout.catalog), v.catalogNodes);
    HeaderSurvivesIff(v.layout, v.parts, v.header);
  }
}
