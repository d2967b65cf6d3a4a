/** How the chunks of a region are stored, said of its bytes, its runs and the fork
    alone: which chunk a run stands for, when it is a zero run, when it is compressed
    and what lies at its offset. */
module ChunkForm {
  import opened Bytes
  import opened Encoder
  import opened Replay

  /** Chunk `k`: `size` bytes from `k * size` on, or what is left of them. */
  function Slice(data: seq<byte>, size: nat, k: nat): seq<byte>
    requires k * size <= |data|
  {
    data[k * size..if (k + 1) * size < |data| then (k + 1) * size else |data|]
  }

  /** Run `k` describes chunk `k`: a zero run exactly for zeros, a compressed one
      exactly where compression was asked for and gains something, and in the fork,
      which starts at offset `base`, nothing, the compressed or the plain chunk. */
  ghost predicate RunStores(data: seq<byte>, size: nat, zlib: bool, deflate: seq<byte> -> seq<byte>, run: BlockRun,
                            fork: seq<byte>, base: nat, k: nat)
  {
    && k * size <= |data| && base <= run.compOffset && run.compOffset - base + run.compLength <= |fork|
    && var chunk := Slice(data, size, k);
       var stored := fork[run.compOffset - base..run.compOffset - base + run.compLength];
       var zero := forall i :: 0 <= i < |chunk| ==> chunk[i] == 0;
       var gains := zlib && |deflate(chunk)| < |chunk|;
       && run.sectorCount == |chunk| / 512
       && (size % 512 == 0 ==> run.sectorStart * 512 == k * size)
       && (run.kind == BlockZero <==> zero)
       && (run.kind == BlockZlib <==> !zero && gains)
       && (run.kind == BlockRaw <==> !zero && !gains)
       && stored == if zero then [] else if gains then deflate(chunk) else chunk
  }

  /** One run for every chunk, the last of which may be short. */
  ghost predicate StoresData(data: seq<byte>, size: nat, zlib: bool, deflate: seq<byte> -> seq<byte>, runs: seq<BlockRun>,
                             fork: seq<byte>, base: nat)
  {
    && (|runs| - 1) * size < |data| + (if |runs| == 0 then 1 else 0) && |data| <= |runs| * size
    && forall k :: 0 <= k < |runs| ==> RunStores(data, size, zlib, deflate, runs[k], fork, base, k)
  }

  // ----- the chunks

  /** Cutting makes as few chunks as hold the data, each at its place. */
  lemma {:induction false} SplitCounts(data: seq<byte>, size: nat)
    requires size > 0
    ensures |data| <= |Split(data, size)| * size
    ensures data != [] ==> (|Split(data, size)| - 1) * size < |data|
    decreases |data|
  {
    if |data| > size {
      SplitCounts(data[size..], size);
    }
  }

  lemma {:induction false} SplitSlices(data: seq<byte>, size: nat, k: nat)
    requires size > 0 && k < |Split(data, size)|
    ensures k * size <= |data| && Split(data, size)[k] == Slice(data, size, k)
    decreases |data|
  {
    if |data| > size && k > 0 {
      SplitSlices(data[size..], size, k - 1);
      assert k * size == (k - 1) * size + size && (k + 1) * size == (k - 1 + 1) * size + size;
    }
  }

  /** Every chunk but the last is whole. */
  lemma WholeChunk(data: seq<byte>, size: nat, k: nat)
    requires size > 0 && k + 1 < |Split(data, size)|
    ensures |Split(data, size)[k]| == size
  {
    SplitSlices(data, size, k);
    SplitSlices(data, size, k + 1);
    assert (k + 1) * size == k * size + size;
  }

  lemma {:induction false} SectorsBefore(r: Region, k: nat)
    requires r.Valid() && r.chunkBytes % 512 == 0 && k < |r.Chunks()|
    ensures Encode(r, k).sectors * 512 == k * r.chunkBytes
    decreases k
  {
    hide Stored, Split, Encode;
    if k == 0 {
      EncodeNone(r);
    } else {
      SectorsBefore(r, k - 1);
      EncodeStep(r, k - 1);
      WholeChunk(r.data, r.chunkBytes, k - 1);
      assert k * r.chunkBytes == (k - 1) * r.chunkBytes + r.chunkBytes;
    }
  }

  // ----- the runs

  lemma StoresChunk(r: Region, fork: seq<byte>, k: nat)
    requires r.Valid() && k < |r.Chunks()| && InFork(r, fork)
    ensures RunStores(r.data, r.chunkBytes, r.zlib, r.deflate, EncodeAll(r).runs[k], fork, 0, k)
  {
    hide Encode, Split, Slice;
    RunAt(r, fork, k);
    SplitSlices(r.data, r.chunkBytes, k);
    if r.chunkBytes % 512 == 0 {
      SectorsBefore(r, k);
    }
  }

  /** The encoding of a region, wherever it lies in a fork. */
  lemma RegionStores(r: Region, fork: seq<byte>)
    requires r.Valid() && InFork(r, fork)
    ensures StoresData(r.data, r.chunkBytes, r.zlib, r.deflate, EncodeAll(r).runs, fork, 0)
  {
    hide Encode, Split, RunStores;
    SplitCounts(r.data, r.chunkBytes);
    NoData(r.data, r.chunkBytes);
    forall k | 0 <= k < |r.Chunks()|
      ensures RunStores(r.data, r.chunkBytes, r.zlib, r.deflate, EncodeAll(r).runs[k], fork, 0, k)
    {
      StoresChunk(r, fork, k);
    }
  }

  lemma NoData(data: seq<byte>, size: nat)
    requires size > 0
    ensures data == [] <==> Split(data, size) == []
  {
  }

  /** The bytes of one call on their own, offsets counted from where it began. */
  lemma CallStores(r: Region, dst: seq<byte>)
    requires r.Valid() && dst == EncodeAll(r).fork
    ensures StoresData(r.data, r.chunkBytes, r.zlib, r.deflate, EncodeAll(r).runs, dst, r.base)
  {
    hide Encode, Split, Slice;
    var fork := Zeros(r.base) + dst;
    assert fork[r.base..r.base + |dst|] == dst;
    RegionStores(r, fork);
    var runs := EncodeAll(r).runs;
    forall k | 0 <= k < |runs| ensures RunStores(r.data, r.chunkBytes, r.zlib, r.deflate, runs[k], dst, r.base, k) {
      assert RunStores(r.data, r.chunkBytes, r.zlib, r.deflate, runs[k], fork, 0, k);
      StartsBehind(r, k);
      var at, len := runs[k].compOffset, runs[k].compLength;
      assert fork[at..at + len] == dst[at - r.base..at - r.base + len];
    }
  }

  /** No run points in front of the call's own bytes. */
  lemma StartsBehind(r: Region, k: nat)
    requires r.Valid() && k < |EncodeAll(r).runs|
    ensures EncodeAll(r).runs[k].compOffset >= r.base
  {
    hide Encode, Stored, Split;
    EncodeStep(r, k);
    EncodeGrows(r, k + 1, |r.Chunks()|);
    assert EncodeAll(r).runs[k] == Encode(r, k + 1).runs[k];
    assert |Encode(r, k).runs| == k;
  }

  /** What is appended to the fork later changes nothing. */
  lemma StoresExtends(data: seq<byte>, size: nat, zlib: bool, deflate: seq<byte> -> seq<byte>, runs: seq<BlockRun>,
                      fork: seq<byte>, more: seq<byte>, base: nat)
    requires StoresData(data, size, zlib, deflate, runs, fork, base)
    ensures StoresData(data, size, zlib, deflate, runs, fork + more, base)
  {
    hide Slice;
    forall k | 0 <= k < |runs| ensures RunStores(data, size, zlib, deflate, runs[k], fork + more, base, k) {
      assert RunStores(data, size, zlib, deflate, runs[k], fork, base, k);
      var at, len := runs[k].compOffset - base, runs[k].compLength;
      assert (fork + more)[at..at + len] == fork[at..at + len];
    }
  }

  /** No run has more sectors than the smaller of chunk and region, and the first
      has that many. */
  lemma LargestRun(data: seq<byte>, size: nat, zlib: bool, deflate: seq<byte> -> seq<byte>, runs: seq<BlockRun>,
                   fork: seq<byte>, base: nat, largest: nat)
    requires size > 0 && StoresData(data, size, zlib, deflate, runs, fork, base)
    requires largest == if size > |data| then |data| else size
    ensures forall k :: 0 <= k < |runs| ==> runs[k].sectorCount <= largest / 512
    ensures data != [] ==> runs != [] && runs[0].sectorCount == largest / 512
  {
    forall k | 0 <= k < |runs| ensures runs[k].sectorCount <= largest / 512 {
      assert RunStores(data, size, zlib, deflate, runs[k], fork, base, k);
      assert (k + 1) * size == k * size + size;
    }
    if data != [] {
      assert RunStores(data, size, zlib, deflate, runs[0], fork, base, 0);
    }
  }
}
