/** A reader of the data fork: it expands blkx runs back into sectors. Replaying
    what the encoder wrote gives the source back, sector for sector. */
module Replay {
  import opened Bytes
  import opened Encoder

  /** The one law the compressor has to obey. */
  ghost predicate Lossless(deflate: seq<byte> -> seq<byte>, inflate: seq<byte> -> seq<byte>) {
    forall x :: inflate(deflate(x)) == x
  }

  function Zeros(n: nat): (z: seq<byte>)
    ensures |z| == n && AllZero(z)
  {
    seq(n, _ => 0)
  }

  /** The sectors a run stands for, read from the fork; none when the run points
      outside it. */
  function ExpandRun(fork: seq<byte>, run: BlockRun, inflate: seq<byte> -> seq<byte>): seq<byte>
  {
    if run.compOffset + run.compLength > |fork| then []
    else
      var stored := fork[run.compOffset..run.compOffset + run.compLength];
      match run.kind
      case BlockZero => Zeros(SECTOR_SIZE * run.sectorCount)
      case BlockRaw => stored
      case BlockZlib => inflate(stored)
      case BlockTerminator => []
  }

  /** The run lies inside the fork and expands to the sectors of `data` it
      claims to hold. */
  ghost predicate RunReplays(run: BlockRun, data: seq<byte>, fork: seq<byte>, inflate: seq<byte> -> seq<byte>) {
    && run.compOffset + run.compLength <= |fork|
    && SECTOR_SIZE * (run.sectorStart + run.sectorCount) <= |data|
    && ExpandRun(fork, run, inflate)
       == data[SECTOR_SIZE * run.sectorStart..SECTOR_SIZE * (run.sectorStart + run.sectorCount)]
  }

  ghost predicate RunsReplay(runs: seq<BlockRun>, data: seq<byte>, fork: seq<byte>, inflate: seq<byte> -> seq<byte>) {
    forall i :: 0 <= i < |runs| ==> RunReplays(runs[i], data, fork, inflate)
  }

  /** The runs tile the sectors from 0 and the fork from `base`, without gap or
      overlap, up to the position given. */
  ghost predicate Tiles(runs: seq<BlockRun>, base: nat, sectors: nat, forkLen: nat) {
    && (forall i :: 0 <= i < |runs| ==>
          && runs[i].sectorStart == (if i == 0 then 0 else runs[i - 1].sectorStart + runs[i - 1].sectorCount)
          && runs[i].compOffset == (if i == 0 then base else runs[i - 1].compOffset + runs[i - 1].compLength))
    && sectors == (if runs == [] then 0 else runs[|runs| - 1].sectorStart + runs[|runs| - 1].sectorCount)
    && forkLen == (if runs == [] then base else runs[|runs| - 1].compOffset + runs[|runs| - 1].compLength)
  }

  /** What a verifier feeds its checksum: the expansion of every run that is not
      a zero run, in order. */
  ghost function NonZeroSectors(runs: seq<BlockRun>, fork: seq<byte>, inflate: seq<byte> -> seq<byte>): seq<byte>
  {
    if runs == [] then []
    else
      var n := |runs| - 1;
      NonZeroSectors(runs[..n], fork, inflate)
      + if runs[n].kind.BlockZero? then [] else ExpandRun(fork, runs[n], inflate)
  }

  /** Sector arithmetic is exact. */
  predicate Aligned(r: Region) {
    r.Valid() && |r.data| % SECTOR_SIZE == 0 && r.chunkBytes % SECTOR_SIZE == 0
  }

  /** Chunk `k` of the region is the bytes at `pos`, and the rest is cut from
      what follows; with no chunk left, the data is at its end. */
  ghost predicate CutAt(r: Region, pos: nat, k: nat)
    requires r.Valid() && k <= |r.Chunks()|
  {
    && pos <= |r.data| && pos % SECTOR_SIZE == 0
    && r.Chunks()[k..] == Split(r.data[pos..], r.chunkBytes)
  }

  /** Chunk `k` sits where the sectors before it end. */
  lemma {:induction false} ChunkPosition(r: Region, k: nat)
    requires Aligned(r) && k <= |r.Chunks()|
    ensures CutAt(r, SECTOR_SIZE * Encode(r, k).sectors, k)
    ensures k == |r.Chunks()| ==> SECTOR_SIZE * Encode(r, k).sectors == |r.data|
  {
    hide Stored, Encode, Split;
    if k == 0 {
      EncodeNone(r);
      assert r.data[0..] == r.data;
    } else {
      ChunkPosition(r, k - 1);
      EncodeStep(r, k - 1);
      NextCut(r, SECTOR_SIZE * Encode(r, k - 1).sectors, k - 1);
    }
    if k == |r.Chunks()| {
      LastCut(r, SECTOR_SIZE * Encode(r, k).sectors);
    }
  }

  lemma LastCut(r: Region, pos: nat)
    requires Aligned(r) && CutAt(r, pos, |r.Chunks()|)
    ensures pos == |r.data|
  {
    assert r.Chunks()[|r.Chunks()|..] == [];
  }

  lemma NextCut(r: Region, pos: nat, k: nat)
    requires Aligned(r) && k < |r.Chunks()| && CutAt(r, pos, k)
    ensures var chunk := r.Chunks()[k];
      && |chunk| % SECTOR_SIZE == 0 && pos + |chunk| <= |r.data| && r.data[pos..pos + |chunk|] == chunk
      && CutAt(r, pos + |chunk|, k + 1)
  {
    assert r.Chunks()[k..] != [];
    var n := if r.chunkBytes > |r.data| - pos then |r.data| - pos else r.chunkBytes;
    SplitStep(r.data, r.chunkBytes, pos, n);
    TailStep(r.Chunks(), k, r.data[pos..pos + n], Split(r.data[pos + n..], r.chunkBytes));
  }

  /** The encoding of the region, as it lies in the whole fork. */
  ghost predicate InFork(r: Region, fork: seq<byte>)
    requires r.Valid()
  {
    r.base + |EncodeAll(r).fork| <= |fork| && fork[r.base..r.base + |EncodeAll(r).fork|] == EncodeAll(r).fork
  }

  lemma Inside(fork: seq<byte>, base: nat, all: seq<byte>, before: seq<byte>, payload: seq<byte>)
    requires base + |all| <= |fork| && fork[base..base + |all|] == all
    requires before + payload <= all
    ensures fork[base + |before|..base + |before| + |payload|] == payload
  {
    var off := |before|;
    assert all[off..off + |payload|] == payload;
    assert fork[base..base + |all|][off..off + |payload|] == fork[base + off..base + off + |payload|];
  }

  /** Run `k` of the whole encoding, and where its bytes are. */
  lemma RunAt(r: Region, fork: seq<byte>, k: nat)
    requires r.Valid() && k < |r.Chunks()| && InFork(r, fork)
    ensures
      var chunk, off := r.Chunks()[k], r.base + |Encode(r, k).fork|;
      var (kind, payload) := Stored(r, chunk);
      && EncodeAll(r).runs[k] == BlockRun(kind, Encode(r, k).sectors, |chunk| / SECTOR_SIZE, off, |payload|)
      && off + |payload| <= |fork| && fork[off..off + |payload|] == payload
  {
    hide Encode, Stored, Split;
    EncodeStep(r, k);
    EncodeGrows(r, k + 1, |r.Chunks()|);
    assert EncodeAll(r).runs[k] == Encode(r, k + 1).runs[k];
    assert |Encode(r, k).runs| == k;
    Inside(fork, r.base, EncodeAll(r).fork, Encode(r, k).fork, Stored(r, r.Chunks()[k]).1);
  }

  /** Run `k` expands to chunk `k`. */
  lemma RunExpands(r: Region, fork: seq<byte>, k: nat, inflate: seq<byte> -> seq<byte>)
    requires Aligned(r) && k < |r.Chunks()| && InFork(r, fork) && Lossless(r.deflate, inflate)
    ensures EncodeAll(r).runs[k].compOffset + EncodeAll(r).runs[k].compLength <= |fork|
    ensures ExpandRun(fork, EncodeAll(r).runs[k], inflate) == r.Chunks()[k]
    ensures RunReplays(EncodeAll(r).runs[k], r.data, fork, inflate)
  {
    hide Encode, Split;
    var chunk := r.Chunks()[k];
    ChunkPosition(r, k);
    NextCut(r, SECTOR_SIZE * Encode(r, k).sectors, k);
    RunAt(r, fork, k);
    var run := EncodeAll(r).runs[k];
    assert run.sectorCount * SECTOR_SIZE == |chunk|;
    StoredExpands(r, fork, run, chunk, inflate);
  }

  lemma StoredExpands(r: Region, fork: seq<byte>, run: BlockRun, chunk: seq<byte>, inflate: seq<byte> -> seq<byte>)
    requires Lossless(r.deflate, inflate) && run.sectorCount * SECTOR_SIZE == |chunk|
    requires run.compOffset + run.compLength <= |fork|
    requires (run.kind, fork[run.compOffset..run.compOffset + run.compLength]) == Stored(r, chunk)
    ensures ExpandRun(fork, run, inflate) == chunk
  {
  }

  /** Replaying a region's runs over the fork rebuilds the region. */
  lemma RegionReplays(r: Region, fork: seq<byte>, inflate: seq<byte> -> seq<byte>)
    requires Aligned(r) && InFork(r, fork) && Lossless(r.deflate, inflate)
    ensures RunsReplay(EncodeAll(r).runs, r.data, fork, inflate)
  {
    hide Encode, Split, RunReplays;
    forall k | 0 <= k < |r.Chunks()| ensures RunReplays(EncodeAll(r).runs[k], r.data, fork, inflate) {
      RunExpands(r, fork, k, inflate);
    }
  }

  lemma NothingTiles(base: nat)
    ensures Tiles([], base, 0, base)
  {
  }

  lemma TilesSnoc(runs: seq<BlockRun>, run: BlockRun, base: nat, sectors: nat, forkLen: nat)
    requires Tiles(runs, base, sectors, forkLen)
    requires run.sectorStart == sectors && run.compOffset == forkLen
    ensures Tiles(runs + [run], base, sectors + run.sectorCount, forkLen + run.compLength)
  {
  }

  /** A region's runs tile it, and its stretch of the fork. */
  lemma {:induction false} RegionTiles(r: Region, k: nat)
    requires r.Valid() && k <= |r.Chunks()|
    ensures Tiles(Encode(r, k).runs, r.base, Encode(r, k).sectors, r.base + |Encode(r, k).fork|)
  {
    hide Stored, Split, Encode, Tiles;
    if k == 0 {
      EncodeNone(r);
      NothingTiles(r.base);
    } else {
      RegionTiles(r, k - 1);
      EncodeStep(r, k - 1);
      var e, chunk := Encode(r, k - 1), r.Chunks()[k - 1];
      var (kind, payload) := Stored(r, chunk);
      TilesSnoc(e.runs, BlockRun(kind, e.sectors, |chunk| / SECTOR_SIZE, r.base + |e.fork|, |payload|),
                r.base, e.sectors, r.base + |e.fork|);
    }
  }

  /** The checksum was fed exactly the sectors a verifier would feed it. */
  lemma {:induction false} RegionChecksum(r: Region, fork: seq<byte>, k: nat, inflate: seq<byte> -> seq<byte>)
    requires Aligned(r) && k <= |r.Chunks()| && InFork(r, fork) && Lossless(r.deflate, inflate)
    ensures NonZeroSectors(Encode(r, k).runs, fork, inflate) == Encode(r, k).crcFed
  {
    hide Stored, Split, ExpandRun, Encode;
    if k == 0 {
      EncodeNone(r);
    } else {
      RegionChecksum(r, fork, k - 1, inflate);
      EncodeStep(r, k - 1);
      EncodeGrows(r, k, |r.Chunks()|);
      RunExpands(r, fork, k - 1, inflate);
      NonZeroSnoc(Encode(r, k - 1).runs, EncodeAll(r).runs[k - 1], fork, inflate);
      assert Encode(r, k).runs[k - 1] == EncodeAll(r).runs[k - 1];
      assert Encode(r, k).runs == Encode(r, k - 1).runs + [EncodeAll(r).runs[k - 1]];
    }
  }

  lemma NonZeroSnoc(runs: seq<BlockRun>, run: BlockRun, fork: seq<byte>, inflate: seq<byte> -> seq<byte>)
    ensures NonZeroSectors(runs + [run], fork, inflate)
         == NonZeroSectors(runs, fork, inflate) + if run.kind.BlockZero? then [] else ExpandRun(fork, run, inflate)
  {
    assert (runs + [run])[..|runs|] == runs;
  }

  // ----- later writes to the fork change nothing

  lemma ReplayExtends(runs: seq<BlockRun>, data: seq<byte>, fork: seq<byte>, more: seq<byte>,
                      inflate: seq<byte> -> seq<byte>)
    requires RunsReplay(runs, data, fork, inflate)
    ensures RunsReplay(runs, data, fork + more, inflate)
  {
    forall i | 0 <= i < |runs| ensures RunReplays(runs[i], data, fork + more, inflate) {
      var run := runs[i];
      assert RunReplays(run, data, fork, inflate);
      assert (fork + more)[run.compOffset..run.compOffset + run.compLength]
          == fork[run.compOffset..run.compOffset + run.compLength];
    }
  }

  lemma {:induction false} NonZeroExtends(runs: seq<BlockRun>, fork: seq<byte>, more: seq<byte>,
                                          inflate: seq<byte> -> seq<byte>)
    requires forall i :: 0 <= i < |runs| ==> runs[i].compOffset + runs[i].compLength <= |fork|
    ensures NonZeroSectors(runs, fork + more, inflate) == NonZeroSectors(runs, fork, inflate)
  {
    if runs != [] {
      var n := |runs| - 1;
      NonZeroExtends(runs[..n], fork, more, inflate);
      var run := runs[n];
      assert (fork + more)[run.compOffset..run.compOffset + run.compLength]
          == fork[run.compOffset..run.compOffset + run.compLength];
    }
  }
}
