/** The data fork of a UDIF image, encoded one chunk after another: what the
    concurrent pipeline has to produce, whatever its workers do. */
module Encoder {
  import opened Bytes

  const SECTOR_SIZE: nat := 512

  datatype RunType = BlockZero | BlockRaw | BlockZlib | BlockTerminator

  /** One entry of a blkx table. `sectorStart` counts from the start of the
      region, `compOffset` from the start of the data fork. */
  datatype BlockRun = BlockRun(kind: RunType, sectorStart: nat, sectorCount: nat,
                               compOffset: nat, compLength: nat)

  /** Everything `encodeChunks` is given, less the worker count. `data` is what
      the reads return for as long as they succeed. */
  datatype Region = Region(data: seq<byte>, base: nat, chunkBytes: nat, zlib: bool,
                           deflate: seq<byte> -> seq<byte>)
  {
    predicate Valid() { 0 < chunkBytes }

    function Chunks(): (r: seq<seq<byte>>)
      requires Valid()
    {
      Split(data, chunkBytes)
    }
  }

  /** `data` cut into chunks of `size` bytes, the last one possibly shorter. */
  function Split(data: seq<byte>, size: nat): (r: seq<seq<byte>>)
    requires 0 < size
    ensures forall i :: 0 <= i < |r| ==> 0 < |r[i]| <= size
  {
    if |data| == 0 then []
    else if |data| <= size then [data]
    else [data[..size]] + Split(data[size..], size)
  }

  /** One cut of `Split`, read off the front. */
  lemma SplitStep(data: seq<byte>, size: nat, pos: nat, n: nat)
    requires 0 < size && pos < |data|
    requires n == if size > |data| - pos then |data| - pos else size
    ensures Split(data[pos..], size) == [data[pos..pos + n]] + Split(data[pos + n..], size)
  {
    var rest := data[pos..];
    assert rest[..n] == data[pos..pos + n];
    assert rest[n..] == data[pos + n..];
    if |rest| <= size {
      assert data[pos + n..] == [];
      assert data[pos..pos + n] == rest;
    }
  }

  lemma TailStep<T>(chunks: seq<T>, idx: nat, head: T, tail: seq<T>)
    requires idx <= |chunks| && chunks[idx..] == [head] + tail
    ensures idx < |chunks| && chunks[idx] == head && chunks[idx + 1..] == tail
  {
    assert chunks[idx] == chunks[idx..][0];
    assert chunks[idx + 1..] == chunks[idx..][1..];
  }

  predicate AllZero(p: seq<byte>) {
    forall i :: 0 <= i < |p| ==> p[i] == 0
  }

  /** How one chunk is stored: zero chunks store nothing, and compression is
      used only where it makes the chunk smaller. */
  function Stored(r: Region, chunk: seq<byte>): (e: (RunType, seq<byte>))
    ensures |e.1| <= |chunk|
  {
    if AllZero(chunk) then (BlockZero, [])
    else if r.zlib && |r.deflate(chunk)| < |chunk| then (BlockZlib, r.deflate(chunk))
    else (BlockRaw, chunk)
  }

  /** What the encoder has produced so far: the run list, the bytes of the data
      fork, the sectors covered and the bytes the checksum has been fed. */
  datatype Encoding = Encoding(runs: seq<BlockRun>, fork: seq<byte>, sectors: nat, crcFed: seq<byte>)

  /** The sequential encoder after its first `k` chunks. */
  function Encode(r: Region, k: nat): (e: Encoding)
    requires r.Valid() && k <= |r.Chunks()|
    ensures |e.runs| == k
  {
    if k == 0 then Encoding([], [], 0, [])
    else
      var e := Encode(r, k - 1);
      var chunk := r.Chunks()[k - 1];
      var (kind, payload) := Stored(r, chunk);
      Encoding(
        e.runs + [BlockRun(kind, e.sectors, |chunk| / SECTOR_SIZE, r.base + |e.fork|, |payload|)],
        e.fork + payload,
        e.sectors + |chunk| / SECTOR_SIZE,
        if kind.BlockZero? then e.crcFed else e.crcFed + chunk)
  }

  /** One more chunk. */
  lemma EncodeStep(r: Region, k: nat)
    requires r.Valid() && k < |r.Chunks()|
    ensures
      var e, chunk := Encode(r, k), r.Chunks()[k];
      var (kind, payload) := Stored(r, chunk);
      Encode(r, k + 1) == Encoding(
        e.runs + [BlockRun(kind, e.sectors, |chunk| / SECTOR_SIZE, r.base + |e.fork|, |payload|)],
        e.fork + payload,
        e.sectors + |chunk| / SECTOR_SIZE,
        if kind.BlockZero? then e.crcFed else e.crcFed + chunk)
  {
  }

  lemma EncodeNone(r: Region)
    requires r.Valid()
    ensures Encode(r, 0) == Encoding([], [], 0, [])
  {
  }

  function EncodeAll(r: Region): (e: Encoding)
    requires r.Valid()
  {
    Encode(r, |r.Chunks()|)
  }

  /** The encoder only ever appends. */
  lemma {:induction false} EncodeGrows(r: Region, j: nat, k: nat)
    requires r.Valid() && j <= k <= |r.Chunks()|
    ensures Encode(r, j).fork <= Encode(r, k).fork
    ensures Encode(r, j).runs <= Encode(r, k).runs
    ensures Encode(r, j).crcFed <= Encode(r, k).crcFed
  {
    if j < k {
      EncodeGrows(r, j, k - 1);
    }
  }
}
