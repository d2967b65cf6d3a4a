/** What holds in every reachable state of the pipeline. */
module PipelineInvariant {
  import opened Wrappers
  import opened Seqs
  import opened Encoder
  import opened Pipeline

  function JobOf(c: Config, k: nat): Job
    requires c.Valid() && k < |c.Chunks()|
  {
    var chunk := c.Chunks()[k];
    Job(k, Encode(c.region, k).sectors, AllZero(chunk), chunk)
  }

  function ResultOf(c: Config, k: nat): ChunkResult
    requires c.Valid() && k < |c.Chunks()|
  {
    Encoded(c, JobOf(c, k))
  }

  predicate Past(p: Producer) { p.pc.Closing? || p.pc.AwaitingDrain? || p.pc.Deciding? || p.pc.Returned? }

  /** The producer has read a prefix of the chunks and fed its non-zero bytes to
      the checksum; it stops early only for a reason. */
  ghost predicate ProducerInv(c: Config, s: State)
    requires c.Valid()
  {
    var p, chunks := s.producer, c.Chunks();
    && p.idx <= |chunks|
    && p.remaining <= |c.region.data|
    && chunks[p.idx..] == Split(c.region.data[|c.region.data| - p.remaining..], c.region.chunkBytes)
    && p.nextSector == Encode(c.region, p.idx).sectors
    && (p.pc.Reading? ==> p.crcFed == Encode(c.region, p.idx).crcFed)
    && (p.pc.Dispatching? ==>
          p.idx < |chunks| && p.pc.job == JobOf(c, p.idx)
          && p.crcFed == Encode(c.region, p.idx + 1).crcFed)
    && (!Past(p) ==> p.err.None? && !s.jobsClosed)
    && (p.pc.Closing? ==> !s.jobsClosed)
    && (p.pc.AwaitingDrain? || p.pc.Deciding? || p.pc.Returned? ==> s.jobsClosed)
    && (Past(p) ==> p.crcFed <= EncodeAll(c.region).crcFed)
    && (Past(p) && p.err.None? && !s.done ==>
          p.remaining == 0 && p.crcFed == Encode(c.region, p.idx).crcFed)
  }

  /** A job, a worker, a result: each carries what the sequential encoder would
      make of the chunk it is for. */
  ghost predicate GoodJob(c: Config, idx: nat, j: Job)
    requires c.Valid() && idx <= |c.Chunks()|
  {
    j.idx < idx && j == JobOf(c, j.idx)
  }

  ghost predicate GoodResult(c: Config, idx: nat, r: ChunkResult)
    requires c.Valid() && idx <= |c.Chunks()|
  {
    r.idx < idx && r == ResultOf(c, r.idx)
  }

  ghost predicate GoodWorker(c: Config, idx: nat, p: WorkerPc)
    requires c.Valid() && idx <= |c.Chunks()|
  {
    && (p.Working? ==> GoodJob(c, idx, p.job))
    && (p.Sending? ==> GoodResult(c, idx, p.result))
  }

  ghost predicate ContentInv(c: Config, s: State)
    requires c.Valid() && s.producer.idx <= |c.Chunks()|
  {
    var idx := s.producer.idx;
    && |s.pool| == c.Pool()
    && (forall i :: 0 <= i < |s.jobs| ==> GoodJob(c, idx, s.jobs[i]))
    && (forall w :: 0 <= w < |s.pool| ==> GoodWorker(c, idx, s.pool[w]))
    && (forall i :: 0 <= i < |s.results| ==> GoodResult(c, idx, s.results[i]))
    && (forall k :: k in s.drain.pending ==> GoodResult(c, idx, s.drain.pending[k]) && s.drain.pending[k].idx == k)
  }

  /** The drain has written a prefix of the sequential encoding. */
  ghost predicate DrainInv(c: Config, idx: nat, d: Drain)
    requires c.Valid() && idx <= |c.Chunks()|
  {
    var r := c.region;
    && d.nextIdx <= idx
    && (d.writeErr.Some? ==>
          && (d.pc.Receiving? || d.pc.Posted?)
          && d.writeErr.value == WriteFault
          && d.dst <= Encode(r, d.nextIdx).fork)
    && (d.writeErr.None? && !d.pc.Writing? ==>
          && d.dst == Encode(r, d.nextIdx).fork
          && d.runs == Encode(r, d.nextIdx).runs
          && d.forkLen == r.base + |d.dst|)
    && (d.pc.Writing? ==>
          && 0 < d.nextIdx
          && d.pc.sent <= |d.pc.payload|
          && d.runs + [d.pc.run] == Encode(r, d.nextIdx).runs
          && d.forkLen == r.base + |Encode(r, d.nextIdx - 1).fork|
          && Encode(r, d.nextIdx).fork == Encode(r, d.nextIdx - 1).fork + d.pc.payload
          && d.dst == Encode(r, d.nextIdx - 1).fork + d.pc.payload[..d.pc.sent])
    && (d.writeErr.None? && (d.pc.Receiving? || d.pc.Posted?) ==> d.nextIdx !in d.pending)
  }

  function FailWeight(): WorkerPc -> nat { (p: WorkerPc) => if p.Exited? && p.failed then 1 else 0 }

  /** How many workers left because their compression failed. */
  function FailCount(pool: seq<WorkerPc>): nat { Total(pool, FailWeight()) }

  ghost predicate InJobs(s: State, k: nat) { exists i :: 0 <= i < |s.jobs| && s.jobs[i].idx == k }

  predicate Holds(p: WorkerPc, k: nat) { (p.Working? && p.job.idx == k) || (p.Sending? && p.result.idx == k) }

  ghost predicate InPool(s: State, k: nat) { exists w :: 0 <= w < |s.pool| && Holds(s.pool[w], k) }

  ghost predicate InResults(s: State, k: nat) { exists i :: 0 <= i < |s.results| && s.results[i].idx == k }

  ghost predicate InFlight(s: State, k: nat) {
    k in s.drain.pending || InJobs(s, k) || InPool(s, k) || InResults(s, k)
  }

  /** While nothing has failed, no chunk is lost: whatever was read and is not
      yet emitted is still somewhere in the pipeline. */
  ghost predicate CoverInv(s: State)
  {
    s.drain.writeErr.None? && FailCount(s.pool) == 0 ==>
      forall k :: s.drain.nextIdx <= k < s.producer.idx ==> InFlight(s, k)
  }

  function TakenFaults(p: Producer): nat {
    if p.err.Some? && p.err.value.WorkerFault? then 1 else 0
  }

  /** Every failed worker's error is still in `errCh` or is the producer's. */
  ghost predicate FaultInv(s: State)
  {
    && (!s.producer.pc.Returned? ==> |s.errCh| + TakenFaults(s.producer) == FailCount(s.pool))
    && (s.producer.pc.Returned? ==> s.errCh == [])
    && (forall i :: 0 <= i < |s.errCh| ==> s.errCh[i].WorkerFault?)
    && (s.done <==> s.drain.writeErr.Some?)
  }

  ghost predicate NothingFailed(s: State) {
    s.producer.err.None? && FailCount(s.pool) == 0 && s.drain.writeErr.None?
  }

  /** The fault is one that happened, in the source's order of preference: the
      producer's, then a worker's, then the drain's. */
  ghost predicate Observed(s: State, f: Fault) {
    if s.producer.err.Some? then f == s.producer.err.value
    else if FailCount(s.pool) > 0 then f.WorkerFault?
    else s.drain.writeErr == Some(f)
  }

  /** How the pipeline shuts down, and what it then returns. */
  ghost predicate ExitInv(s: State)
  {
    var pc := s.producer.pc;
    && (forall w :: 0 <= w < |s.pool| && s.pool[w].Exited? && !s.pool[w].failed ==> s.jobs == [] && s.jobsClosed)
    && (s.resultsClosed ==> AllExited(s.pool))
    && (s.drain.pc.Posted? ==> s.resultsClosed && s.results == [])
    && (s.drainCh.Some? ==> s.drain.pc.Posted? && s.drainCh.value == OutOf(s.drain) && !pc.Deciding? && !pc.Returned?)
    && (s.drain.pc.Posted? ==> s.drainCh.Some? || pc.Deciding? || pc.Returned?)
    && (pc.Deciding? ==> s.drain.pc.Posted? && pc.out == OutOf(s.drain))
    && (pc.Returned? ==> s.drain.pc.Posted?)
    && (pc.Returned? && pc.outcome.Finished? ==>
          NothingFailed(s) && pc.outcome == Finished(s.drain.runs, s.drain.forkLen))
    && (pc.Returned? && pc.outcome.Failed? ==> Observed(s, pc.outcome.fault))
  }

  ghost predicate Inv(c: Config, s: State)
    requires c.Valid()
  {
    && ProducerInv(c, s)
    && ContentInv(c, s)
    && DrainInv(c, s.producer.idx, s.drain)
    && CoverInv(s)
    && FaultInv(s)
    && ExitInv(s)
  }

  lemma InvInit(c: Config)
    requires c.Valid()
    ensures Inv(c, Init(c))
  {
    var s := Init(c);
    assert c.region.data[0..] == c.region.data;
    TotalZero(s.pool, FailWeight());
  }

  // ----- the producer's part

  /** The producer's next chunk is the next chunk of the region. */
  lemma NextChunkIsNext(c: Config, idx: nat, remaining: nat)
    requires c.Valid() && idx <= |c.Chunks()| && 0 < remaining <= |c.region.data|
    requires c.Chunks()[idx..] == Split(c.region.data[|c.region.data| - remaining..], c.region.chunkBytes)
    ensures idx < |c.Chunks()| && NextChunk(c, remaining) == c.Chunks()[idx]
    ensures 0 < |NextChunk(c, remaining)| <= remaining
    ensures c.Chunks()[idx + 1..]
         == Split(c.region.data[|c.region.data| - (remaining - |NextChunk(c, remaining)|)..], c.region.chunkBytes)
  {
    var data, size := c.region.data, c.region.chunkBytes;
    var pos := |data| - remaining;
    var n := if size > remaining then remaining else size;
    SplitStep(data, size, pos, n);
    TailStep(c.Chunks(), idx, data[pos..pos + n], Split(data[pos + n..], size));
  }

  lemma SendNeedsInput(c: Config, s: State)
    requires c.Valid() && ProducerInv(c, s) && s.producer.pc.Dispatching?
    ensures 0 < s.producer.remaining
  {
    assert c.Chunks()[s.producer.idx..] != [];
  }

  lemma ReadKeepsProducer(c: Config, s: State)
    requires c.Valid() && ProducerInv(c, s) && ProducerEnabled(c, s, ReadChunk)
    ensures ProducerInv(c, ProducerApply(c, s, ReadChunk))
  {
    hide Split, Encode;
    NextChunkIsNext(c, s.producer.idx, s.producer.remaining);
    EncodeStep(c.region, s.producer.idx);
  }

  lemma SendKeepsProducer(c: Config, s: State)
    requires c.Valid() && ProducerInv(c, s) && ProducerEnabled(c, s, SendJob)
    ensures ProducerInv(c, ProducerApply(c, s, SendJob))
  {
    hide Split, Encode;
    SendNeedsInput(c, s);
    NextChunkIsNext(c, s.producer.idx, s.producer.remaining);
    EncodeStep(c.region, s.producer.idx);
  }

  lemma ProducerKeepsProducer(c: Config, s: State, a: ProducerAction)
    requires c.Valid() && ProducerInv(c, s) && ProducerEnabled(c, s, a)
    ensures ProducerInv(c, ProducerApply(c, s, a))
  {
    hide Split, Encode;
    if a.ReadChunk? {
      ReadKeepsProducer(c, s);
    } else if a.SendJob? {
      SendKeepsProducer(c, s);
    } else {
      EncodeGrows(c.region, if s.producer.pc.Dispatching? then s.producer.idx + 1 else s.producer.idx, |c.Chunks()|);
    }
  }

  lemma ProducerKeepsContent(c: Config, s: State, a: ProducerAction)
    requires c.Valid() && ProducerInv(c, s) && ContentInv(c, s) && ProducerEnabled(c, s, a)
    requires ProducerInv(c, ProducerApply(c, s, a))
    ensures ContentInv(c, ProducerApply(c, s, a))
  {
    hide Split, Encode, Stored, Encoded, NextChunk;
    if a.SendJob? {
      var job := s.producer.pc.job;
      assert job.idx == s.producer.idx;
      hide JobOf, ResultOf;
      var t := ProducerApply(c, s, a);
      assert t.jobs == s.jobs + [job];
    }
  }

  lemma ProducerKeepsDrain(c: Config, s: State, a: ProducerAction)
    requires c.Valid() && Inv(c, s) && ProducerEnabled(c, s, a)
    requires ProducerInv(c, ProducerApply(c, s, a))
    ensures DrainInv(c, ProducerApply(c, s, a).producer.idx, ProducerApply(c, s, a).drain)
  {
    hide Split, Encode, Stored;
  }

  lemma ProducerKeepsCover(c: Config, s: State, a: ProducerAction)
    requires c.Valid() && CoverInv(s) && ProducerInv(c, s) && ProducerEnabled(c, s, a)
    ensures CoverInv(ProducerApply(c, s, a))
  {
    hide Split, Encode, Stored, Total;
    var t := ProducerApply(c, s, a);
    if t.drain.writeErr.None? && FailCount(t.pool) == 0 {
      forall k | t.drain.nextIdx <= k < t.producer.idx ensures InFlight(t, k) {
        if a.SendJob? && k == s.producer.idx {
          assert t.jobs[|s.jobs|].idx == k;
        } else {
          assert InFlight(s, k);
          if InJobs(s, k) {
            var i :| 0 <= i < |s.jobs| && s.jobs[i].idx == k;
            assert t.jobs[i].idx == k;
          }
        }
      }
    }
  }

  lemma ProducerKeepsFaults(c: Config, s: State, a: ProducerAction)
    requires c.Valid() && Inv(c, s) && ProducerEnabled(c, s, a)
    ensures FaultInv(ProducerApply(c, s, a))
    ensures ExitInv(ProducerApply(c, s, a))
  {
    hide Split, Encode, Stored, Total;
  }
}
