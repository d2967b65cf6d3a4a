/** What every run of the pipeline guarantees, whatever the schedule, the pool
    size and the failures: no deadlock, no infinite run, the sequential
    encoding on success and an honest error otherwise. */
module PipelineTheorems {
  import opened Bytes
  import opened Wrappers
  import opened Seqs
  import opened Encoder
  import opened ChunkForm
  import opened Pipeline
  import opened PipelineInvariant
  import opened PipelineSteps

  // ----- no deadlock

  ghost predicate CanStep(c: Config, s: State)
    requires c.Valid()
  {
    exists a :: Enabled(c, s, a)
  }

  /** A worker that has not left can move, or the drain can move to make room
      for it. */
  lemma PoolOrDrainMoves(c: Config, s: State, w: nat)
    requires c.Valid() && Inv(c, s) && w < |s.pool| && !s.pool[w].Exited?
    requires s.jobs != [] || s.jobsClosed
    ensures CanStep(c, s)
  {
    hide Split, Encode, Stored, Total, Encoded, JobOf, ResultOf;
    match s.pool[w] {
      case Idle => assert Enabled(c, s, WorkerStep(w, if s.jobs != [] then TakeJob else Retire));
      case Working(_) => assert Enabled(c, s, WorkerStep(w, Compress));
      case Sending(_) =>
        if |s.results| < Capacity(c) {
          assert Enabled(c, s, WorkerStep(w, SendResult));
        } else {
          DrainMoves(c, s);
        }
    }
  }

  /** The drain never waits while `results` holds something or is closed. */
  lemma DrainMoves(c: Config, s: State)
    requires c.Valid() && Inv(c, s) && !s.drain.pc.Posted?
    requires s.results != [] || s.resultsClosed
    ensures CanStep(c, s)
  {
    hide Split, Encode, Stored, Total, Encoded, JobOf, ResultOf;
    match s.drain.pc {
      case Receiving => assert Enabled(c, s, DrainStep(if s.results != [] then TakeResult else PostDrain));
      case Emitting =>
        assert Enabled(c, s, DrainStep(if s.drain.nextIdx in s.drain.pending then EmitNext else NothingNext));
      case Writing(_, payload, sent) =>
        assert Enabled(c, s, DrainStep(if sent < |payload| then WriteSome(1) else WriteDone));
    }
  }

  lemma JobBuf(c: Config, k: nat)
    requires c.Valid() && k < |c.Chunks()|
    ensures JobOf(c, k).buf == c.Chunks()[k]
  {
  }

  /** A producer stuck on its `select` has the workers or the drain to free it,
      even when every worker has failed. */
  lemma DispatchMoves(c: Config, s: State)
    requires c.Valid() && Inv(c, s) && s.producer.pc.Dispatching?
    ensures CanStep(c, s)
  {
    hide Split, Encode, Stored, Encoded, JobOf, ResultOf;
    if s.errCh != [] {
      assert Enabled(c, s, ProducerStep(TakeWorkerFault));
    } else if |s.jobs| < Capacity(c) {
      SendNeedsInput(c, s);
      NextChunkIsNext(c, s.producer.idx, s.producer.remaining);
      JobBuf(c, s.producer.idx);
      assert Enabled(c, s, ProducerStep(SendJob));
    } else {
      // jobs is open and no worker has failed, so none has left
      TotalPositive(s.pool, FailWeight(), 0);
      PoolOrDrainMoves(c, s, 0);
    }
  }

  lemma AwaitMoves(c: Config, s: State)
    requires c.Valid() && Inv(c, s) && s.producer.pc.AwaitingDrain?
    ensures CanStep(c, s)
  {
    hide Split, Encode, Stored, Total, Encoded, JobOf, ResultOf;
    if s.drainCh.Some? {
      assert Enabled(c, s, ProducerStep(TakeDrainOut));
    } else if s.resultsClosed {
      DrainMoves(c, s);
    } else if w :| 0 <= w < |s.pool| && !s.pool[w].Exited? {
      PoolOrDrainMoves(c, s, w);
    } else {
      assert Enabled(c, s, CloseResults);
    }
  }

  /** No deadlock: until the call returns, some goroutine can move. */
  lemma NoDeadlock(c: Config, s: State)
    requires c.Valid() && Inv(c, s) && !s.producer.pc.Returned?
    ensures CanStep(c, s)
  {
    hide Split, Encode, Stored, Total, Encoded, JobOf, ResultOf;
    match s.producer.pc {
      case Reading => assert Enabled(c, s, ProducerStep(if s.producer.remaining == 0 then InputDone else ReadChunk));
      case Dispatching(_) => DispatchMoves(c, s);
      case Closing => assert Enabled(c, s, ProducerStep(CloseJobs));
      case AwaitingDrain => AwaitMoves(c, s);
      case Deciding(_) => assert Enabled(c, s, ProducerStep(Decide));
    }
  }

  /** Nothing is left running once the call has returned. */
  lemma NothingOutlivesTheCall(c: Config, s: State)
    requires c.Valid() && Inv(c, s) && s.producer.pc.Returned?
    ensures Stuck(c, s) && AllExited(s.pool) && s.errCh == []
  {
    hide Split, Encode, Stored, Total, Encoded, JobOf, ResultOf;
    assert s.resultsClosed && s.results == [] && s.drain.pc.Posted?;
  }

  // ----- no infinite run

  function ProducerWeight(pc: ProducerPc): nat {
    match pc
    case Reading => 5
    case Dispatching(_) => 4
    case Closing => 3
    case AwaitingDrain => 2
    case Deciding(_) => 1
    case Returned(_) => 0
  }

  function WorkerWeight(): WorkerPc -> nat {
    (p: WorkerPc) => match p case Idle => 1 case Working(_) => 9 case Sending(_) => 7 case Exited(_) => 0
  }

  function DrainWeight(pc: DrainPc): nat {
    match pc
    case Receiving => 1
    case Emitting => 2
    case Writing(_, _, _) => 3
    case Posted => 0
  }

  /** How much is left to do, bytes of the current write aside. */
  function Work(s: State): nat {
    20 * s.producer.remaining + ProducerWeight(s.producer.pc) + 9 * |s.jobs| + Total(s.pool, WorkerWeight())
    + 5 * |s.results| + (if s.resultsClosed then 0 else 1)
    + 3 * |s.drain.pending| + DrainWeight(s.drain.pc)
  }

  /** Bytes of the current write still to go out. */
  function Unsent(s: State): nat {
    if s.drain.pc.Writing? && s.drain.pc.sent <= |s.drain.pc.payload| then |s.drain.pc.payload| - s.drain.pc.sent else 0
  }

  function Measure(c: Config, s: State): nat {
    Work(s) * (c.region.chunkBytes + 1) + Unsent(s)
  }

  lemma PendingShrinks<K, V>(m: map<K, V>, k: K)
    requires k in m
    ensures |m - {k}| == |m| - 1
  {
    assert (m - {k}).Keys == m.Keys - {k};
  }

  ghost predicate Falls(s: State, t: State) {
    Work(t) < Work(s) || (Work(t) == Work(s) && Unsent(t) < Unsent(s))
  }

  lemma ProducerReducesWork(c: Config, s: State, a: ProducerAction)
    requires c.Valid() && ProducerInv(c, s) && ProducerEnabled(c, s, a)
    ensures Falls(s, ProducerApply(c, s, a))
  {
    hide Split, Encode, Stored, Total, NextChunk;
    if a.SendJob? {
      JobBuf(c, s.producer.idx);
      ChunkLength(c, s.producer.idx);
      hide ProducerInv, JobOf;
      var t := ProducerApply(c, s, a);
      assert |t.jobs| == |s.jobs| + 1;
    }
  }

  lemma WorkerReducesWork(c: Config, s: State, w: nat, a: WorkerAction)
    requires WorkerEnabled(c, s, w, a)
    ensures Falls(s, WorkerApply(c, s, w, a))
  {
    hide Total;
    var t := WorkerApply(c, s, w, a);
    TotalUpdate(s.pool, WorkerWeight(), w, t.pool[w]);
  }

  lemma DrainReducesWork(s: State, a: DrainAction)
    requires DrainEnabled(s, a)
    ensures Falls(s, DrainApply(s, a))
  {
    if a.EmitNext? {
      EmitReducesWork(s);
    } else if a.TakeResult? {
      TakeReducesWork(s);
    } else {
      hide Total, WorkerWeight, ProducerWeight;
    }
  }

  lemma EmitReducesWork(s: State)
    requires DrainEnabled(s, EmitNext)
    ensures Falls(s, DrainApply(s, EmitNext))
  {
    hide Total, WorkerWeight, ProducerWeight;
    PendingShrinks(s.drain.pending, s.drain.nextIdx);
  }

  lemma TakeReducesWork(s: State)
    requires DrainEnabled(s, TakeResult)
    ensures Falls(s, DrainApply(s, TakeResult))
  {
    hide Total, WorkerWeight, ProducerWeight;
    var r := s.results[0];
    assert |s.drain.pending[r.idx := r]| <= |s.drain.pending| + 1;
  }

  lemma StepReducesWork(c: Config, s: State, a: Action)
    requires c.Valid() && Inv(c, s) && Enabled(c, s, a)
    ensures Falls(s, Apply(c, s, a))
  {
    hide Total, Split, Encode;
    match a {
      case ProducerStep(p) => ProducerReducesWork(c, s, p);
      case WorkerStep(w, x) => WorkerReducesWork(c, s, w, x);
      case CloseResults =>
      case DrainStep(d) => DrainReducesWork(s, d);
    }
    hide Inv;
  }

  lemma ChunkLength(c: Config, k: nat)
    requires c.Valid() && k < |c.Chunks()|
    ensures 0 < |c.Chunks()[k]| <= c.region.chunkBytes
  {
  }

  /** A write is never longer than a chunk. */
  lemma UnsentBound(c: Config, s: State)
    requires c.Valid() && Inv(c, s)
    ensures Unsent(s) <= c.region.chunkBytes
  {
    hide Split, Total, Encoded, JobOf, ResultOf;
    if s.drain.pc.Writing? {
      var k := s.drain.nextIdx - 1;
      EncodeStep(c.region, k);
      ChunkLength(c, k);
    }
  }

  lemma MulMonotone(a: nat, b: nat, m: nat)
    requires a <= b
    ensures a * m <= b * m
  {
  }

  lemma MeasureFalls(work: nat, unsent: nat, work': nat, unsent': nat, most: nat)
    requires work' < work || (work' == work && unsent' < unsent)
    requires unsent' <= most
    ensures work' * (most + 1) + unsent' < work * (most + 1) + unsent
  {
    if work' < work {
      var m := most + 1;
      MulMonotone(work' + 1, work, m);
      assert (work' + 1) * m == work' * m + m;
    }
  }

  /** Every step of every reachable state lowers the measure. */
  lemma StepReducesMeasure(c: Config, s: State, a: Action)
    requires c.Valid() && Inv(c, s) && Enabled(c, s, a)
    ensures Measure(c, Apply(c, s, a)) < Measure(c, s)
  {
    hide Work, Unsent, Inv, Apply, Enabled;
    var t := Apply(c, s, a);
    StepReducesWork(c, s, a);
    assert Work(t) < Work(s) || (Work(t) == Work(s) && Unsent(t) < Unsent(s));
    StepKeepsInv(c, s, a);
    UnsentBound(c, t);
    MeasureFalls(Work(s), Unsent(s), Work(t), Unsent(t), c.region.chunkBytes);
  }

  /** No infinite run: every run is no longer than its first state's measure
      allows. */
  lemma {:induction false} RunsAreFinite(c: Config, run: seq<State>, acts: seq<Action>)
    requires c.Valid() && IsRun(c, run, acts)
    ensures |acts| + Measure(c, Last(run)) <= Measure(c, Init(c))
  {
    hide Inv, Enabled, Apply, Init, Measure;
    var n := |acts|;
    if n > 0 {
      assert IsRun(c, run[..n], acts[..n - 1]);
      RunsAreFinite(c, run[..n], acts[..n - 1]);
      RunKeepsInv(c, run, acts, n - 1);
      assert run[n - 1 + 1] == Apply(c, run[n - 1], acts[n - 1]);
      StepReducesMeasure(c, run[n - 1], acts[n - 1]);
    }
  }

  /** A run stops exactly when the call has returned. */
  lemma StuckMeansReturned(c: Config, run: seq<State>, acts: seq<Action>)
    requires c.Valid() && IsRun(c, run, acts)
    ensures Stuck(c, Last(run)) <==> Last(run).producer.pc.Returned?
  {
    hide Inv, Enabled, Apply, Init;
    var s := Last(run);
    RunKeepsInv(c, run, acts, |run| - 1);
    if s.producer.pc.Returned? {
      NothingOutlivesTheCall(c, s);
    } else {
      NoDeadlock(c, s);
      var a :| Enabled(c, s, a);
    }
  }

  // ----- what a run produces

  /** The bytes sent to the destination are, at every moment and after any
      failure, a prefix of the sequential encoding. */
  lemma OutputIsPrefix(c: Config, s: State)
    requires c.Valid() && Inv(c, s)
    ensures s.drain.dst <= EncodeAll(c.region).fork
  {
    hide Split, Encode, Stored, Total, Encoded, JobOf, ResultOf;
    var d := s.drain;
    EncodeGrows(c.region, d.nextIdx, |c.Chunks()|);
    if d.pc.Writing? {
      Sent(Encode(c.region, d.nextIdx - 1).fork, d.pc.payload, d.pc.sent, 0);
    }
  }

  /** When nothing has failed and the drain has posted, every chunk has been
      emitted. */
  lemma AllChunksEmitted(c: Config, s: State)
    requires c.Valid() && Inv(c, s) && s.producer.pc.Returned? && NothingFailed(s)
    ensures s.drain.nextIdx == s.producer.idx == |c.Chunks()|
  {
    hide Encode, Stored, Total, Encoded, JobOf, ResultOf;
    assert s.drain.pc.Posted? && AllExited(s.pool) && !s.done;
    assert s.producer.remaining == 0;
    assert c.region.data[|c.region.data|..] == [];
    assert c.Chunks()[s.producer.idx..] == [];
    if s.drain.nextIdx < s.producer.idx {
      assert InFlight(s, s.drain.nextIdx);
      AllJobsTaken(s);
      assert false;
    }
  }

  lemma AllJobsTaken(s: State)
    requires |s.pool| >= 1 && AllExited(s.pool) && FailCount(s.pool) == 0 && ExitInv(s)
    ensures s.jobs == []
  {
    TotalPositive(s.pool, FailWeight(), 0);
  }

  /** Refinement: a call that returns without error has written, recorded and
      checksummed exactly what the sequential encoder does. */
  lemma FinishedMatchesSequential(c: Config, s: State)
    requires c.Valid() && Inv(c, s) && s.producer.pc.Returned? && s.producer.pc.outcome.Finished?
    ensures s.drain.dst == EncodeAll(c.region).fork
    ensures s.producer.pc.outcome == Finished(EncodeAll(c.region).runs, c.region.base + |EncodeAll(c.region).fork|)
    ensures s.producer.crcFed == EncodeAll(c.region).crcFed
  {
    hide Split, Encode, Stored, Total, Encoded, JobOf, ResultOf;
    AllChunksEmitted(c, s);
  }

  /** A step leaves the pipeline free of faults exactly when it was so before
      and the step is not a failure. */
  lemma StepFaults(c: Config, s: State, a: Action)
    requires c.Valid() && Inv(c, s) && Enabled(c, s, a)
    ensures NothingFailed(Apply(c, s, a)) <==> NothingFailed(s) && !IsFailure(a)
  {
    hide Split, Encode, Stored, Total, Encoded, JobOf, ResultOf, NextChunk;
    if a.WorkerStep? {
      WorkerFailCount(c, s, a.w, a.a);
    } else if a.ProducerStep? {
      ProducerFaults(c, s, a.p);
    }
  }

  /** Taking a worker's fault over, the producer only passes on that something failed. */
  lemma ProducerFaults(c: Config, s: State, a: ProducerAction)
    requires c.Valid() && Inv(c, s) && ProducerEnabled(c, s, a)
    ensures NothingFailed(ProducerApply(c, s, a)) <==> NothingFailed(s) && !IsFailure(ProducerStep(a))
  {
    hide Split, Encode, Stored, Total, NextChunk, AllZero, ProducerInv, ContentInv, DrainInv, CoverInv, ExitInv;
  }

  lemma {:induction false} RunFaults(c: Config, run: seq<State>, acts: seq<Action>, i: nat)
    requires c.Valid() && IsRun(c, run, acts) && i <= |acts|
    ensures NothingFailed(run[i]) <==> forall j :: 0 <= j < i ==> !IsFailure(acts[j])
  {
    hide Inv, Enabled, Apply, IsFailure;
    if i == 0 {
      TotalZero(run[0].pool, FailWeight());
    } else {
      RunFaults(c, run, acts, i - 1);
      RunKeepsInv(c, run, acts, i - 1);
      assert run[i - 1 + 1] == Apply(c, run[i - 1], acts[i - 1]);
      StepFaults(c, run[i - 1], acts[i - 1]);
    }
  }

  /** Every place a fault is kept in. */
  predicate Kept(s: State, f: Fault) {
    || s.producer.err == Some(f) || f in s.errCh || s.drain.writeErr == Some(f)
    || (s.drainCh.Some? && s.drainCh.value.err == Some(f))
    || (s.producer.pc.Deciding? && s.producer.pc.out.err == Some(f))
    || s.producer.pc == Returned(Failed(f))
  }

  /** A fault comes from the step that failed and from nowhere else. */
  lemma StepKeepsFaults(c: Config, s: State, a: Action, f: Fault)
    requires c.Valid() && Enabled(c, s, a) && Kept(Apply(c, s, a), f)
    ensures Kept(s, f) || FaultOf(c, s, a) == Some(f)
  {
    hide Split, Encode, Stored, Encoded, NextChunk, AllZero, AllExited;
    match a
    case ProducerStep(p) => ProducerKeepsFault(c, s, p, f);
    case WorkerStep(w, x) => WorkerKeepsFault(c, s, w, x, f);
    case CloseResults =>
    case DrainStep(d) => DrainKeepsFault(c, s, d, f);
  }

  lemma ProducerKeepsFault(c: Config, s: State, a: ProducerAction, f: Fault)
    requires c.Valid() && ProducerEnabled(c, s, a) && Kept(ProducerApply(c, s, a), f)
    ensures Kept(s, f) || FaultOf(c, s, ProducerStep(a)) == Some(f)
  {
    hide Split, Encode, Stored, NextChunk, AllZero;
  }

  lemma WorkerKeepsFault(c: Config, s: State, w: nat, a: WorkerAction, f: Fault)
    requires c.Valid() && WorkerEnabled(c, s, w, a) && Kept(WorkerApply(c, s, w, a), f)
    ensures Kept(s, f) || FaultOf(c, s, WorkerStep(w, a)) == Some(f)
  {
    hide Split, Encode, Stored, Encoded, NextChunk, AllZero;
  }

  lemma DrainKeepsFault(c: Config, s: State, a: DrainAction, f: Fault)
    requires c.Valid() && DrainEnabled(s, a) && Kept(DrainApply(s, a), f)
    ensures Kept(s, f) || FaultOf(c, s, DrainStep(a)) == Some(f)
  {
    hide Split, Encode, Stored, NextChunk, AllZero;
  }

  /** Some step of the run failed in just this way. */
  ghost predicate Caused(c: Config, run: seq<State>, acts: seq<Action>, f: Fault, n: nat)
    requires c.Valid() && IsRun(c, run, acts) && n <= |acts|
  {
    exists j :: 0 <= j < n && FaultOf(c, run[j], acts[j]) == Some(f)
  }

  lemma {:induction false} FaultsAreCaused(c: Config, run: seq<State>, acts: seq<Action>, f: Fault, i: nat)
    requires c.Valid() && IsRun(c, run, acts) && i <= |acts| && Kept(run[i], f)
    ensures Caused(c, run, acts, f, i)
    decreases i
  {
    hide Enabled, Apply, FaultOf;
    if i > 0 {
      assert run[i - 1 + 1] == Apply(c, run[i - 1], acts[i - 1]);
      StepKeepsFaults(c, run[i - 1], acts[i - 1], f);
      if Kept(run[i - 1], f) {
        FaultsAreCaused(c, run, acts, f, i - 1);
      }
    }
  }

  /** A worker's fault names a chunk that was read, is not all zeros, and was being
      compressed when its worker failed. */
  lemma WorkerFaultNamesChunk(c: Config, run: seq<State>, acts: seq<Action>, j: nat, k: nat)
    requires c.Valid() && IsRun(c, run, acts) && j < |acts| && FaultOf(c, run[j], acts[j]) == Some(WorkerFault(k))
    ensures k < |c.Chunks()| && !AllZero(c.Chunks()[k]) && c.region.zlib
    ensures acts[j].WorkerStep? && acts[j].w < |run[j].pool| && run[j].pool[acts[j].w] == Working(JobOf(c, k))
  {
    hide Apply, Init, Inv;
    RunKeepsInv(c, run, acts, j);
    assert Enabled(c, run[j], acts[j]);
    hide IsRun;
    WorkingOnChunk(c, run[j], acts[j].w);
  }

  lemma WorkingOnChunk(c: Config, s: State, w: nat)
    requires c.Valid() && Inv(c, s) && w < |s.pool| && s.pool[w].Working?
    ensures s.pool[w].job.idx < |c.Chunks()| && s.pool[w].job == JobOf(c, s.pool[w].job.idx)
    ensures s.pool[w].job.zero == AllZero(c.Chunks()[s.pool[w].job.idx])
  {
    hide DrainInv, CoverInv, FaultInv, ExitInv, Split, Encode, Stored, AllZero;
    assert GoodWorker(c, s.producer.idx, s.pool[w]);
  }

  /** Error honesty: the call succeeds exactly when no read, checksum,
      compression or write failed during the run, and otherwise reports the fault
      of a step that failed, the producer's before a worker's before the drain's. */
  lemma OutcomeIsHonest(c: Config, run: seq<State>, acts: seq<Action>)
    requires c.Valid() && IsRun(c, run, acts) && Last(run).producer.pc.Returned?
    ensures Last(run).producer.pc.outcome.Finished? <==> forall j :: 0 <= j < |acts| ==> !IsFailure(acts[j])
    ensures Last(run).producer.pc.outcome.Failed? ==>
      && Observed(Last(run), Last(run).producer.pc.outcome.fault)
      && Caused(c, run, acts, Last(run).producer.pc.outcome.fault, |acts|)
  {
    if Last(run).producer.pc.outcome.Failed? {
      FaultsAreCaused(c, run, acts, Last(run).producer.pc.outcome.fault, |acts|);
    }
    hide Caused, Enabled, Apply, Init, IsFailure, ProducerInv, ContentInv, DrainInv, CoverInv, Total;
    RunKeepsInv(c, run, acts, |acts|);
    RunFaults(c, run, acts, |acts|);
  }

  /** By the time `len(errCh)` is looked at, every worker has exited and every
      failed worker's error is in the channel or already taken. */
  lemma WorkersExitBeforeDeciding(c: Config, s: State)
    requires c.Valid() && Inv(c, s) && s.producer.pc.Deciding?
    ensures AllExited(s.pool)
    ensures |s.errCh| + TakenFaults(s.producer) == FailCount(s.pool)
  {
    hide Split, Encode, Stored, Total, Encoded, JobOf, ResultOf;
  }

  /** Worker independence: two calls on the same region that both succeed agree
      on every output, however many workers each had and whatever the schedule. */
  lemma WorkerIndependence(c: Config, d: Config, runC: seq<State>, actsC: seq<Action>,
                           runD: seq<State>, actsD: seq<Action>)
    requires c.Valid() && d.Valid() && c.region == d.region
    requires IsRun(c, runC, actsC) && Last(runC).producer.pc.Returned?
    requires IsRun(d, runD, actsD) && Last(runD).producer.pc.Returned?
    requires Last(runC).producer.pc.outcome.Finished? && Last(runD).producer.pc.outcome.Finished?
    ensures Last(runC).drain.dst == Last(runD).drain.dst
    ensures Last(runC).producer.pc.outcome == Last(runD).producer.pc.outcome
    ensures Last(runC).producer.crcFed == Last(runD).producer.crcFed
  {
    hide Inv, Enabled, Apply, Init;
    RunKeepsInv(c, runC, actsC, |actsC|);
    RunKeepsInv(d, runD, actsD, |actsD|);
    FinishedMatchesSequential(c, Last(runC));
    FinishedMatchesSequential(d, Last(runD));
  }

  /** The call itself, run to completion under an arbitrary schedule: it succeeds
      exactly if no step of that schedule is a failure. */
  method EncodeChunks(c: Config)
    returns (outcome: Outcome, dst: seq<byte>, crcFed: seq<byte>, ghost run: seq<State>, ghost acts: seq<Action>)
    requires c.Valid()
    ensures IsRun(c, run, acts) && Last(run).producer.pc == Returned(outcome)
    ensures Last(run).drain.dst == dst && Last(run).producer.crcFed == crcFed
    ensures outcome.Finished? <==> forall j :: 0 <= j < |acts| ==> !IsFailure(acts[j])
    ensures dst <= EncodeAll(c.region).fork
    ensures outcome.Finished? ==>
              && outcome == Finished(EncodeAll(c.region).runs, c.region.base + |EncodeAll(c.region).fork|)
              && dst == EncodeAll(c.region).fork
              && crcFed == EncodeAll(c.region).crcFed
    ensures outcome.Finished? ==>
      StoresData(c.region.data, c.region.chunkBytes, c.region.zlib, c.region.deflate, outcome.runs, dst, c.region.base)
  {
    hide StoresData, Inv, Enabled, Apply, Measure, IsFailure;
    var s := Init(c);
    run, acts := [s], [];
    InvInit(c);
    while !s.producer.pc.Returned?
      invariant Inv(c, s) && IsRun(c, run, acts) && Last(run) == s
      decreases Measure(c, s)
    {
      NoDeadlock(c, s);
      var a :| Enabled(c, s, a);
      StepKeepsInv(c, s, a);
      StepReducesMeasure(c, s, a);
      RunGrows(c, run, acts, a);
      s := Apply(c, s, a);
      run, acts := run + [s], acts + [a];
    }
    OutcomeIsHonest(c, run, acts);
    OutputIsPrefix(c, s);
    if s.producer.pc.outcome.Finished? {
      FinishedMatchesSequential(c, s);
      CallStores(c.region, s.drain.dst);
    }
    return s.producer.pc.outcome, s.drain.dst, s.producer.crcFed, run, acts;
  }

  lemma RunGrows(c: Config, run: seq<State>, acts: seq<Action>, a: Action)
    requires c.Valid() && IsRun(c, run, acts) && Enabled(c, Last(run), a)
    ensures IsRun(c, run + [Apply(c, Last(run), a)], acts + [a])
  {
    hide Enabled, Apply, Init;
    var longer, all := run + [Apply(c, Last(run), a)], acts + [a];
    forall i | 0 <= i < |all| ensures Enabled(c, longer[i], all[i]) && longer[i + 1] == Apply(c, longer[i], all[i]) {
      if i < |acts| {
        assert longer[i] == run[i] && longer[i + 1] == run[i + 1] && all[i] == acts[i];
      }
    }
  }
}
