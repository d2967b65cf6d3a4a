/** The steps of the workers, the closer and the drain keep the invariant. */
module PipelineSteps {
  import opened Bytes
  import opened Seqs
  import opened Encoder
  import opened Pipeline
  import opened PipelineInvariant

  // ----- the workers

  lemma WorkerKeepsContent(c: Config, s: State, w: nat, a: WorkerAction)
    requires c.Valid() && s.producer.idx <= |c.Chunks()|
    requires ContentInv(c, s) && WorkerEnabled(c, s, w, a)
    ensures ContentInv(c, WorkerApply(c, s, w, a))
  {
    hide Split, Encode, Stored, JobOf;
    var t := WorkerApply(c, s, w, a);
    assert GoodWorker(c, s.producer.idx, s.pool[w]);
    if a.Compress? {
      var job := s.pool[w].job;
      assert Encoded(c, job) == ResultOf(c, job.idx) && Encoded(c, job).idx == job.idx;
    }
    hide ResultOf, Encoded;
  }

  /** A worker step changes one worker, and counts as a failure if that is how
      it leaves. */
  lemma WorkerFailCount(c: Config, s: State, w: nat, a: WorkerAction)
    requires WorkerEnabled(c, s, w, a)
    ensures FailCount(WorkerApply(c, s, w, a).pool) == FailCount(s.pool) + if a.CompressFails? then 1 else 0
  {
    var t := WorkerApply(c, s, w, a);
    TotalUpdate(s.pool, FailWeight(), w, t.pool[w]);
  }

  lemma WorkerKeepsCover(c: Config, s: State, w: nat, a: WorkerAction)
    requires CoverInv(s) && WorkerEnabled(c, s, w, a)
    ensures CoverInv(WorkerApply(c, s, w, a))
  {
    hide Split, Encode, Stored, Total;
    var t := WorkerApply(c, s, w, a);
    WorkerFailCount(c, s, w, a);
    if t.drain.writeErr.None? && FailCount(t.pool) == 0 {
      forall k | t.drain.nextIdx <= k < t.producer.idx ensures InFlight(t, k) {
        assert InFlight(s, k);
        if InJobs(s, k) {
          var i :| 0 <= i < |s.jobs| && s.jobs[i].idx == k;
          if a.TakeJob? {
            assert if i == 0 then Holds(t.pool[w], k) else t.jobs[i - 1].idx == k;
          }
        } else if InPool(s, k) {
          var v :| 0 <= v < |s.pool| && Holds(s.pool[v], k);
          if v == w && a.SendResult? {
            assert t.results[|s.results|].idx == k;
          } else {
            assert Holds(t.pool[v], k);
          }
        } else if InResults(s, k) {
          var i :| 0 <= i < |s.results| && s.results[i].idx == k;
          assert t.results[i].idx == k;
        }
      }
    }
  }

  /** `errCh` has room for an error of every worker, so `trySendErr` never
      drops one. */
  lemma ErrChHasRoom(c: Config, s: State)
    requires c.Valid() && Inv(c, s)
    ensures |s.errCh| <= |s.pool| < ErrCapacity(c)
  {
    hide Split, Encode, Stored;
    TotalBound(s.pool, FailWeight(), 1);
  }

  lemma WorkerKeepsFaults(c: Config, s: State, w: nat, a: WorkerAction)
    requires c.Valid() && Inv(c, s) && WorkerEnabled(c, s, w, a)
    ensures FaultInv(WorkerApply(c, s, w, a))
    ensures ExitInv(WorkerApply(c, s, w, a))
  {
    hide Split, Encode, Stored, Total;
    WorkerFailCount(c, s, w, a);
    ErrChHasRoom(c, s);
    var t := WorkerApply(c, s, w, a);
    assert !s.pool[w].Exited? && !s.resultsClosed;
  }

  lemma WorkerKeepsInv(c: Config, s: State, w: nat, a: WorkerAction)
    requires c.Valid() && Inv(c, s) && WorkerEnabled(c, s, w, a)
    ensures Inv(c, WorkerApply(c, s, w, a))
  {
    hide Split, Encode, Stored, Total;
    WorkerKeepsContent(c, s, w, a);
    WorkerKeepsCover(c, s, w, a);
    WorkerKeepsFaults(c, s, w, a);
    hide ContentInv, CoverInv, FaultInv, ExitInv;
  }

  // ----- the drain

  lemma DrainKeepsContent(c: Config, s: State, a: DrainAction)
    requires c.Valid() && s.producer.idx <= |c.Chunks()|
    requires ContentInv(c, s) && DrainEnabled(s, a)
    ensures ContentInv(c, DrainApply(s, a))
  {
    hide Split, Encode, Stored, JobOf, ResultOf, Encoded;
  }

  /** Writing the stored form of chunk `nextIdx` extends the encoding by one. */
  lemma EmitMatches(c: Config, k: nat, cur: ChunkResult, forkLen: nat)
    requires c.Valid() && k < |c.Chunks()| && cur == ResultOf(c, k)
    requires forkLen == c.region.base + |Encode(c.region, k).fork|
    ensures Encode(c.region, k + 1).fork == Encode(c.region, k).fork + cur.payload
    ensures Encode(c.region, k + 1).runs == Encode(c.region, k).runs
              + [BlockRun(cur.kind, cur.sectorStart, cur.secCount, forkLen, |cur.payload|)]
  {
    EncodeStep(c.region, k);
  }

  lemma EmitKeepsDrain(c: Config, s: State)
    requires c.Valid() && ProducerInv(c, s) && ContentInv(c, s) && DrainInv(c, s.producer.idx, s.drain)
    requires DrainEnabled(s, EmitNext)
    ensures DrainInv(c, s.producer.idx, DrainApply(s, EmitNext).drain)
  {
    hide Split, Encode, Stored, JobOf, ResultOf, Encoded;
    var d := s.drain;
    assert GoodResult(c, s.producer.idx, d.pending[d.nextIdx]);
    EmitMatches(c, d.nextIdx, d.pending[d.nextIdx], d.forkLen);
    assert d.pending[d.nextIdx].payload[..0] == [];
    hide ContentInv, ProducerInv;
  }

  lemma WriteKeepsDrain(c: Config, s: State, a: DrainAction)
    requires c.Valid() && s.producer.idx <= |c.Chunks()| && DrainInv(c, s.producer.idx, s.drain)
    requires DrainEnabled(s, a) && s.drain.pc.Writing?
    ensures DrainInv(c, s.producer.idx, DrainApply(s, a).drain)
  {
    hide Split, Encode, Stored;
    var d := s.drain;
    var before := Encode(c.region, d.nextIdx - 1).fork;
    if a.WriteDone? {
      assert d.pc.payload[..d.pc.sent] == d.pc.payload;
    } else {
      Sent(before, d.pc.payload, d.pc.sent, a.n);
    }
  }

  lemma DrainKeepsDrain(c: Config, s: State, a: DrainAction)
    requires c.Valid() && ProducerInv(c, s) && ContentInv(c, s) && DrainInv(c, s.producer.idx, s.drain)
    requires DrainEnabled(s, a)
    ensures DrainInv(c, s.producer.idx, DrainApply(s, a).drain)
  {
    hide Split, Encode, Stored, JobOf, ResultOf, Encoded;
    assert s.producer.idx <= |c.Chunks()|;
    hide ContentInv, ProducerInv;
    if s.drain.pc.Writing? {
      WriteKeepsDrain(c, s, a);
    } else if a.EmitNext? {
      EmitKeepsDrain(c, s);
    }
  }

  lemma Sent(before: seq<byte>, payload: seq<byte>, sent: nat, n: nat)
    requires sent + n <= |payload|
    ensures before + payload[..sent] + payload[sent..sent + n] == before + payload[..sent + n]
    ensures before + payload[..sent + n] <= before + payload
  {
    assert payload[..sent] + payload[sent..sent + n] == payload[..sent + n];
  }

  lemma DrainKeepsCover(c: Config, s: State, a: DrainAction)
    requires c.Valid() && Inv(c, s) && DrainEnabled(s, a)
    ensures CoverInv(DrainApply(s, a))
  {
    hide Split, Encode, Stored, Total, Encoded, JobOf, ResultOf;
    var t := DrainApply(s, a);
    if t.drain.writeErr.None? && FailCount(t.pool) == 0 {
      forall k | t.drain.nextIdx <= k < t.producer.idx ensures InFlight(t, k) {
        assert InFlight(s, k);
        if InJobs(s, k) {
          assert InJobs(t, k);
        } else if InPool(s, k) {
          assert InPool(t, k);
        } else if InResults(s, k) {
          var i :| 0 <= i < |s.results| && s.results[i].idx == k;
          assert if a.TakeResult? then (if i == 0 then k in t.drain.pending else t.results[i - 1].idx == k)
                 else t.results[i].idx == k;
        }
      }
    }
  }

  lemma DrainKeepsFaults(c: Config, s: State, a: DrainAction)
    requires c.Valid() && Inv(c, s) && DrainEnabled(s, a)
    ensures FaultInv(DrainApply(s, a))
    ensures ExitInv(DrainApply(s, a))
  {
    hide Split, Encode, Stored, Total, Encoded, JobOf, ResultOf;
  }

  lemma DrainKeepsInv(c: Config, s: State, a: DrainAction)
    requires c.Valid() && Inv(c, s) && DrainEnabled(s, a)
    ensures Inv(c, DrainApply(s, a))
  {
    hide Split, Encode, Stored, Total;
    DrainKeepsContent(c, s, a);
    DrainKeepsDrain(c, s, a);
    DrainKeepsCover(c, s, a);
    DrainKeepsFaults(c, s, a);
    hide ContentInv, DrainInv, CoverInv, FaultInv, ExitInv;
  }

  lemma ProducerKeepsInv(c: Config, s: State, a: ProducerAction)
    requires c.Valid() && Inv(c, s) && ProducerEnabled(c, s, a)
    ensures Inv(c, ProducerApply(c, s, a))
  {
    hide Split, Encode, Stored, Total;
    ProducerKeepsProducer(c, s, a);
    ProducerKeepsContent(c, s, a);
    ProducerKeepsDrain(c, s, a);
    ProducerKeepsCover(c, s, a);
    ProducerKeepsFaults(c, s, a);
    hide ContentInv, DrainInv, CoverInv, FaultInv, ExitInv;
  }

  /** Every step of every goroutine keeps the invariant. */
  lemma StepKeepsInv(c: Config, s: State, a: Action)
    requires c.Valid() && Inv(c, s) && Enabled(c, s, a)
    ensures Inv(c, Apply(c, s, a))
  {
    hide Split, Encode, Stored, Total;
    match a {
      case ProducerStep(p) => ProducerKeepsInv(c, s, p);
      case WorkerStep(w, x) => WorkerKeepsInv(c, s, w, x);
      case CloseResults => CloseKeepsInv(c, s);
      case DrainStep(d) => DrainKeepsInv(c, s, d);
    }
    hide Inv;
  }

  lemma CloseKeepsInv(c: Config, s: State)
    requires c.Valid() && Inv(c, s) && Enabled(c, s, CloseResults)
    ensures Inv(c, Apply(c, s, CloseResults))
  {
    hide Split, Encode, Stored, Total, Encoded, JobOf, ResultOf;
    var t := Apply(c, s, CloseResults);
    forall k | InFlight(s, k) ensures InFlight(t, k) {
      assert InJobs(s, k) ==> InJobs(t, k);
      assert InPool(s, k) ==> InPool(t, k);
      assert InResults(s, k) ==> InResults(t, k);
    }
  }

  /** Every state of every run satisfies the invariant. */
  lemma {:induction false} RunKeepsInv(c: Config, run: seq<State>, acts: seq<Action>, i: nat)
    requires c.Valid() && IsRun(c, run, acts) && i < |run|
    ensures Inv(c, run[i])
  {
    hide Inv, Enabled, Apply, Init;
    if i == 0 {
      InvInit(c);
    } else {
      RunKeepsInv(c, run, acts, i - 1);
      assert Enabled(c, run[i - 1], acts[i - 1]) && run[i - 1 + 1] == Apply(c, run[i - 1], acts[i - 1]);
      StepKeepsInv(c, run[i - 1], acts[i - 1]);
    }
  }
}
