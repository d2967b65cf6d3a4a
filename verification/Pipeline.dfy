/** The chunk pipeline of `encodeChunks` as a transition system: a producer, a
    pool of compression workers, a goroutine that closes `results`, and a drain,
    joined by bounded channels. A step is one `Action` of one goroutine; which
    enabled action comes next, which branch a `select` takes and which read,
    checksum, compression or write fails is left open. */
module Pipeline {
  import opened Bytes
  import opened Wrappers
  import opened Encoder

  datatype Config = Config(region: Region, workers: int)
  {
    predicate Valid() { region.Valid() }

    /** The pool size: a worker count below one means one worker. */
    function Pool(): (n: nat)
      ensures n >= 1
    {
      if workers < 1 then 1 else workers
    }

    function Chunks(): seq<seq<byte>> requires Valid() { region.Chunks() }
  }

  datatype Fault = ReadFault | CrcFault | WorkerFault(idx: nat) | WriteFault

  datatype Job = Job(idx: nat, sectorStart: nat, zero: bool, buf: seq<byte>)

  datatype ChunkResult = ChunkResult(idx: nat, kind: RunType, sectorStart: nat, secCount: nat,
                                     payload: seq<byte>)

  datatype DrainOut = DrainOut(runs: seq<BlockRun>, forkLen: nat, err: Option<Fault>)

  datatype Outcome = Finished(runs: seq<BlockRun>, forkLen: nat) | Failed(fault: Fault)

  datatype ProducerPc =
    | Reading
    | Dispatching(job: Job)
    | Closing
    | AwaitingDrain
    | Deciding(out: DrainOut)
    | Returned(outcome: Outcome)

  datatype WorkerPc =
    | Idle
    | Working(job: Job)
    | Sending(result: ChunkResult)
    | Exited(failed: bool)

  datatype DrainPc =
    | Receiving
    | Emitting
    | Writing(run: BlockRun, payload: seq<byte>, sent: nat)
    | Posted

  /** The caller's goroutine. */
  datatype Producer = Producer(pc: ProducerPc, idx: nat, nextSector: nat, remaining: nat,
                               err: Option<Fault>, crcFed: seq<byte>)

  /** The drain goroutine, and the bytes that have reached the destination. */
  datatype Drain = Drain(pc: DrainPc, runs: seq<BlockRun>, forkLen: nat, pending: map<nat, ChunkResult>,
                         nextIdx: nat, writeErr: Option<Fault>, dst: seq<byte>)

  datatype State = State(
    producer: Producer,
    pool: seq<WorkerPc>,
    drain: Drain,
    jobs: seq<Job>, jobsClosed: bool,
    results: seq<ChunkResult>, resultsClosed: bool,
    errCh: seq<Fault>, done: bool, drainCh: Option<DrainOut>)

  function Init(c: Config): State
  {
    State(Producer(Reading, 0, 0, |c.region.data|, None, []),
          seq(c.Pool(), _ => Idle),
          Drain(Receiving, [], c.region.base, map[], 0, None, []),
          [], false, [], false, [], false, None)
  }

  datatype ProducerAction =
    | ReadChunk | ReadFails | CrcFails | InputDone
    | SendJob | TakeWorkerFault | SeeDone
    | CloseJobs | TakeDrainOut | Decide

  datatype WorkerAction = TakeJob | Compress | CompressFails | SendResult | Retire

  datatype DrainAction =
    | TakeResult | EmitNext | NothingNext
    | WriteSome(n: nat) | WriteFails(n: nat) | WriteDone
    | PostDrain

  datatype Action =
    | ProducerStep(p: ProducerAction)
    | WorkerStep(w: nat, a: WorkerAction)
    | CloseResults
    | DrainStep(d: DrainAction)

  /** Channel capacities: jobs and results hold two per worker, errors one per
      worker and one more. */
  function Capacity(c: Config): nat { c.Pool() * 2 }
  function ErrCapacity(c: Config): nat { c.Pool() + 1 }

  /** The bytes of the next chunk, as the producer slices them off its input. */
  function NextChunk(c: Config, remaining: nat): seq<byte>
    requires c.Valid() && remaining <= |c.region.data|
  {
    var pos := |c.region.data| - remaining;
    var n := if c.region.chunkBytes > remaining then remaining else c.region.chunkBytes;
    c.region.data[pos..pos + n]
  }

  predicate ProducerEnabled(c: Config, s: State, a: ProducerAction)
    requires c.Valid()
  {
    var p := s.producer;
    match a
    case ReadChunk => p.pc.Reading? && 0 < p.remaining <= |c.region.data|
    case ReadFails => p.pc.Reading? && 0 < p.remaining
    case CrcFails => p.pc.Reading? && 0 < p.remaining <= |c.region.data| && !AllZero(NextChunk(c, p.remaining))
    case InputDone => p.pc.Reading? && p.remaining == 0
    case SendJob => p.pc.Dispatching? && |s.jobs| < Capacity(c) && |p.pc.job.buf| <= p.remaining
    case TakeWorkerFault => p.pc.Dispatching? && s.errCh != []
    case SeeDone => p.pc.Dispatching? && s.done
    case CloseJobs => p.pc.Closing?
    case TakeDrainOut => p.pc.AwaitingDrain? && s.drainCh.Some?
    case Decide => p.pc.Deciding?
  }

  function ProducerApply(c: Config, s: State, a: ProducerAction): State
    requires c.Valid() && ProducerEnabled(c, s, a)
  {
    var p := s.producer;
    match a
    case ReadChunk =>
      var buf := NextChunk(c, p.remaining);
      var zero := AllZero(buf);
      s.(producer := p.(pc := Dispatching(Job(p.idx, p.nextSector, zero, buf)),
                        crcFed := if zero then p.crcFed else p.crcFed + buf))
    case ReadFails => s.(producer := p.(pc := Closing, err := Some(ReadFault)))
    case CrcFails => s.(producer := p.(pc := Closing, err := Some(CrcFault)))
    case InputDone => s.(producer := p.(pc := Closing))
    case SendJob =>
      var job := p.pc.job;
      s.(jobs := s.jobs + [job],
         producer := p.(pc := Reading, idx := p.idx + 1,
                        nextSector := p.nextSector + |job.buf| / SECTOR_SIZE,
                        remaining := p.remaining - |job.buf|))
    case TakeWorkerFault => s.(producer := p.(pc := Closing, err := Some(s.errCh[0])), errCh := s.errCh[1..])
    case SeeDone => s.(producer := p.(pc := Closing))
    case CloseJobs => s.(producer := p.(pc := AwaitingDrain), jobsClosed := true)
    case TakeDrainOut => s.(producer := p.(pc := Deciding(s.drainCh.value)), drainCh := None)
    case Decide =>
      if p.err.Some? then s.(producer := p.(pc := Returned(Failed(p.err.value))), errCh := [])
      else if s.errCh != [] then s.(producer := p.(pc := Returned(Failed(s.errCh[0]))), errCh := [])
      else if p.pc.out.err.Some? then s.(producer := p.(pc := Returned(Failed(p.pc.out.err.value))))
      else s.(producer := p.(pc := Returned(Finished(p.pc.out.runs, p.pc.out.forkLen))))
  }

  /** What a worker makes of a job. */
  function Encoded(c: Config, job: Job): ChunkResult
  {
    var secCount := |job.buf| / SECTOR_SIZE;
    if job.zero then ChunkResult(job.idx, BlockZero, job.sectorStart, secCount, [])
    else if c.region.zlib then
      var z := c.region.deflate(job.buf);
      if |z| >= |job.buf| then ChunkResult(job.idx, BlockRaw, job.sectorStart, secCount, job.buf)
      else ChunkResult(job.idx, BlockZlib, job.sectorStart, secCount, z)
    else ChunkResult(job.idx, BlockRaw, job.sectorStart, secCount, job.buf)
  }

  predicate WorkerEnabled(c: Config, s: State, w: nat, a: WorkerAction)
  {
    && w < |s.pool|
    && match a
       case TakeJob => s.pool[w].Idle? && s.jobs != []
       case Compress => s.pool[w].Working?
       case CompressFails => s.pool[w].Working? && !s.pool[w].job.zero && c.region.zlib
       case SendResult => s.pool[w].Sending? && |s.results| < Capacity(c)
       case Retire => s.pool[w].Idle? && s.jobs == [] && s.jobsClosed
  }

  function WorkerApply(c: Config, s: State, w: nat, a: WorkerAction): State
    requires WorkerEnabled(c, s, w, a)
  {
    match a
    case TakeJob => s.(pool := s.pool[w := Working(s.jobs[0])], jobs := s.jobs[1..])
    case Compress => s.(pool := s.pool[w := Sending(Encoded(c, s.pool[w].job))])
    case CompressFails =>
      // trySendErr: a full channel drops the error
      s.(pool := s.pool[w := Exited(true)],
         errCh := if |s.errCh| < ErrCapacity(c) then s.errCh + [WorkerFault(s.pool[w].job.idx)] else s.errCh)
    case SendResult => s.(pool := s.pool[w := Idle], results := s.results + [s.pool[w].result])
    case Retire => s.(pool := s.pool[w := Exited(false)])
  }

  predicate AllExited(pool: seq<WorkerPc>) {
    forall w :: 0 <= w < |pool| ==> pool[w].Exited?
  }

  predicate DrainEnabled(s: State, a: DrainAction)
  {
    var d := s.drain;
    match a
    case TakeResult => d.pc.Receiving? && s.results != []
    case EmitNext => d.pc.Emitting? && d.nextIdx in d.pending
    case NothingNext => d.pc.Emitting? && d.nextIdx !in d.pending
    case WriteSome(n) => d.pc.Writing? && 0 < n && d.pc.sent + n <= |d.pc.payload|
    case WriteFails(n) => d.pc.Writing? && d.pc.sent < |d.pc.payload| && d.pc.sent + n <= |d.pc.payload|
    case WriteDone => d.pc.Writing? && d.pc.sent == |d.pc.payload|
    case PostDrain => d.pc.Receiving? && s.results == [] && s.resultsClosed
  }

  /** What the drain hands back once `results` is closed. */
  function OutOf(d: Drain): DrainOut {
    if d.writeErr.Some? then DrainOut([], 0, d.writeErr) else DrainOut(d.runs, d.forkLen, None)
  }

  function DrainApply(s: State, a: DrainAction): State
    requires DrainEnabled(s, a)
  {
    var d := s.drain;
    match a
    case TakeResult =>
      var r := s.results[0];
      if d.writeErr.Some? then s.(results := s.results[1..])
      else s.(results := s.results[1..], drain := d.(pc := Emitting, pending := d.pending[r.idx := r]))
    case EmitNext =>
      var cur := d.pending[d.nextIdx];
      var run := BlockRun(cur.kind, cur.sectorStart, cur.secCount, d.forkLen, |cur.payload|);
      var rest := d.pending - {d.nextIdx};
      if cur.payload == [] then s.(drain := d.(pending := rest, nextIdx := d.nextIdx + 1, runs := d.runs + [run]))
      else s.(drain := d.(pending := rest, nextIdx := d.nextIdx + 1, pc := Writing(run, cur.payload, 0)))
    case NothingNext => s.(drain := d.(pc := Receiving))
    case WriteSome(n) =>
      s.(drain := d.(pc := d.pc.(sent := d.pc.sent + n), dst := d.dst + d.pc.payload[d.pc.sent..d.pc.sent + n]))
    case WriteFails(n) =>
      s.(done := true,
         drain := d.(pc := Receiving, writeErr := Some(WriteFault),
                     dst := d.dst + d.pc.payload[d.pc.sent..d.pc.sent + n]))
    case WriteDone =>
      s.(drain := d.(pc := Emitting, runs := d.runs + [d.pc.run], forkLen := d.forkLen + |d.pc.payload|))
    case PostDrain => s.(drain := d.(pc := Posted), drainCh := Some(OutOf(d)))
  }

  predicate Enabled(c: Config, s: State, a: Action)
    requires c.Valid()
  {
    match a
    case ProducerStep(p) => ProducerEnabled(c, s, p)
    case WorkerStep(w, x) => WorkerEnabled(c, s, w, x)
    case CloseResults => !s.resultsClosed && AllExited(s.pool)
    case DrainStep(d) => DrainEnabled(s, d)
  }

  function Apply(c: Config, s: State, a: Action): State
    requires c.Valid() && Enabled(c, s, a)
  {
    match a
    case ProducerStep(p) => ProducerApply(c, s, p)
    case WorkerStep(w, x) => WorkerApply(c, s, w, x)
    case CloseResults => s.(resultsClosed := true)
    case DrainStep(d) => DrainApply(s, d)
  }

  /** The four ways the environment can fail a step. */
  predicate IsFailure(a: Action) {
    a in {ProducerStep(ReadFails), ProducerStep(CrcFails)}
    || (a.WorkerStep? && a.a.CompressFails?)
    || (a.DrainStep? && a.d.WriteFails?)
  }

  /** The fault a failing step gives rise to; a worker's names the chunk in its hands. */
  function FaultOf(c: Config, s: State, a: Action): Option<Fault>
    requires c.Valid() && Enabled(c, s, a)
  {
    match a
    case ProducerStep(ReadFails) => Some(ReadFault)
    case ProducerStep(CrcFails) => Some(CrcFault)
    case WorkerStep(w, CompressFails) => Some(WorkerFault(s.pool[w].job.idx))
    case DrainStep(WriteFails(_)) => Some(WriteFault)
    case _ => None
  }

  /** A run: states from the initial one, each the result of an enabled action
      in the one before. */
  ghost predicate IsRun(c: Config, run: seq<State>, acts: seq<Action>)
    requires c.Valid()
  {
    && |run| == |acts| + 1
    && run[0] == Init(c)
    && forall i :: 0 <= i < |acts| ==> Enabled(c, run[i], acts[i]) && run[i + 1] == Apply(c, run[i], acts[i])
  }

  function Last(run: seq<State>): State
    requires run != []
  {
    run[|run| - 1]
  }

  /** No goroutine can take a step. */
  ghost predicate Stuck(c: Config, s: State)
    requires c.Valid()
  {
    forall a :: !Enabled(c, s, a)
  }
}
