/** Inductive invariants of the worker: pipeline, rebuild counters, and share provenance. */
module GpuWorkerPipeline {
  import opened Wrappers
  import opened GpuWorker

  // ----- what a stream will have done once it drains -----

  function EndTarget(ops: seq<Op>, dev: nat): nat {
    if ops == [] then dev
    else EndTarget(ops[1..], if ops[0].Upload? then ops[0].nbits else dev)
  }

  function EndHeaders(ops: seq<Op>, dev: nat, headers: Option<Launch>): Option<Launch> {
    if ops == [] then headers
    else match ops[0]
      case Upload(n) => EndHeaders(ops[1..], n, headers)
      case Run(sigma, seed, count) => EndHeaders(ops[1..], dev, Some(Launch(sigma, seed, count, dev)))
  }

  lemma {:induction false} EndAppend(ops: seq<Op>, op: Op, dev: nat, headers: Option<Launch>)
    ensures EndTarget(ops + [op], dev) == (if op.Upload? then op.nbits else EndTarget(ops, dev))
    ensures EndHeaders(ops + [op], dev, headers)
         == (if op.Run? then Some(Launch(op.sigma, op.seed, op.count, EndTarget(ops, dev)))
             else EndHeaders(ops, dev, headers))
    decreases |ops|
  {
    if ops == [] {
      assert ops + [op] == [op];
    } else {
      assert (ops + [op])[1..] == ops[1..] + [op];
      match ops[0]
      case Upload(n) => EndAppend(ops[1..], op, n, headers);
      case Run(sigma, seed, count) => EndAppend(ops[1..], op, dev, Some(Launch(sigma, seed, count, dev)));
    }
  }

  lemma {:induction false} EndNoRun(ops: seq<Op>, dev: nat, headers: Option<Launch>)
    requires NoRun(ops)
    ensures EndHeaders(ops, dev, headers) == headers
    decreases |ops|
  {
    if ops != [] { EndNoRun(ops[1..], ops[0].nbits, headers); }
  }

  ghost predicate HalfOk(half: Half) {
    EndTarget(half.stream, half.devTarget) == half.powNbits
  }

  /** The batch queued on this half runs, or ran, under sigma with the recorded seed and target. */
  ghost predicate Fresh(half: Half, sigma: Sigma, batch: nat) {
    EndHeaders(half.stream, half.devTarget, half.headers) == Some(Launch(sigma, half.batchSeed, batch, half.batchMined))
  }

  // ----- positions in the ring -----

  /** Between draining the streams and the end of the rebind. */
  predicate Rebinding(pc: Pc) {
    pc.Adopt? || pc.InstallHere? || pc.BindLoad? || pc.BindCommit? || pc.BindSync? || pc.Settle?
  }

  predicate Scanning(pc: Pc) {
    pc.Await? || pc.Emit?
  }

  /** Halves whose batch was launched since the last job switch and not yet scanned. */
  predicate InFlight(c: Config, m: Miner, h: nat) {
    && !m.first && !Rebinding(m.pc)
    && ((m.warm == 0 && (h != m.launchI || Scanning(m.pc)))
        || (c.halves == 3 && m.warm == 1 && h == (m.launchI + 2) % 3))
  }

  ghost predicate MinerOk(c: Config, s: State) {
    && ConfigOk(c) && |s.halves| == c.halves && s.m.launchI < c.halves
    && s.m.warm <= (if c.halves == 3 then 2 else 1)
    && (s.m.current == 0 ==> s.m.first || Rebinding(s.m.pc))
    && (match s.m.pc
        case InstallHere(h) => h < c.halves
        case BindLoad(h, _) => h < c.halves
        case BindCommit(h, _, _) => h < c.halves
        case BindSync(h, _) => h < c.halves
        case WaitFree(steady) => !s.m.first && s.m.current != 0 && steady == (s.m.warm == 0)
        case Fire(steady) => !s.m.first && s.m.current != 0 && steady == (s.m.warm == 0)
        case Await => !s.m.first && s.m.warm == 0
        case Emit(_) => !s.m.first && s.m.warm == 0
        case CheckReady(r) => r != 0
        case Drain(next, _, _) => next != 0
        case Quiesce(next, _, _) => next != 0
        case Adopt(next, _) => next != 0
        case _ => true)
    && (Rebinding(s.m.pc) && !s.m.pc.Adopt? ==> s.m.current != 0)
  }

  /** How many halves already point at the current job while a rebind is under way. */
  function BoundUpTo(c: Config, pc: Pc): nat {
    match pc
    case Adopt(_, _) => 0
    case InstallHere(h) => h
    case BindLoad(h, _) => h
    case BindCommit(h, _, _) => h
    case BindSync(h, _) => h
    case _ => c.halves
  }

  ghost predicate HalfInv(c: Config, s: State, h: nat)
    requires h < |s.halves|
  {
    var half := s.halves[h];
    && HalfOk(half)
    && (InFlight(c, s.m, h) ==> Fresh(half, s.m.current, s.m.batch))
    && (!InFlight(c, s.m, h) ==> NoRun(half.stream))
    && (half.pending > 0 ==> NoRun(half.stream) && !Rebinding(s.m.pc))
    && (InFlight(c, s.m, h) && half.pending > 0 ==> s.m.pc.Emit? && h == s.m.launchI)
    && (s.m.pc.Emit? && h == s.m.launchI ==> NoRun(half.stream))
    && (s.m.pc.Fire? && h == s.m.launchI ==> half.pending == 0)
    && (s.m.current != 0 && !s.m.pc.Adopt? && h < BoundUpTo(c, s.m.pc) ==> half.bound == s.m.current)
    && (s.m.pc.Drain? && h < s.m.pc.h ==> half.pending == 0)
    && (s.m.pc.Quiesce? ==> half.pending == 0)
    && (s.m.pc.Quiesce? && h < s.m.pc.h ==> NoRun(half.stream))
    && (s.m.current == 0 ==> half.pending == 0)
  }

  ghost predicate PipelineInv(c: Config, s: State) {
    MinerOk(c, s) && forall h :: 0 <= h < c.halves ==> HalfInv(c, s, h)
  }

  // ----- every step keeps the pipeline invariant -----

  lemma PipelineInit(c: Config)
    requires ConfigOk(c)
    ensures PipelineInv(c, Init(c))
  {
  }

  lemma GpuStepKeepsEnd(half: Half)
    ensures var g := GpuStep(half);
      && EndTarget(g.stream, g.devTarget) == EndTarget(half.stream, half.devTarget)
      && EndHeaders(g.stream, g.devTarget, g.headers) == EndHeaders(half.stream, half.devTarget, half.headers)
      && (NoRun(half.stream) ==> NoRun(g.stream))
  {
  }

  lemma GpuKeepsPipeline(c: Config, s: State, h: nat)
    requires PipelineInv(c, s) && h < c.halves
    ensures PipelineInv(c, SetHalf(s, h, GpuStep(s.halves[h])))
  {
    hide EndTarget, EndHeaders;
    GpuStepKeepsEnd(s.halves[h]);
    var t := SetHalf(s, h, GpuStep(s.halves[h]));
    forall k | 0 <= k < c.halves ensures HalfInv(c, t, k) {
      assert HalfInv(c, s, k);
    }
  }

  lemma RebuildKeepsPipeline(c: Config, s: State, ok: bool)
    requires PipelineInv(c, s)
    ensures PipelineInv(c, RebuildStep(s, ok))
  {
    hide EndTarget, EndHeaders;
    var t := RebuildStep(s, ok);
    forall k | 0 <= k < c.halves ensures HalfInv(c, t, k) {
      assert HalfInv(c, s, k);
    }
  }

  /** Program points that neither hold a half nor rely on one having been waited for. */
  predicate Neutral(pc: Pc) {
    !Rebinding(pc) && !Scanning(pc) && !pc.Fire? && !pc.Quiesce? && (pc.Drain? ==> pc.h == 0)
  }

  lemma NeutralMove(c: Config, s: State, t: State)
    requires PipelineInv(c, s) && MinerOk(c, t)
    requires t.halves == s.halves && t.m == s.m.(pc := t.m.pc, requested := t.m.requested)
    requires Neutral(s.m.pc) && (Neutral(t.m.pc) || (t.m.pc.Adopt? && s.m.current == 0))
    ensures PipelineInv(c, t)
  {
    hide Fresh, HalfOk, NoRun;
    forall k | 0 <= k < c.halves ensures HalfInv(c, t, k) {
      assert HalfInv(c, s, k);
    }
  }

  predicate Choosing(pc: Pc) {
    || pc.Top? || pc.Decide? || pc.Submit? || pc.TakeReady? || pc.CheckReady?
    || pc.PollTarget? || pc.LoadTarget? || pc.SyncTargets?
  }

  lemma ChoosingKeepsPipeline(c: Config, s: State, hit: bool, ok: bool, batch: nat)
    requires PipelineInv(c, s)
    requires Choosing(s.m.pc)
    ensures PipelineInv(c, MinerNext(c, s, hit, ok, batch))
  {
    hide HalfInv;
    NeutralMove(c, s, MinerNext(c, s, hit, ok, batch));
  }

  lemma DrainingKeepsPipeline(c: Config, s: State, hit: bool, ok: bool, batch: nat)
    requires PipelineInv(c, s)
    requires var pc := s.m.pc; pc.Drain? || pc.Quiesce?
    ensures PipelineInv(c, MinerNext(c, s, hit, ok, batch))
  {
    hide EndTarget, EndHeaders;
    var t := MinerNext(c, s, hit, ok, batch);
    forall k | 0 <= k < c.halves ensures HalfInv(c, t, k) {
      assert HalfInv(c, s, k);
    }
  }

  lemma AdoptingKeepsPipeline(c: Config, s: State, hit: bool, ok: bool, batch: nat)
    requires PipelineInv(c, s)
    requires var pc := s.m.pc; pc.Adopt? || pc.InstallHere? || pc.BindLoad?
    ensures PipelineInv(c, MinerNext(c, s, hit, ok, batch))
  {
    hide EndTarget, EndHeaders;
    var t := MinerNext(c, s, hit, ok, batch);
    forall k | 0 <= k < c.halves ensures HalfInv(c, t, k) {
      assert HalfInv(c, s, k);
    }
  }

  lemma BindingKeepsPipeline(c: Config, s: State, hit: bool, ok: bool, batch: nat)
    requires PipelineInv(c, s)
    requires var pc := s.m.pc; pc.BindSync? || pc.Settle?
    ensures PipelineInv(c, MinerNext(c, s, hit, ok, batch))
  {
    hide EndTarget, EndHeaders;
    var t := MinerNext(c, s, hit, ok, batch);
    forall k | 0 <= k < c.halves ensures HalfInv(c, t, k) {
      assert HalfInv(c, s, k);
    }
  }

  lemma MiningKeepsPipeline(c: Config, s: State, hit: bool, ok: bool, batch: nat)
    requires PipelineInv(c, s)
    requires var pc := s.m.pc; pc.Mine? || pc.WaitFree?
    ensures PipelineInv(c, MinerNext(c, s, hit, ok, batch))
  {
    hide Fresh, HalfOk, NoRun;
    var t := MinerNext(c, s, hit, ok, batch);
    forall k | 0 <= k < c.halves ensures HalfInv(c, t, k) {
      assert HalfInv(c, s, k);
    }
  }

  lemma ScanningKeepsPipeline(c: Config, s: State, hit: bool, ok: bool, batch: nat)
    requires PipelineInv(c, s)
    requires Scanning(s.m.pc)
    ensures PipelineInv(c, MinerNext(c, s, hit, ok, batch))
  {
    hide EndTarget, EndHeaders;
    var t := MinerNext(c, s, hit, ok, batch);
    forall k | 0 <= k < c.halves ensures HalfInv(c, t, k) {
      assert HalfInv(c, s, k);
    }
  }

  lemma MinerKeepsPipeline(c: Config, s: State, hit: bool, ok: bool, batch: nat)
    requires PipelineInv(c, s)
    ensures PipelineInv(c, MinerNext(c, s, hit, ok, batch))
  {
    hide PipelineInv;
    var pc := s.m.pc;
    assert MinerOk(c, s) && |s.halves| == c.halves by { hide HalfInv; PipelineHasHalves(c, s); }
    if Scanning(pc) { ScanningKeepsPipeline(c, s, hit, ok, batch); }
    else if pc.Fire? { FireKeepsPipeline(c, s, pc.steady); }
    else if pc.BindCommit? { BindCommitKeepsPipeline(c, s, pc.h, pc.nbits, pc.sync); }
    else if pc.UploadTargets? { UploadTargetsKeepsPipeline(c, s, pc.nbits); }
    else if pc.BindSync? || pc.Settle? { BindingKeepsPipeline(c, s, hit, ok, batch); }
    else if Rebinding(pc) { AdoptingKeepsPipeline(c, s, hit, ok, batch); }
    else if pc.Drain? || pc.Quiesce? { DrainingKeepsPipeline(c, s, hit, ok, batch); }
    else if pc.Mine? || pc.WaitFree? { MiningKeepsPipeline(c, s, hit, ok, batch); }
    else { ChoosingKeepsPipeline(c, s, hit, ok, batch); }
  }

  lemma PipelineHasHalves(c: Config, s: State)
    requires PipelineInv(c, s)
    ensures MinerOk(c, s)
  {
  }

  lemma UploadKeepsHalf(half: Half, nbits: nat)
    requires HalfOk(half)
    ensures var g := UploadTo(half, nbits);
      && HalfOk(g) && (NoRun(half.stream) ==> NoRun(g.stream))
      && EndHeaders(g.stream, g.devTarget, g.headers) == EndHeaders(half.stream, half.devTarget, half.headers)
  {
    hide EndTarget, EndHeaders;
    EndAppend(half.stream, Upload(nbits), half.devTarget, half.headers);
  }

  lemma BindCommitKeepsPipeline(c: Config, s: State, h: nat, nbits: nat, sync: bool)
    requires PipelineInv(c, s) && s.m.pc == BindCommit(h, nbits, sync)
    ensures PipelineInv(c, BindCommitStep(s, h, nbits, sync))
  {
    hide EndTarget, EndHeaders;
    var t := BindCommitStep(s, h, nbits, sync);
    forall k | 0 <= k < c.halves ensures HalfInv(c, t, k) {
      assert HalfInv(c, s, k);
      UploadKeepsHalf(s.halves[k], nbits);
    }
  }

  lemma UploadTargetsKeepsPipeline(c: Config, s: State, nbits: nat)
    requires PipelineInv(c, s) && s.m.pc == UploadTargets(nbits)
    ensures PipelineInv(c, Goto(s.(halves := UploadAll(s.halves, nbits)), SyncTargets(0)))
  {
    hide EndTarget, EndHeaders;
    var t := Goto(s.(halves := UploadAll(s.halves, nbits)), SyncTargets(0));
    forall k | 0 <= k < c.halves ensures HalfInv(c, t, k) {
      assert HalfInv(c, s, k);
      UploadKeepsHalf(s.halves[k], nbits);
    }
  }

  lemma FireKeepsPipeline(c: Config, s: State, steady: bool)
    requires PipelineInv(c, s) && s.m.pc == Fire(steady)
    ensures PipelineInv(c, FireStep(c, s, steady))
  {
    hide EndTarget, EndHeaders;
    var t := FireStep(c, s, steady);
    var h := s.m.launchI;
    var half := s.halves[h];
    assert HalfInv(c, s, h);
    EndAppend(half.stream, Run(half.bound, t.halves[h].batchSeed, s.m.batch), half.devTarget, None);
    forall k | 0 <= k < c.halves ensures HalfInv(c, t, k) {
      assert HalfInv(c, s, k);
    }
  }

  lemma StepKeepsPipeline(c: Config, s: State, a: Action)
    requires PipelineInv(c, s)
    ensures PipelineInv(c, Step(c, s, a))
  {
    hide EndTarget, EndHeaders;
    var t := Step(c, s, a);
    match a
    case Gpu(h) => if h < c.halves { GpuKeepsPipeline(c, s, h); }
    case Rebuild(ok) => RebuildKeepsPipeline(c, s, ok);
    case MinerStep(hit, ok, batch) => MinerKeepsPipeline(c, s, hit, ok, batch);
    case _ =>
      forall k | 0 <= k < c.halves ensures HalfInv(c, t, k) {
        assert HalfInv(c, s, k);
      }
  }
}

/** Rebuild counters and the provenance of every share trigger. */
module GpuWorkerShares {
  import opened Wrappers
  import opened GpuWorker
  import opened GpuWorkerPipeline

  function CountFor(jobs: seq<Job>, h: nat): nat {
    if jobs == [] then 0 else (if jobs[0].half == h then 1 else 0) + CountFor(jobs[1..], h)
  }

  lemma {:induction false} CountForAppend(jobs: seq<Job>, job: Job, h: nat)
    ensures CountFor(jobs + [job], h) == CountFor(jobs, h) + (if job.half == h then 1 else 0)
  {
    if jobs == [] {
      assert jobs + [job] == [job];
    } else {
      assert (jobs + [job])[1..] == jobs[1..] + [job];
      CountForAppend(jobs[1..], job, h);
    }
  }

  function InHand(sh: Shares, h: nat): nat {
    if sh.hand.Some? && sh.hand.value.half == h then 1 else 0
  }

  /** share_jobs_pending counts exactly the queued and in-progress jobs of the half. */
  ghost predicate CountersInv(c: Config, s: State) {
    && |s.halves| == c.halves
    && (forall h :: 0 <= h < c.halves ==> s.halves[h].pending == CountFor(s.sh.queue, h) + InHand(s.sh, h))
    && (forall i :: 0 <= i < |s.sh.queue| ==> s.sh.queue[i].half < c.halves)
    && (s.sh.hand.Some? ==> s.sh.hand.value.half < c.halves)
  }

  lemma UploadKeepsPending(halves: seq<Half>, nbits: nat)
    ensures forall h :: 0 <= h < |halves| ==> UploadAll(halves, nbits)[h].pending == halves[h].pending
  {
  }

  lemma EmitKeepsCounters(c: Config, s: State, k: nat, hit: bool, ok: bool)
    requires CountersInv(c, s) && s.m.launchI < c.halves
    ensures CountersInv(c, EmitStep(c, s, k, hit, ok))
  {
    var t := EmitStep(c, s, k, hit, ok);
    if t.sh.queue != s.sh.queue {
      var job := TriggerOf(s, s.m.launchI, k);
      forall h | 0 <= h < c.halves
        ensures t.halves[h].pending == CountFor(t.sh.queue, h) + InHand(t.sh, h)
      {
        CountForAppend(s.sh.queue, job, h);
      }
    }
  }

  /** Only triggers and the rebuilder touch the share queue and its counters. */
  lemma MinerLeavesShares(c: Config, s: State, hit: bool, ok: bool, batch: nat)
    requires !s.m.pc.Emit?
    ensures var t := MinerNext(c, s, hit, ok, batch);
      && t.sh == s.sh && |t.halves| == |s.halves|
      && forall h :: 0 <= h < |s.halves| ==> t.halves[h].pending == s.halves[h].pending
  {
    if s.m.pc.UploadTargets? { UploadKeepsPending(s.halves, s.m.pc.nbits); }
  }

  lemma StepKeepsCounters(c: Config, s: State, a: Action)
    requires CountersInv(c, s) && s.m.launchI < c.halves
    ensures CountersInv(c, Step(c, s, a))
  {
    match a
    case Rebuild(ok) => RebuildKeepsCounters(c, s, ok);
    case MinerStep(hit, ok, batch) =>
      hide CountFor, MinerNext;
      if s.m.pc.Emit? {
        EmitKeepsCounters(c, s, s.m.pc.k, hit, ok);
        assert MinerNext(c, s, hit, ok, batch) == EmitStep(c, s, s.m.pc.k, hit, ok) by {
          MinerAtEmit(c, s, hit, ok, batch);
        }
      } else {
        MinerLeavesShares(c, s, hit, ok, batch);
      }
    case _ =>
  }

  lemma MinerAtEmit(c: Config, s: State, hit: bool, ok: bool, batch: nat)
    requires s.m.pc.Emit?
    ensures MinerNext(c, s, hit, ok, batch) == EmitStep(c, s, s.m.pc.k, hit, ok)
  {
  }

  lemma RebuildKeepsCounters(c: Config, s: State, ok: bool)
    requires CountersInv(c, s)
    ensures CountersInv(c, RebuildStep(s, ok))
  {
    if s.sh.hand.None? && s.sh.queue != [] {
      assert s.sh.queue == [s.sh.queue[0]] + s.sh.queue[1..];
    }
  }

  // ----- provenance -----

  /** The trigger agrees with the launch whose header it carries. */
  ghost predicate JobOk(log: seq<Launch>, adopted: set<Sigma>, job: Job) {
    && job.header in log && job.sigma in adopted && job.header.sigma == job.sigma
    && (exists k: nat :: k < job.header.count && job.nonce == NonceAt(job.header.seed, k))
    && (job.header.target != 0 ==> job.target == job.header.target)
  }

  ghost predicate JobsOk(log: seq<Launch>, adopted: set<Sigma>, jobs: seq<Job>) {
    forall i :: 0 <= i < |jobs| ==> JobOk(log, adopted, jobs[i])
  }

  ghost predicate ProvenanceInv(c: Config, s: State) {
    && |s.halves| == c.halves
    && JobsOk(s.m.log, s.inst.adopted, s.sh.queue) && JobsOk(s.m.log, s.inst.adopted, s.sh.sent)
    && (s.sh.hand.Some? ==> JobOk(s.m.log, s.inst.adopted, s.sh.hand.value))
    && (s.m.current != 0 ==> s.m.current in s.inst.adopted)
    && (forall h :: 0 <= h < c.halves && InFlight(c, s.m, h)
          ==> Launch(s.m.current, s.halves[h].batchSeed, s.m.batch, s.halves[h].batchMined) in s.m.log)
  }

  lemma JobsOkGrow(log: seq<Launch>, log': seq<Launch>, adopted: set<Sigma>, adopted': set<Sigma>, jobs: seq<Job>)
    requires JobsOk(log, adopted, jobs) && log <= log' && adopted <= adopted'
    ensures JobsOk(log', adopted', jobs)
  {
    forall i | 0 <= i < |jobs| ensures JobOk(log', adopted', jobs[i]) {
      assert JobOk(log, adopted, jobs[i]);
    }
  }

  lemma TriggerOk(c: Config, s: State, k: nat)
    requires PipelineInv(c, s) && ProvenanceInv(c, s) && s.m.pc == Emit(k) && k < s.m.batch
    ensures s.halves[s.m.launchI].headers.Some?
    ensures JobOk(s.m.log, s.inst.adopted, TriggerOf(s, s.m.launchI, k))
  {
    hide NonceAt;
    var h := s.m.launchI;
    var half := s.halves[h];
    assert HalfInv(c, s, h) && InFlight(c, s.m, h);
    EndNoRun(half.stream, half.devTarget, half.headers);
    assert half.headers == Some(Launch(s.m.current, half.batchSeed, s.m.batch, half.batchMined));
    assert TriggerOf(s, h, k).nonce == NonceAt(half.batchSeed, k);
  }

  lemma EmitKeepsProvenance(c: Config, s: State, k: nat, hit: bool, ok: bool)
    requires PipelineInv(c, s) && ProvenanceInv(c, s) && s.m.pc == Emit(k)
    ensures ProvenanceInv(c, EmitStep(c, s, k, hit, ok))
  {
    hide JobOk, HalfInv;
    if hit && k < s.m.batch { TriggerOk(c, s, k); }
  }

  lemma FireKeepsProvenance(c: Config, s: State, steady: bool)
    requires PipelineInv(c, s) && ProvenanceInv(c, s) && s.m.pc == Fire(steady)
    ensures ProvenanceInv(c, FireStep(c, s, steady))
  {
    hide JobOk, HalfOk, Fresh, NoRun;
    var t := FireStep(c, s, steady);
    var h := s.m.launchI;
    assert HalfInv(c, s, h);
    JobsOkGrow(s.m.log, t.m.log, s.inst.adopted, s.inst.adopted, s.sh.queue);
    JobsOkGrow(s.m.log, t.m.log, s.inst.adopted, s.inst.adopted, s.sh.sent);
    if s.sh.hand.Some? {
      JobsOkGrow(s.m.log, t.m.log, s.inst.adopted, s.inst.adopted, [s.sh.hand.value]);
      assert JobOk(t.m.log, t.inst.adopted, [s.sh.hand.value][0]);
    }
    assert t.m.log[|s.m.log|] in t.m.log;
    forall k | 0 <= k < c.halves && InFlight(c, t.m, k)
      ensures Launch(t.m.current, t.halves[k].batchSeed, t.m.batch, t.halves[k].batchMined) in t.m.log
    {
      assert k == h || InFlight(c, s.m, k);
    }
  }

  lemma AdoptKeepsProvenance(c: Config, s: State, next: Sigma, sync: bool, batch: nat)
    requires ProvenanceInv(c, s)
    ensures ProvenanceInv(c, AdoptStep(s, next, sync, batch))
  {
    hide JobOk;
    var t := AdoptStep(s, next, sync, batch);
    JobsOkGrow(s.m.log, s.m.log, s.inst.adopted, t.inst.adopted, s.sh.queue);
    JobsOkGrow(s.m.log, s.m.log, s.inst.adopted, t.inst.adopted, s.sh.sent);
    if s.sh.hand.Some? {
      JobsOkGrow(s.m.log, s.m.log, s.inst.adopted, t.inst.adopted, [s.sh.hand.value]);
      assert JobOk(t.m.log, t.inst.adopted, [s.sh.hand.value][0]);
    }
  }

  /** Every other step of the mining loop leaves launches alone, ... */
  lemma MinerLeavesLaunches(c: Config, s: State, hit: bool, ok: bool, batch: nat)
    requires !s.m.pc.Emit? && !s.m.pc.Fire? && !s.m.pc.Adopt?
    ensures var t := MinerNext(c, s, hit, ok, batch);
      && t.m.log == s.m.log && t.m.iter == s.m.iter && t.inst.adopted == s.inst.adopted && t.sh == s.sh
      && (t.m.current == s.m.current || t.m.current == 0) && t.m.batch == s.m.batch
  {
  }

  /** ... what the halves were launched with, ... */
  lemma MinerLeavesBatches(c: Config, s: State, hit: bool, ok: bool, batch: nat)
    requires !s.m.pc.Emit? && !s.m.pc.Fire? && !s.m.pc.Adopt?
    ensures var t := MinerNext(c, s, hit, ok, batch);
      && |t.halves| == |s.halves|
      && forall h :: 0 <= h < |s.halves|
           ==> t.halves[h].batchSeed == s.halves[h].batchSeed && t.halves[h].batchMined == s.halves[h].batchMined
  {
  }

  /** ... and puts no half in flight. */
  lemma MinerStartsNothing(c: Config, s: State, hit: bool, ok: bool, batch: nat, h: nat)
    requires MinerOk(c, s) && !s.m.pc.Emit? && !s.m.pc.Fire? && !s.m.pc.Adopt? && h < c.halves
    ensures var t := MinerNext(c, s, hit, ok, batch);
      InFlight(c, t.m, h) ==> InFlight(c, s.m, h) && t.m.current == s.m.current
  {
  }

  lemma MinerKeepsProvenance(c: Config, s: State, hit: bool, ok: bool, batch: nat)
    requires PipelineInv(c, s) && ProvenanceInv(c, s)
    ensures ProvenanceInv(c, MinerNext(c, s, hit, ok, batch))
  {
    var pc := s.m.pc;
    if pc.Emit? { EmitKeepsProvenance(c, s, pc.k, hit, ok); }
    else if pc.Fire? { FireKeepsProvenance(c, s, pc.steady); }
    else if pc.Adopt? { AdoptKeepsProvenance(c, s, pc.next, pc.sync, batch); }
    else {
      MinerLeavesLaunches(c, s, hit, ok, batch);
      MinerLeavesBatches(c, s, hit, ok, batch);
      hide MinerNext, JobOk, InFlight, HalfInv;
      forall h: nat | h < c.halves { MinerStartsNothing(c, s, hit, ok, batch, h); }
    }
  }

  lemma StepKeepsProvenance(c: Config, s: State, a: Action)
    requires PipelineInv(c, s) && ProvenanceInv(c, s) && CountersInv(c, s)
    ensures ProvenanceInv(c, Step(c, s, a))
  {
    hide JobOk, HalfInv, CountFor;
    match a
    case MinerStep(hit, ok, batch) => MinerKeepsProvenance(c, s, hit, ok, batch);
    case _ =>
  }
}
