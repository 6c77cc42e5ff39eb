/** What holds after every interleaving of the worker's threads, the GPU and the environment. */
module GpuWorkerRuns {
  import opened Wrappers
  import opened GpuWorker
  import opened GpuWorkerPipeline
  import opened GpuWorkerShares
  import opened GpuWorkerInstall

  // ----- the launch log -----

  /** Number of seeds used by the first i launches. */
  function Offset(log: seq<Launch>, i: nat): nat
    requires i <= |log|
  {
    if i == 0 then 0 else Offset(log, i - 1) + log[i - 1].count
  }

  ghost predicate LogOk(base: nat, log: seq<Launch>, iter: nat) {
    && iter == Offset(log, |log|)
    && forall i :: 0 <= i < |log| ==> log[i].seed == NonceAt(base, Offset(log, i))
  }

  ghost predicate LogInv(c: Config, m: Miner) {
    LogOk(c.seedBase, m.log, m.iter)
  }

  lemma OffsetStep(log: seq<Launch>, i: nat)
    requires i < |log|
    ensures Offset(log, i + 1) == Offset(log, i) + log[i].count
  {
  }

  lemma {:induction false} OffsetPrefix(log: seq<Launch>, more: seq<Launch>, i: nat)
    requires i <= |log|
    ensures Offset(log + more, i) == Offset(log, i)
    decreases i
  {
    if i > 0 { OffsetPrefix(log, more, i - 1); }
  }

  lemma {:induction false} OffsetMonotone(log: seq<Launch>, i: nat, j: nat)
    requires i <= j <= |log|
    ensures Offset(log, i) <= Offset(log, j)
    decreases j
  {
    if i < j { OffsetMonotone(log, i, j - 1); }
  }

  lemma LogGrows(base: nat, log: seq<Launch>, iter: nat, next: Launch)
    requires LogOk(base, log, iter) && next.seed == NonceAt(base, iter)
    ensures LogOk(base, log + [next], iter + next.count)
  {
    hide NonceAt, Offset;
    OffsetStep(log + [next], |log|);
    forall i: nat | i <= |log| ensures Offset(log + [next], i) == Offset(log, i) {
      OffsetPrefix(log, [next], i);
    }
  }

  predicate Launches(c: Config, s: State, a: Action) {
    a.MinerStep? && s.m.pc.Fire? && s.m.launchI < |s.halves| && c.halves > 0
  }

  lemma StepKeepsLog(c: Config, s: State, a: Action)
    requires LogInv(c, s.m)
    ensures LogInv(c, Step(c, s, a).m)
  {
    hide NonceAt, LogOk;
    if Launches(c, s, a) {
      var t := FireStep(c, s, s.m.pc.steady);
      LogGrows(c.seedBase, s.m.log, s.m.iter, t.m.log[|s.m.log|]);
    } else {
      StepWithoutLaunch(c, s, a);
      hide Step;
    }
  }

  lemma StepWithoutLaunch(c: Config, s: State, a: Action)
    requires !Launches(c, s, a)
    ensures Step(c, s, a).m.log == s.m.log && Step(c, s, a).m.iter == s.m.iter
  {
    if a.MinerStep? { MinerWithoutLaunch(c, s, a.hit, a.ok, a.batch); hide MinerNext; }
  }

  lemma MinerWithoutLaunch(c: Config, s: State, hit: bool, ok: bool, batch: nat)
    requires !(s.m.pc.Fire? && s.m.launchI < |s.halves| && c.halves > 0)
    ensures var t := MinerNext(c, s, hit, ok, batch); t.m.log == s.m.log && t.m.iter == s.m.iter
  {
    if !s.m.pc.Emit? && !s.m.pc.Fire? && !s.m.pc.Adopt? {
      hide MinerNext;
      MinerLeavesLaunches(c, s, hit, ok, batch);
    }
  }

  // ----- queued batches -----

  ghost predicate RunsFor(ops: seq<Op>, sigma: Sigma) {
    forall i :: 0 <= i < |ops| && ops[i].Run? ==> ops[i].sigma == sigma
  }

  /** Every batch queued on a stream is for the current job. */
  ghost predicate StreamInv(s: State) {
    forall h :: 0 <= h < |s.halves| ==> RunsFor(s.halves[h].stream, s.m.current)
  }

  lemma UploadKeepsRuns(half: Half, nbits: nat, sigma: Sigma)
    requires RunsFor(half.stream, sigma)
    ensures RunsFor(UploadTo(half, nbits).stream, sigma)
  {
  }

  /** While a rebind is under way nothing is queued but uploads. */
  lemma RebindingRunsNothing(c: Config, s: State, sigma: Sigma)
    requires PipelineInv(c, s) && Rebinding(s.m.pc)
    ensures forall h :: 0 <= h < |s.halves| ==> RunsFor(s.halves[h].stream, sigma)
  {
    hide EndTarget, EndHeaders;
    forall h | 0 <= h < |s.halves| ensures RunsFor(s.halves[h].stream, sigma) {
      assert HalfInv(c, s, h);
    }
  }

  lemma RebindKeepsStreams(c: Config, s: State, hit: bool, ok: bool, batch: nat)
    requires PipelineInv(c, s) && Rebinding(s.m.pc)
    ensures StreamInv(MinerNext(c, s, hit, ok, batch))
  {
    hide RunsFor, HalfInv;
    var t := MinerNext(c, s, hit, ok, batch);
    RebindingRunsNothing(c, s, t.m.current);
    if s.m.pc.BindCommit? { UploadKeepsRuns(s.halves[s.m.pc.h], s.m.pc.nbits, t.m.current); }
  }

  lemma FireKeepsStreams(c: Config, s: State, steady: bool)
    requires PipelineInv(c, s) && StreamInv(s) && s.m.pc == Fire(steady)
    ensures StreamInv(FireStep(c, s, steady))
  {
    hide HalfOk, Fresh, NoRun, NonceAt;
    assert HalfInv(c, s, s.m.launchI);
  }

  lemma UploadKeepsStreams(s: State, nbits: nat)
    requires StreamInv(s)
    ensures StreamInv(Goto(s.(halves := UploadAll(s.halves, nbits)), SyncTargets(0)))
  {
    hide RunsFor;
    forall h | 0 <= h < |s.halves| { UploadKeepsRuns(s.halves[h], nbits, s.m.current); }
  }

  lemma OtherKeepsStreams(c: Config, s: State, hit: bool, ok: bool, batch: nat)
    requires StreamInv(s) && !Rebinding(s.m.pc) && !s.m.pc.Fire? && !s.m.pc.UploadTargets?
    ensures StreamInv(MinerNext(c, s, hit, ok, batch))
  {
    hide RunsFor;
    CurrentIsKept(c, s, hit, ok, batch);
    if !s.m.pc.Emit? {
      hide MinerNext;
      MinerSameHalves(c, s, hit, ok, batch);
    }
  }

  lemma CurrentIsKept(c: Config, s: State, hit: bool, ok: bool, batch: nat)
    requires !Rebinding(s.m.pc)
    ensures MinerNext(c, s, hit, ok, batch).m.current == s.m.current
  {
  }

  lemma StepKeepsStreams(c: Config, s: State, a: Action)
    requires PipelineInv(c, s) && StreamInv(s)
    ensures StreamInv(Step(c, s, a))
  {
    hide HalfInv;
    match a
    case MinerStep(hit, ok, batch) =>
      hide StreamInv;
      if Rebinding(s.m.pc) { RebindKeepsStreams(c, s, hit, ok, batch); }
      else if s.m.pc.Fire? { FireKeepsStreams(c, s, s.m.pc.steady); }
      else if s.m.pc.UploadTargets? { UploadKeepsStreams(s, s.m.pc.nbits); }
      else { OtherKeepsStreams(c, s, hit, ok, batch); }
    case _ =>
  }

  // ----- all invariants, over whole runs -----

  ghost predicate Inv(c: Config, s: State) {
    && PipelineInv(c, s) && CountersInv(c, s) && ProvenanceInv(c, s) && InstallInv(c, s)
    && LogInv(c, s.m) && StreamInv(s)
  }

  lemma InitInv(c: Config)
    requires ConfigOk(c)
    ensures Inv(c, Init(c))
  {
    PipelineInit(c);
    InstallInit(c);
  }

  lemma StepKeepsInv(c: Config, s: State, a: Action)
    requires Inv(c, s)
    ensures Inv(c, Step(c, s, a))
  {
    hide HalfInv, InstallInv, ProvenanceInv, CountersInv, LogInv, StreamInv;
    StepKeepsPipeline(c, s, a);
    StepKeepsCounters(c, s, a);
    StepKeepsProvenance(c, s, a);
    StepKeepsInstall(c, s, a);
    StepKeepsLog(c, s, a);
    StepKeepsStreams(c, s, a);
  }

  lemma {:induction false} EveryRunIsSafe(c: Config, run: seq<Action>)
    requires ConfigOk(c)
    ensures Inv(c, Exec(c, run))
    decreases |run|
  {
    hide Inv, Step, Init;
    if run == [] {
      InitInv(c);
    } else {
      EveryRunIsSafe(c, run[..|run| - 1]);
      StepKeepsInv(c, Exec(c, run[..|run| - 1]), run[|run| - 1]);
    }
  }

  // ----- main results -----

  /** The triggers a run has produced: queued, being rebuilt, or sent. */
  function Triggers(s: State): seq<Job> {
    s.sh.queue + s.sh.sent + (if s.sh.hand.Some? then [s.sh.hand.value] else [])
  }

  /**
   Every trigger of every run carries the sigma and the target its batch was launched under and
   a nonce of that batch, whatever jobs and targets were published in between.
   */
  lemma TriggersMatchTheirLaunch(c: Config, run: seq<Action>, job: Job)
    requires ConfigOk(c) && job in Triggers(Exec(c, run))
    ensures job.header in Exec(c, run).m.log && job.sigma == job.header.sigma
    ensures exists k: nat :: k < job.header.count && job.nonce == NonceAt(job.header.seed, k)
    ensures job.header.target != 0 ==> job.target == job.header.target
  {
    hide PipelineInv, CountersInv, InstallInv, LogInv, Exec;
    EveryRunIsSafe(c, run);
    var s := Exec(c, run);
    assert JobOk(s.m.log, s.inst.adopted, job);
  }

  /** Whenever winners are read, the headers belong to a batch launched for the current job. */
  lemma ScannedBatchIsCurrent(c: Config, run: seq<Action>)
    requires ConfigOk(c) && Exec(c, run).m.pc.Emit?
    ensures var s := Exec(c, run);
      && s.m.current != 0 && s.m.launchI < |s.halves|
      && var half := s.halves[s.m.launchI];
      half.headers == Some(Launch(s.m.current, half.batchSeed, s.m.batch, half.batchMined))
  {
    hide CountersInv, InstallInv, LogInv, Exec, ProvenanceInv;
    EveryRunIsSafe(c, run);
    var s := Exec(c, run);
    var half := s.halves[s.m.launchI];
    assert HalfInv(c, s, s.m.launchI) && InFlight(c, s.m, s.m.launchI);
    EndNoRun(half.stream, half.devTarget, half.headers);
  }

  /** The counter of each half is its queued plus in-progress jobs ... */
  lemma PendingCountsJobs(c: Config, run: seq<Action>, h: nat)
    requires ConfigOk(c) && h < c.halves
    ensures var s := Exec(c, run);
      |s.halves| == c.halves && s.halves[h].pending == CountFor(s.sh.queue, h) + InHand(s.sh, h)
  {
    hide PipelineInv, InstallInv, LogInv, Exec, ProvenanceInv;
    EveryRunIsSafe(c, run);
  }

  /** ... and a half is launched on or rebound only when it has none, and is otherwise idle. */
  lemma HeldHalfIsLeftAlone(c: Config, run: seq<Action>, a: Action, h: nat)
    requires ConfigOk(c) && h < c.halves
    ensures LeavesHeldAlone(Exec(c, run), Exec(c, run + [a]), h)
  {
    hide Inv, LeavesHeldAlone, Exec;
    EveryRunIsSafe(c, run);
    ExecStep(c, run, a);
    StepLeavesHeldAlone(c, Exec(c, run), a, h);
  }

  ghost predicate LeavesHeldAlone(s: State, t: State, h: nat) {
    && h < |s.halves| && h < |t.halves|
    && (Launched(s, t) && h == s.m.launchI ==> Idle(s.halves[h]))
    && (t.halves[h].bound != s.halves[h].bound ==> Idle(s.halves[h]))
  }

  predicate Launched(s: State, t: State) {
    t.m.log != s.m.log
  }

  predicate Idle(half: Half) {
    half.pending == 0 && NoRun(half.stream)
  }

  lemma StepLeavesHeldAlone(c: Config, s: State, a: Action, h: nat)
    requires Inv(c, s) && h < c.halves
    ensures LeavesHeldAlone(s, Step(c, s, a), h)
  {
    hide CountersInv, InstallInv, LogInv, ProvenanceInv, EndHeaders, EndTarget;
    StepKeepsPipeline(c, s, a);
    assert HalfInv(c, s, h);
    if a.MinerStep? && s.m.pc.Fire? {
    } else if a.MinerStep? && s.m.pc.BindSync? {
      StepWithoutLaunch(c, s, a);
    } else {
      StepWithoutLaunch(c, s, a);
      hide HalfInv, NoRun;
      StepWithoutBind(c, s, a, h);
    }
  }

  lemma StepWithoutBind(c: Config, s: State, a: Action, h: nat)
    requires !(a.MinerStep? && s.m.pc.BindSync?) && h < |s.halves|
    ensures var t := Step(c, s, a); h < |t.halves| && t.halves[h].bound == s.halves[h].bound
  {
    if a.MinerStep? {
      var pc := s.m.pc;
      if pc.Fire? || pc.Emit? { BatchUnnoticed(c, s, a.hit, a.ok, a.batch); }
      else if pc.BindCommit? || pc.UploadTargets? { UploadUnnoticed(c, s, a.hit, a.ok, a.batch); }
      else { MinerSameHalves(c, s, a.hit, a.ok, a.batch); }
      hide MinerNext;
    }
  }

  lemma MinerSameHalves(c: Config, s: State, hit: bool, ok: bool, batch: nat)
    requires var pc := s.m.pc; !pc.Fire? && !pc.Emit? && !pc.BindCommit? && !pc.UploadTargets? && !pc.BindSync?
    ensures MinerNext(c, s, hit, ok, batch).halves == s.halves
  {
  }

  lemma ExecStep(c: Config, run: seq<Action>, a: Action)
    ensures Exec(c, run + [a]) == Step(c, Exec(c, run), a)
  {
    hide Step;
    assert (run + [a])[..|run|] == run;
  }

  /**
   Freed resident buffers are bound to no half, not current, and named by no trigger and by no
   batch still queued on a stream.
   */
  lemma FreedIsUnreachable(c: Config, run: seq<Action>, x: Sigma)
    requires ConfigOk(c) && x in Exec(c, run).inst.freed
    ensures var s := Exec(c, run);
      && x != s.m.current && x != s.env.published
      && (forall h :: 0 <= h < |s.halves| ==> s.halves[h].bound != x)
      && (forall job :: job in Triggers(s) ==> job.sigma != x)
      && (forall h, op :: 0 <= h < |s.halves| && op in s.halves[h].stream && op.Run? ==> op.sigma != x)
  {
    hide PipelineInv, CountersInv, LogInv, Exec;
    EveryRunIsSafe(c, run);
    var s := Exec(c, run);
    forall job | job in Triggers(s) ensures job.sigma != x {
      assert JobOk(s.m.log, s.inst.adopted, job);
    }
    forall h, op | 0 <= h < |s.halves| && op in s.halves[h].stream && op.Run? ensures op.sigma != x {
      assert RunsFor(s.halves[h].stream, s.m.current);
    }
  }

  /** Every context bound to a half is resident. */
  lemma BoundIsInstalled(c: Config, run: seq<Action>, h: nat)
    requires ConfigOk(c) && h < c.halves
    ensures var s := Exec(c, run);
      |s.halves| == c.halves && (s.halves[h].bound != 0 ==> s.halves[h].bound in s.inst.installed - s.inst.freed)
  {
    hide CountersInv, LogInv, Exec, ProvenanceInv, HalfInv;
    EveryRunIsSafe(c, run);
  }

  /** A resident context was adopted, was freed, or waits in the ready slot or in the loop's hands. */
  ghost predicate LeakInv(s: State) {
    && 0 !in s.inst.installed
    && forall x :: x in s.inst.installed ==>
         x in s.inst.adopted || x in s.inst.freed || x == s.inst.ready || x == Taken(s.m.pc)
  }

  lemma InstallerLeaksNothing(s: State, ok: bool)
    requires LeakInv(s)
    ensures LeakInv(s.(inst := InstallStep(s.inst, ok)))
  {
  }

  lemma ChoosingLeaksNothing(c: Config, s: State, hit: bool, ok: bool, batch: nat)
    requires InstallInv(c, s) && LeakInv(s)
    requires var pc := s.m.pc; pc.TakeReady? || pc.CheckReady? || pc.Adopt? || pc.InstallHere?
    ensures LeakInv(MinerNext(c, s, hit, ok, batch))
  {
    hide SlotOrder, Residency, Accounted, Quiet;
  }

  lemma OtherLeaksNothing(c: Config, s: State, hit: bool, ok: bool, batch: nat)
    requires LeakInv(s)
    requires var pc := s.m.pc; !pc.TakeReady? && !pc.CheckReady? && !pc.Adopt? && !pc.InstallHere?
    ensures LeakInv(MinerNext(c, s, hit, ok, batch))
  {
    TakenIsKept(c, s, hit, ok, batch);
    hide MinerNext;
  }

  lemma TakenIsKept(c: Config, s: State, hit: bool, ok: bool, batch: nat)
    requires var pc := s.m.pc; !pc.TakeReady? && !pc.CheckReady? && !pc.Adopt? && !pc.InstallHere?
    ensures var t := MinerNext(c, s, hit, ok, batch);
      && (Taken(s.m.pc) != 0 ==> Taken(t.m.pc) == Taken(s.m.pc)) && t.inst.ready == s.inst.ready
      && t.inst.installed == s.inst.installed && t.inst.adopted == s.inst.adopted && t.inst.freed == s.inst.freed
  {
  }

  lemma {:induction false} RunLeaksNothing(c: Config, run: seq<Action>)
    requires ConfigOk(c)
    ensures LeakInv(Exec(c, run))
    decreases |run|
  {
    hide Inv, LeakInv;
    if run == [] {
      assert LeakInv(Init(c)) by { InitLeaksNothing(c); }
    } else {
      var p, a := run[..|run| - 1], run[|run| - 1];
      RunLeaksNothing(c, p);
      EveryRunIsSafe(c, p);
      hide Exec;
      StepLeaksNothing(c, Exec(c, p), a);
    }
  }

  lemma InitLeaksNothing(c: Config)
    ensures LeakInv(Init(c))
  {
  }

  lemma StepLeaksNothing(c: Config, s: State, a: Action)
    requires Inv(c, s) && LeakInv(s)
    ensures LeakInv(Step(c, s, a))
  {
    match a
    case Install(ok) => InstallerLeaksNothing(s, ok);
    case MinerStep(hit, ok, batch) =>
      hide LeakInv, PipelineInv, CountersInv, ProvenanceInv, LogInv, StreamInv;
      var pc := s.m.pc;
      if pc.TakeReady? || pc.CheckReady? || pc.Adopt? || pc.InstallHere? { ChoosingLeaksNothing(c, s, hit, ok, batch); }
      else { OtherLeaksNothing(c, s, hit, ok, batch); }
    case _ =>
  }

  /** No resident set is lost: whatever was installed and never made current is freed, or still at hand. */
  lemma NothingLeaks(c: Config, run: seq<Action>, x: Sigma)
    requires ConfigOk(c) && x in Exec(c, run).inst.installed
    ensures var s := Exec(c, run);
      x != 0 && (x in s.inst.adopted || x in s.inst.freed || x == s.inst.ready || x == Taken(s.m.pc))
  {
    hide Exec;
    RunLeaksNothing(c, run);
  }

  /**
   After a switch the ring of three halves starts over at half 0 with two batches to warm up; two
   halves go on where they were, with one. Launches go round the ring.
   */
  lemma RingOrder(c: Config, run: seq<Action>, a: Action)
    requires ConfigOk(c) && a.MinerStep?
    ensures var s, t := Exec(c, run), Exec(c, run + [a]);
      && (s.m.pc.Mine? && s.m.current != 0 && s.m.first ==>
            t.m.launchI == (if c.halves == 3 then 0 else s.m.launchI) && t.m.warm == c.halves - 1 && !t.m.first)
      && (t.m.log != s.m.log ==> t.m.launchI == (s.m.launchI + 1) % c.halves)
      && (!s.m.pc.Mine? && t.m.log == s.m.log ==> t.m.launchI == s.m.launchI)
  {
    hide Exec, HalfInv, CountersInv, ProvenanceInv, InstallInv, LogInv, StreamInv, NonceAt;
    EveryRunIsSafe(c, run);
    ExecStep(c, run, a);
    var s := Exec(c, run);
    if !s.m.pc.Fire? && !s.m.pc.Mine? {
      LaunchIsKept(c, s, a.hit, a.ok, a.batch);
      StepWithoutLaunch(c, s, a);
      hide Step;
    }
  }

  lemma LaunchIsKept(c: Config, s: State, hit: bool, ok: bool, batch: nat)
    requires !s.m.pc.Fire? && !s.m.pc.Mine?
    ensures MinerNext(c, s, hit, ok, batch).m.launchI == s.m.launchI
  {
  }

  /** A job is adopted with the batch size read at that moment, which no other step changes. */
  lemma BatchSizeIsRead(c: Config, run: seq<Action>, a: Action)
    ensures var s, t := Exec(c, run), Exec(c, run + [a]);
      t.m.batch == if a.MinerStep? && s.m.pc.Adopt? then a.batch else s.m.batch
  {
    hide Exec;
    ExecStep(c, run, a);
    var s := Exec(c, run);
    if a.MinerStep? && !s.m.pc.Emit? && !s.m.pc.Fire? && !s.m.pc.Adopt? {
      MinerLeavesLaunches(c, s, a.hit, a.ok, a.batch);
      hide MinerNext;
    }
  }

  /** Falling back to the synchronous path consumes the failure marker; nothing else clears it. */
  lemma FailureIsConsumed(c: Config, run: seq<Action>, a: Action)
    requires a.MinerStep?
    ensures var s, t := Exec(c, run), Exec(c, run + [a]);
      t.inst.failed
      == if s.m.pc.Decide? && s.m.pc.seen != 0 && c.async && s.m.current != 0 && s.inst.failed == s.m.pc.seen
         then 0 else s.inst.failed
  {
    hide Exec;
    ExecStep(c, run, a);
  }

  /** A background swap is decided only for a resident context that is the latest published. */
  lemma SwapIsLatest(c: Config, run: seq<Action>, a: Action)
    requires ConfigOk(c)
    requires Exec(c, run).m.pc.CheckReady? && Exec(c, run + [a]).m.pc.Drain?
    ensures var s, next := Exec(c, run), Exec(c, run + [a]).m.pc.next;
      next == s.env.published && next in s.inst.installed - s.inst.freed && next != s.m.current
  {
    hide PipelineInv, CountersInv, LogInv, Exec, ProvenanceInv;
    EveryRunIsSafe(c, run);
    ExecStep(c, run, a);
  }

  /**
   No wedge: while a job is live, a newer published context that was requested is pending, being
   installed, ready, marked failed, or already in the mining loop's hands.
   */
  lemma NeverWedged(c: Config, run: seq<Action>)
    requires ConfigOk(c)
    requires var s := Exec(c, run); s.m.current != 0 && s.m.current != s.env.published == s.m.requested
    ensures var s := Exec(c, run); var i := s.inst;
      s.env.published in {i.pending, i.installing, i.ready, i.failed, Taken(s.m.pc), Syncing(s.m.pc)}
  {
    hide PipelineInv, CountersInv, LogInv, Exec, ProvenanceInv;
    EveryRunIsSafe(c, run);
  }

  /** Different launches of a run use different nonces while fewer than 2^64 seeds were used. */
  lemma LaunchesAreDisjoint(c: Config, run: seq<Action>, i: nat, j: nat, a: nat, b: nat)
    requires ConfigOk(c) && Exec(c, run).m.iter <= 0x1_0000_0000_0000_0000
    requires i < j < |Exec(c, run).m.log|
    requires a < Exec(c, run).m.log[i].count && b < Exec(c, run).m.log[j].count
    ensures NonceAt(Exec(c, run).m.log[i].seed, a) != NonceAt(Exec(c, run).m.log[j].seed, b)
  {
    hide PipelineInv, CountersInv, InstallInv, Exec, ProvenanceInv, NonceAt, LogOk;
    EveryRunIsSafe(c, run);
    DisjointInLog(c.seedBase, Exec(c, run).m.log, Exec(c, run).m.iter, i, j, a, b);
  }

  lemma DisjointInLog(base: nat, log: seq<Launch>, iter: nat, i: nat, j: nat, a: nat, b: nat)
    requires LogOk(base, log, iter) && iter <= 0x1_0000_0000_0000_0000
    requires i < j < |log| && a < log[i].count && b < log[j].count
    ensures NonceAt(log[i].seed, a) != NonceAt(log[j].seed, b)
  {
    hide NonceAt, Offset;
    OffsetStep(log, i);
    OffsetMonotone(log, i + 1, j);
    NonceOfLaunch(base, log, iter, i, a);
    NonceOfLaunch(base, log, iter, j, b);
    NoncesDiffer(base, Offset(log, i) + a, Offset(log, j) + b);
  }

  /** The nonces of a launch are consecutive seeds, and all of them were counted. */
  lemma NonceOfLaunch(base: nat, log: seq<Launch>, iter: nat, i: nat, a: nat)
    requires LogOk(base, log, iter) && i < |log| && a < log[i].count
    ensures Offset(log, i) + a < iter && NonceAt(log[i].seed, a) == NonceAt(base, Offset(log, i) + a)
  {
    hide NonceAt, Offset;
    OffsetStep(log, i);
    OffsetMonotone(log, i + 1, |log|);
    NonceTwice(base, Offset(log, i), a);
  }

  lemma NonceTwice(base: nat, x: nat, a: nat)
    ensures NonceAt(NonceAt(base, x), a) == NonceAt(base, x + a)
  {
  }

  lemma NoncesDiffer(base: nat, x: nat, y: nat)
    requires x < y < x + 0x1_0000_0000_0000_0000
    ensures NonceAt(base, x) != NonceAt(base, y)
  {
  }

  /** seed_base: GPU index in the top 16 bits, 16 bits of the clock below it. */
  function SeedBase(gpuIndex: nat, nowMs: nat): nat {
    gpuIndex % 0x1_0000 * 0x1_0000_0000_0000 + nowMs % 0x1_0000 * 0x1_0000_0000
  }

  lemma BasesAreApart(g1: nat, g2: nat, ms1: nat, ms2: nat, x: nat, y: nat)
    requires g1 < 0x1_0000 && g2 < 0x1_0000 && g1 != g2 && x < 0x1_0000_0000 && y < 0x1_0000_0000
    ensures NonceAt(SeedBase(g1, ms1), x) != NonceAt(SeedBase(g2, ms2), y)
  {
    assert NonceAt(SeedBase(g1, ms1), x) / 0x1_0000_0000_0000 == g1;
    assert NonceAt(SeedBase(g2, ms2), y) / 0x1_0000_0000_0000 == g2;
  }

  /** Workers of different GPUs share no nonce, in any two runs of at most 2^32 iterations each. */
  lemma GpusAreDisjoint(c1: Config, c2: Config, run1: seq<Action>, run2: seq<Action>,
                        g1: nat, g2: nat, ms1: nat, ms2: nat, i: nat, j: nat, a: nat, b: nat)
    requires ConfigOk(c1) && c1.seedBase == SeedBase(g1, ms1) && Exec(c1, run1).m.iter <= 0x1_0000_0000
    requires ConfigOk(c2) && c2.seedBase == SeedBase(g2, ms2) && Exec(c2, run2).m.iter <= 0x1_0000_0000
    requires g1 < 0x1_0000 && g2 < 0x1_0000 && g1 != g2
    requires i < |Exec(c1, run1).m.log| && a < Exec(c1, run1).m.log[i].count
    requires j < |Exec(c2, run2).m.log| && b < Exec(c2, run2).m.log[j].count
    ensures NonceAt(Exec(c1, run1).m.log[i].seed, a) != NonceAt(Exec(c2, run2).m.log[j].seed, b)
  {
    hide PipelineInv, CountersInv, InstallInv, Exec, ProvenanceInv, NonceAt, LogOk, SeedBase;
    EveryRunIsSafe(c1, run1);
    EveryRunIsSafe(c2, run2);
    var m1, m2 := Exec(c1, run1).m, Exec(c2, run2).m;
    NonceOfLaunch(c1.seedBase, m1.log, m1.iter, i, a);
    NonceOfLaunch(c2.seedBase, m2.log, m2.iter, j, b);
    BasesAreApart(g1, g2, ms1, ms2, Offset(m1.log, i) + a, Offset(m2.log, j) + b);
  }
}
