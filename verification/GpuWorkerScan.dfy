/** What a scan of a finished batch hands on: the winning slots, in order, each under its own nonce. */
module GpuWorkerScan {
  import opened Wrappers
  import opened GpuWorker
  import opened GpuWorkerPipeline
  import opened GpuWorkerShares
  import opened GpuWorkerInstall
  import opened GpuWorkerRuns

  /** Every trigger not given up, oldest first: sent, being rebuilt, queued. */
  function Line(sh: Shares): seq<Job> {
    sh.sent + (if sh.hand.Some? then [sh.hand.value] else []) + sh.queue
  }

  /** Slot k of the scanned batch is reported: a winner, and sent at once or left to the rebuilder. */
  predicate Reports(c: Config, a: Action) {
    a.MinerStep? && a.hit && (c.defer || a.ok)
  }

  /** Without deferred rebuilding nothing is ever queued. */
  ghost predicate QueueInv(c: Config, s: State) {
    !c.defer ==> s.sh.queue == [] && s.sh.hand.None?
  }

  lemma StepKeepsQueue(c: Config, s: State, a: Action)
    requires QueueInv(c, s)
    ensures QueueInv(c, Step(c, s, a))
  {
    if a.MinerStep? && !s.m.pc.Emit? { MinerLeavesShares(c, s, a.hit, a.ok, a.batch); hide MinerNext; }
  }

  lemma {:induction false} RunKeepsQueue(c: Config, run: seq<Action>)
    ensures QueueInv(c, Exec(c, run))
    decreases |run|
  {
    hide Step, QueueInv;
    if run == [] {
      assert QueueInv(c, Init(c)) by { InitQueue(c); }
    } else {
      RunKeepsQueue(c, run[..|run| - 1]);
      StepKeepsQueue(c, Exec(c, run[..|run| - 1]), run[|run| - 1]);
    }
  }

  lemma InitQueue(c: Config)
    ensures QueueInv(c, Init(c))
  {
  }

  // ----- one step of the scan -----

  /** The trigger of slot k under header h: the nonce is the batch's first seed plus k, modulo 2^64. */
  ghost predicate IsTrigger(s: State, h: Launch, k: nat, job: Job) {
    && job.header == h && job.nonce == (h.seed + k) % 0x1_0000_0000_0000_0000
    && job.half == s.m.launchI && job.sigma == s.m.current
    && (h.target != 0 ==> job.target == h.target)
  }

  ghost predicate AtSlot(c: Config, s: State, h: Launch, k: nat) {
    && s.m.pc == Emit(k) && s.m.launchI < |s.halves| && s.halves[s.m.launchI].headers == Some(h)
    && h.seed == s.halves[s.m.launchI].batchSeed && h.target == s.halves[s.m.launchI].batchMined
    && h.count == s.m.batch && NoRun(s.halves[s.m.launchI].stream) && QueueInv(c, s)
  }

  lemma ScanHasHeader(c: Config, run: seq<Action>) returns (h: Launch)
    requires ConfigOk(c) && Exec(c, run).m.pc.Emit?
    ensures AtSlot(c, Exec(c, run), h, Exec(c, run).m.pc.k)
    ensures h == Launch(Exec(c, run).m.current, h.seed, h.count, h.target)
  {
    hide CountersInv, InstallInv, LogInv, Exec, ProvenanceInv, EndTarget, EndHeaders, QueueInv;
    ScannedBatchIsCurrent(c, run);
    EveryRunIsSafe(c, run);
    RunKeepsQueue(c, run);
    var s := Exec(c, run);
    assert HalfInv(c, s, s.m.launchI);
    h := s.halves[s.m.launchI].headers.value;
  }

  /** A reported slot adds exactly one trigger, at the end of the line; a slot not reported adds none. */
  lemma SlotStep(c: Config, s: State, h: Launch, k: nat, a: Action)
    requires AtSlot(c, s, h, k) && k < h.count && a.MinerStep?
    ensures var t := Step(c, s, a);
      && AtSlot(c, t, h, k + 1) && t.m.current == s.m.current && t.m.launchI == s.m.launchI
      && if Reports(c, a)
         then |Line(t.sh)| == |Line(s.sh)| + 1 && Line(t.sh)[..|Line(s.sh)|] == Line(s.sh)
              && IsTrigger(s, h, k, Line(t.sh)[|Line(s.sh)|])
              && (h.target == 0 ==> Line(t.sh)[|Line(s.sh)|].target == s.env.targetNbits)
         else t.sh == s.sh
  {
    var t := Step(c, s, a);
    if Reports(c, a) {
      var job := TriggerOf(s, s.m.launchI, k);
      assert job.nonce == (h.seed + k) % 0x1_0000_0000_0000_0000;
      assert Line(t.sh) == Line(s.sh) + [job];
    }
  }

  /** The other threads change nothing about the scan, and hand triggers on in order. */
  lemma OtherStep(c: Config, s: State, h: Launch, k: nat, a: Action)
    requires AtSlot(c, s, h, k) && !a.MinerStep?
    ensures var t := Step(c, s, a);
      && AtSlot(c, t, h, k) && t.m == s.m
      && (!a.Rebuild? || a.ok || s.sh.hand.None? ==> Line(t.sh) == Line(s.sh))
  {
    var t := Step(c, s, a);
    if a.Rebuild? && s.sh.hand.None? && s.sh.queue != [] {
      assert s.sh.queue == [s.sh.queue[0]] + s.sh.queue[1..];
    }
  }

  /**
   In every run: a winning slot k adds one trigger, under nonce seed + k of the header it carries and
   the target of that launch, or the live one if the batch was launched without.
   */
  lemma WinnerAddsOneTrigger(c: Config, run: seq<Action>, k: nat, b: nat)
    requires ConfigOk(c) && Exec(c, run).m.pc == Emit(k) && k < Exec(c, run).m.batch
    ensures var s, t := Exec(c, run), Exec(c, run + [MinerStep(true, true, b)]);
      && |Line(t.sh)| == |Line(s.sh)| + 1 && Line(t.sh)[..|Line(s.sh)|] == Line(s.sh)
      && var job := Line(t.sh)[|Line(s.sh)|];
      && job.header in s.m.log && job.nonce == (job.header.seed + k) % 0x1_0000_0000_0000_0000
      && job.target == if job.header.target != 0 then job.header.target else s.env.targetNbits
  {
    hide Exec, Step, Line;
    var a := MinerStep(true, true, b);
    var h := ScanHasHeader(c, run);
    ExecStep(c, run, a);
    SlotStep(c, Exec(c, run), h, k, a);
    HeaderIsLogged(c, run, h);
  }

  /** The rebuilder takes the oldest queued trigger, and sends what it took exactly when the rebuild succeeds. */
  lemma RebuilderHandsOn(c: Config, run: seq<Action>, ok: bool)
    ensures var s, t := Exec(c, run).sh, Exec(c, run + [Rebuild(ok)]).sh;
      if s.hand.Some? then t == Shares(s.queue, None, if ok then s.sent + [s.hand.value] else s.sent)
      else if s.queue != [] then t == Shares(s.queue[1..], Some(s.queue[0]), s.sent)
      else t == s
  {
    hide Exec;
    ExecStep(c, run, Rebuild(ok));
  }

  // ----- the whole scan -----

  /** How many slots the mining loop passes. */
  function Slots(more: seq<Action>): nat {
    if more == [] then 0 else Slots(more[..|more| - 1]) + if more[|more| - 1].MinerStep? then 1 else 0
  }

  /** The reported slots of a scan that starts at slot k, in order. */
  function ReportedSlots(c: Config, more: seq<Action>, k: nat): seq<nat> {
    if more == [] then []
    else
      var p, a := more[..|more| - 1], more[|more| - 1];
      ReportedSlots(c, p, k) + if Reports(c, a) then [k + Slots(p)] else []
  }

  /** What joins the end of the line in each step of the mining loop. */
  function Added(c: Config, run: seq<Action>, more: seq<Action>): seq<Job> {
    if more == [] then []
    else
      var p, a := more[..|more| - 1], more[|more| - 1];
      var s, t := Line(Exec(c, run + p).sh), Line(Exec(c, run + more).sh);
      Added(c, run, p) + if a.MinerStep? && |t| > |s| then t[|s|..] else []
  }

  /** jobs are the triggers of exactly these slots. */
  ghost predicate TriggersOf(s: State, h: Launch, slots: seq<nat>, jobs: seq<Job>) {
    |jobs| == |slots| && forall i :: 0 <= i < |slots| ==> IsTrigger(s, h, slots[i], jobs[i])
  }

  ghost predicate RebuildsSucceed(more: seq<Action>) {
    forall i :: 0 <= i < |more| && more[i].Rebuild? ==> more[i].ok
  }

  /**
   Between two slots of a scan, under any interleaving with the other threads, the triggers added
   are those of the reported slots passed, one each and in slot order; while rebuilds succeed they
   stand at the end of the line, behind everything that was there.
   */
  lemma {:induction false} ScanReports(c: Config, run: seq<Action>, more: seq<Action>, h: Launch, k: nat)
    requires AtSlot(c, Exec(c, run), h, k) && k + Slots(more) <= h.count
    ensures var s, t := Exec(c, run), Exec(c, run + more);
      && AtSlot(c, t, h, k + Slots(more)) && t.m.current == s.m.current && t.m.launchI == s.m.launchI
      && TriggersOf(s, h, ReportedSlots(c, more, k), Added(c, run, more))
      && (RebuildsSucceed(more) ==> Line(t.sh) == Line(s.sh) + Added(c, run, more))
    decreases |more|
  {
    hide Exec, Step, AtSlot, IsTrigger, Line, Reports;
    var s := Exec(c, run);
    if more == [] {
      assert run + more == run;
      assert Line(s.sh) + [] == Line(s.sh);
    } else {
      var p, a := more[..|more| - 1], more[|more| - 1];
      ScanReports(c, run, p, h, k);
      assert run + more == (run + p) + [a];
      ExecStep(c, run + p, a);
      ScanNext(c, run, more, h, k);
    }
  }

  lemma ScanNext(c: Config, run: seq<Action>, more: seq<Action>, h: Launch, k: nat)
    requires more != [] && k + Slots(more) <= h.count
    requires var p, s := more[..|more| - 1], Exec(c, run); var u := Exec(c, run + p);
      && AtSlot(c, u, h, k + Slots(p)) && u.m.current == s.m.current && u.m.launchI == s.m.launchI
      && TriggersOf(s, h, ReportedSlots(c, p, k), Added(c, run, p))
      && (RebuildsSucceed(p) ==> Line(u.sh) == Line(s.sh) + Added(c, run, p))
      && Exec(c, run + more) == Step(c, u, more[|more| - 1])
    ensures var s, t := Exec(c, run), Exec(c, run + more);
      && AtSlot(c, t, h, k + Slots(more)) && t.m.current == s.m.current && t.m.launchI == s.m.launchI
      && TriggersOf(s, h, ReportedSlots(c, more, k), Added(c, run, more))
      && (RebuildsSucceed(more) ==> Line(t.sh) == Line(s.sh) + Added(c, run, more))
  {
    hide Exec, Step, AtSlot, Line;
    var p, a := more[..|more| - 1], more[|more| - 1];
    var s, u, t := Exec(c, run), Exec(c, run + p), Exec(c, run + more);
    assert RebuildsSucceed(more) ==> RebuildsSucceed(p);
    if a.MinerStep? {
      SlotStep(c, u, h, k + Slots(p), a);
      assert Line(t.sh) == Line(t.sh)[..|Line(u.sh)|] + Line(t.sh)[|Line(u.sh)|..];
    } else {
      OtherStep(c, u, h, k + Slots(p), a);
      if RebuildsSucceed(more) { assert more[|more| - 1].Rebuild? ==> a.ok; }
      assert Added(c, run, more) == Added(c, run, p) + [];
      assert ReportedSlots(c, more, k) == ReportedSlots(c, p, k) + [];
    }
  }

  /**
   A whole scan of a finished batch in any run, from the end of the wait to the top of the loop:
   every winning slot from 0 to the batch size once, in order, and no other.
   */
  lemma ScanIsExact(c: Config, run: seq<Action>, wait: Action, more: seq<Action>, last: Action) returns (h: Launch)
    requires ConfigOk(c) && Exec(c, run).m.pc.Await? && wait.MinerStep? && Exec(c, run + [wait]).m.pc.Emit?
    requires Slots(more) == Exec(c, run).m.batch && last.MinerStep?
    ensures var s, t := Exec(c, run), Exec(c, run + [wait] + more + [last]);
      && h in s.m.log && h.sigma == s.m.current && h.count == s.m.batch && t.m.pc.Top?
      && Exec(c, run + [wait]).sh == s.sh && t.sh == Exec(c, run + [wait] + more).sh
      && TriggersOf(s, h, ReportedSlots(c, more, 0), Added(c, run + [wait], more))
  {
    hide Exec, Line, PipelineInv, CountersInv, InstallInv, LogInv, StreamInv;
    ExecStep(c, run, wait);
    ExecStep(c, run + [wait] + more, last);
    h := ScanHasHeader(c, run + [wait]);
    ScanReports(c, run + [wait], more, h, 0);
    HeaderIsLogged(c, run + [wait], h);
    var s, u := Exec(c, run), Exec(c, run + [wait]);
    assert u.m == s.m.(pc := Emit(0)) && u.sh == s.sh;
    assert forall k: nat, job: Job :: IsTrigger(u, h, k, job) ==> IsTrigger(s, h, k, job);
    hide IsTrigger;
  }

  lemma HeaderIsLogged(c: Config, run: seq<Action>, h: Launch)
    requires ConfigOk(c) && Exec(c, run).m.pc.Emit? && AtSlot(c, Exec(c, run), h, Exec(c, run).m.pc.k)
    requires h.sigma == Exec(c, run).m.current
    ensures h in Exec(c, run).m.log
  {
    hide Exec, HalfInv, CountersInv, InstallInv, LogInv, StreamInv, JobOk;
    EveryRunIsSafe(c, run);
    var s := Exec(c, run);
    assert InFlight(c, s.m, s.m.launchI);
  }

  /** The reported slots are strictly increasing and among those passed. */
  lemma {:induction false} ReportedSlotsIncrease(c: Config, more: seq<Action>, k: nat)
    ensures forall a :: 0 <= a < |ReportedSlots(c, more, k)| ==> k <= ReportedSlots(c, more, k)[a] < k + Slots(more)
    ensures forall a, b :: 0 <= a < b < |ReportedSlots(c, more, k)|
              ==> ReportedSlots(c, more, k)[a] < ReportedSlots(c, more, k)[b]
    decreases |more|
  {
    if more != [] { ReportedSlotsIncrease(c, more[..|more| - 1], k); }
  }

  /** A slot passed by the mining loop is reported exactly when it won and was sent or deferred. */
  lemma {:induction false} ReportedIffWon(c: Config, more: seq<Action>, k: nat, i: nat)
    requires i < |more| && more[i].MinerStep?
    ensures k + Slots(more[..i]) in ReportedSlots(c, more, k) <==> more[i].hit && (c.defer || more[i].ok)
    decreases |more|
  {
    var p, a := more[..|more| - 1], more[|more| - 1];
    var before, slots := ReportedSlots(c, p, k), ReportedSlots(c, more, k);
    assert slots == before + if Reports(c, a) then [k + Slots(p)] else [];
    if i < |p| {
      ReportedIffWon(c, p, k, i);
      assert p[..i] == more[..i];
      SlotsBelow(p, i);
    } else {
      assert more[..i] == p;
      ReportedSlotsIncrease(c, p, k);
    }
  }

  lemma {:induction false} SlotsBelow(more: seq<Action>, i: nat)
    requires i < |more|
    ensures Slots(more[..i]) + (if more[i].MinerStep? then 1 else 0) <= Slots(more)
    decreases |more|
  {
    var p := more[..|more| - 1];
    if i < |p| {
      SlotsBelow(p, i);
      assert p[..i] == more[..i];
    }
  }
}
