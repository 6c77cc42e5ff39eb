/** From every reachable state the latest published job can still be adopted. */
module GpuWorkerProgress {
  import opened GpuWorker
  import opened GpuWorkerPipeline
  import opened GpuWorkerShares
  import opened GpuWorkerInstall
  import opened GpuWorkerRuns

  // ----- continuations that publish nothing -----

  function After(c: Config, s: State, more: seq<Action>): State
    decreases |more|
  {
    if more == [] then s else After(c, Step(c, s, more[0]), more[1..])
  }

  predicate NoPublish(more: seq<Action>) {
    forall i :: 0 <= i < |more| ==> !more[i].Publish?
  }

  ghost predicate CanReach(c: Config, s: State, t: State) {
    exists more :: NoPublish(more) && After(c, s, more) == t
  }

  lemma {:induction false} AfterBoth(c: Config, s: State, a: seq<Action>, b: seq<Action>)
    ensures After(c, s, a + b) == After(c, After(c, s, a), b)
    decreases |a|
  {
    hide Step;
    if a == [] {
      assert a + b == b;
    } else {
      assert (a + b)[1..] == a[1..] + b;
      AfterBoth(c, Step(c, s, a[0]), a[1..], b);
    }
  }

  lemma {:induction false} ExecAfter(c: Config, run: seq<Action>, more: seq<Action>)
    ensures Exec(c, run + more) == After(c, Exec(c, run), more)
    decreases |more|
  {
    hide Step, Exec;
    if more == [] {
      assert run + more == run;
    } else {
      ExecStep(c, run, more[0]);
      assert run + more == (run + [more[0]]) + more[1..];
      ExecAfter(c, run + [more[0]], more[1..]);
    }
  }

  lemma ReachSelf(c: Config, s: State)
    ensures CanReach(c, s, s)
  {
    assert NoPublish([]) && After(c, s, []) == s;
  }

  lemma ReachStep(c: Config, s: State, a: Action)
    requires !a.Publish?
    ensures CanReach(c, s, Step(c, s, a))
  {
    hide Step;
    assert NoPublish([a]) && After(c, s, [a]) == Step(c, s, a);
  }

  lemma ReachBoth(c: Config, s: State, t: State, u: State)
    requires CanReach(c, s, t) && CanReach(c, t, u)
    ensures CanReach(c, s, u)
  {
    hide Step;
    var a :| NoPublish(a) && After(c, s, a) == t;
    var b :| NoPublish(b) && After(c, t, b) == u;
    AfterBoth(c, s, a, b);
    assert NoPublish(a + b);
  }

  /** The next state and how it is reached, with every invariant kept. */
  lemma Go(c: Config, s: State, a: Action) returns (t: State)
    requires Inv(c, s) && !a.Publish?
    ensures t == Step(c, s, a) && Inv(c, t) && CanReach(c, s, t)
  {
    hide *;
    t := Step(c, s, a);
    StepKeepsInv(c, s, a);
    ReachStep(c, s, a);
  }

  // ----- the GPU and the rebuilder catch up -----

  ghost predicate SameLoop(s: State, t: State) {
    t.m == s.m && t.env == s.env && t.inst == s.inst && |t.halves| == |s.halves|
  }

  ghost predicate EmptyBelow(s: State, k: nat) {
    forall h :: 0 <= h < |s.halves| && h < k ==> s.halves[h].stream == []
  }

  lemma {:induction false} DrainHalf(c: Config, s: State, h: nat) returns (t: State)
    requires Inv(c, s) && h < |s.halves| && EmptyBelow(s, h)
    ensures CanReach(c, s, t) && Inv(c, t) && SameLoop(s, t) && EmptyBelow(t, h + 1)
    decreases |s.halves[h].stream|
  {
    hide Inv, CanReach;
    if s.halves[h].stream == [] {
      t := s;
      ReachSelf(c, s);
    } else {
      var u := Go(c, s, Gpu(h));
      t := DrainHalf(c, u, h);
      ReachBoth(c, s, u, t);
    }
  }

  lemma {:induction false} DrainHalves(c: Config, s: State, h: nat) returns (t: State)
    requires Inv(c, s) && h <= |s.halves| && EmptyBelow(s, h)
    ensures CanReach(c, s, t) && Inv(c, t) && SameLoop(s, t) && EmptyBelow(t, |t.halves|)
    decreases |s.halves| - h
  {
    hide Inv, CanReach;
    if h == |s.halves| {
      t := s;
      ReachSelf(c, s);
    } else {
      var u := DrainHalf(c, s, h);
      t := DrainHalves(c, u, h + 1);
      ReachBoth(c, s, u, t);
    }
  }

  function Backlog(sh: Shares): nat {
    2 * |sh.queue| + (if sh.hand.Some? then 1 else 0)
  }

  lemma RebuildOne(c: Config, s: State) returns (t: State)
    requires Inv(c, s) && EmptyBelow(s, |s.halves|) && Backlog(s.sh) > 0
    ensures CanReach(c, s, t) && Inv(c, t) && SameLoop(s, t) && EmptyBelow(t, |t.halves|)
    ensures Backlog(t.sh) < Backlog(s.sh)
  {
    hide Inv, CanReach;
    t := Go(c, s, Rebuild(true));
  }

  lemma {:induction false} RebuildAll(c: Config, s: State) returns (t: State)
    requires Inv(c, s) && EmptyBelow(s, |s.halves|)
    ensures CanReach(c, s, t) && Inv(c, t) && SameLoop(s, t) && EmptyBelow(t, |t.halves|) && Backlog(t.sh) == 0
    decreases Backlog(s.sh)
  {
    hide Inv, CanReach, Backlog;
    if Backlog(s.sh) == 0 {
      t := s;
      ReachSelf(c, s);
    } else {
      var u := RebuildOne(c, s);
      t := RebuildAll(c, u);
      ReachBoth(c, s, u, t);
    }
  }

  /** Nothing queued on a stream, nothing left to rebuild. */
  ghost predicate Calm(s: State) {
    forall h :: 0 <= h < |s.halves| ==> s.halves[h].stream == [] && s.halves[h].pending == 0
  }

  lemma NoBacklogNoPending(c: Config, s: State)
    requires Inv(c, s) && EmptyBelow(s, |s.halves|) && Backlog(s.sh) == 0
    ensures Calm(s)
  {
    hide PipelineInv, ProvenanceInv, InstallInv, LogInv, StreamInv;
  }

  lemma CalmDown(c: Config, s: State) returns (t: State)
    requires Inv(c, s)
    ensures CanReach(c, s, t) && Inv(c, t) && SameLoop(s, t) && Calm(t)
  {
    hide Inv, CanReach, Backlog, Calm;
    var u := DrainHalves(c, s, 0);
    t := RebuildAll(c, u);
    ReachBoth(c, s, u, t);
    NoBacklogNoPending(c, t);
  }

  // ----- the mining loop comes round -----

  function Left(n: nat, k: nat): nat {
    if k < n then n - k else 0
  }

  /** Steps left before the mining loop is back at its top, when nothing fails or wins. */
  function Rank(c: Config, m: Miner): nat {
    var n, b := c.halves, m.batch;
    match m.pc
    case Top => 0
    case Emit(k) => 1 + Left(b, k)
    case Await => b + 2
    case Fire(_) => b + 3
    case WaitFree(_) => b + 4
    case Mine => b + 5
    case SyncTargets(h) => b + 6 + Left(n, h)
    case UploadTargets(_) => b + 7 + n
    case LoadTarget => b + 8 + n
    case PollTarget => b + 9 + n
    case Settle(_) => b + 10 + n
    case BindSync(h, _) => b + 11 + n + 4 * Left(n, h)
    case BindCommit(h, _, _) => b + 12 + n + 4 * Left(n, h)
    case BindLoad(h, _) => b + 13 + n + 4 * Left(n, h)
    case InstallHere(h) => b + 14 + n + 4 * Left(n, h)
    case Adopt(_, _) => b + 15 + 5 * n
    case Quiesce(_, h, _) => b + 16 + 5 * n + Left(n, h)
    case Drain(_, h, _) => b + 17 + 6 * n + Left(n, h)
    case CheckReady(_) => b + 18 + 7 * n
    case TakeReady => b + 19 + 7 * n
    case Submit(_) => b + 20 + 7 * n
    case Decide(_) => b + 21 + 7 * n
  }

  function Forward(m: Miner): Action {
    MinerStep(false, true, m.batch)
  }

  lemma SwitchFalls(c: Config, s: State)
    requires MinerOk(c, s) && Calm(s)
    requires Rebinding(s.m.pc) || s.m.pc.Drain? || s.m.pc.Quiesce?
    ensures var t := Step(c, s, Forward(s.m));
      Rank(c, t.m) < Rank(c, s.m) && t.env.published == s.env.published && |t.halves| == |s.halves|
  {
  }

  /** From the target poll to the end of the batch. */
  predicate InLoop(pc: Pc) {
    || pc.PollTarget? || pc.LoadTarget? || pc.UploadTargets? || pc.SyncTargets?
    || pc.Mine? || pc.WaitFree? || pc.Fire? || pc.Await? || pc.Emit?
  }

  ghost predicate SameJob(s: State, t: State) {
    t.inst == s.inst && t.m.current == s.m.current && t.m.requested == s.m.requested
  }

  lemma LoopFalls(c: Config, s: State)
    requires MinerOk(c, s) && Calm(s) && InLoop(s.m.pc)
    ensures var t := Step(c, s, Forward(s.m));
      && Rank(c, t.m) < Rank(c, s.m) && t.env.published == s.env.published
      && SameJob(s, t) && (t.m.pc.Top? || InLoop(t.m.pc))
  {
  }

  lemma ChoosingFalls(c: Config, s: State)
    requires var pc := s.m.pc; pc.Decide? || pc.Submit? || pc.TakeReady? || pc.CheckReady?
    ensures var t := Step(c, s, Forward(s.m)); Rank(c, t.m) < Rank(c, s.m) && t.env.published == s.env.published
  {
  }

  /** One step of the mining loop, after which the GPU and the rebuilder catch up. */
  lemma Advance(c: Config, s: State) returns (t: State)
    requires Inv(c, s) && Calm(s)
    ensures CanReach(c, s, t) && Inv(c, t) && Calm(t) && SameLoop(Step(c, s, Forward(s.m)), t)
  {
    hide Inv, CanReach, Calm, Step, SameLoop;
    var u := Go(c, s, Forward(s.m));
    t := CalmDown(c, u);
    ReachBoth(c, s, u, t);
  }

  lemma Falls(c: Config, s: State)
    requires MinerOk(c, s) && Calm(s) && !s.m.pc.Top?
    ensures var t := Step(c, s, Forward(s.m));
      && Rank(c, t.m) < Rank(c, s.m) && t.env.published == s.env.published
      && (InLoop(s.m.pc) ==> SameJob(s, t) && (t.m.pc.Top? || InLoop(t.m.pc)))
  {
    hide Step, Rank, Calm, SameJob, MinerOk;
    if InLoop(s.m.pc) { LoopFalls(c, s); }
    else if Rebinding(s.m.pc) || s.m.pc.Drain? || s.m.pc.Quiesce? { SwitchFalls(c, s); }
    else { ChoosingFalls(c, s); }
  }

  lemma {:induction false} ComesRound(c: Config, s: State) returns (t: State)
    requires Inv(c, s) && Calm(s)
    ensures CanReach(c, s, t) && Inv(c, t) && Calm(t) && t.m.pc.Top? && t.env.published == s.env.published
    ensures InLoop(s.m.pc) || s.m.pc.Top? ==> SameJob(s, t)
    ensures Keeping(s.m.pc) ==> t.m.current == s.m.current
    decreases Rank(c, s.m)
  {
    hide Inv, CanReach, Calm, Step, Rank;
    if s.m.pc.Top? {
      t := s;
      ReachSelf(c, s);
    } else {
      InvMinerOk(c, s);
      Falls(c, s);
      if Rebinding(s.m.pc) && !s.m.pc.Adopt? { RebindKeepsJob(c, s); }
      var u := Advance(c, s);
      t := ComesRound(c, u);
      ReachBoth(c, s, u, t);
    }
  }

  /** Program points from which the loop comes round with the same job. */
  predicate Keeping(pc: Pc) {
    InLoop(pc) || pc.Top? || pc.InstallHere? || pc.BindLoad? || pc.BindCommit? || pc.BindSync? || pc.Settle?
  }

  lemma RebindKeepsJob(c: Config, s: State)
    requires MinerOk(c, s) && Rebinding(s.m.pc) && !s.m.pc.Adopt?
    ensures var t := Step(c, s, Forward(s.m)); t.m.current == s.m.current && Keeping(t.m.pc)
  {
  }

  lemma InvMinerOk(c: Config, s: State)
    requires Inv(c, s)
    ensures MinerOk(c, s)
  {
    hide HalfInv, CountersInv, ProvenanceInv, InstallInv, LogInv, StreamInv;
  }

  // ----- adoption -----

  predicate Switching(pc: Pc) {
    pc.Drain? || pc.Quiesce? || pc.Adopt?
  }

  /** The latest job is current, and the loop is on its way round. */
  ghost predicate Adopted(c: Config, s: State, t: State) {
    && CanReach(c, s, t) && Inv(c, t) && Calm(t) && Keeping(t.m.pc)
    && t.m.current == t.env.published == s.env.published
  }

  lemma SwitchGoesOn(c: Config, s: State)
    requires MinerOk(c, s) && Calm(s) && Switching(s.m.pc)
    ensures var t := Step(c, s, Forward(s.m));
      if s.m.pc.Adopt? then t.m.current == s.m.pc.next && Keeping(t.m.pc)
      else Switching(t.m.pc) && t.m.pc.next == s.m.pc.next
  {
  }

  /** A switch once decided on is carried through. */
  lemma {:induction false} SwitchCompletes(c: Config, s: State) returns (t: State)
    requires Inv(c, s) && Calm(s) && Switching(s.m.pc) && s.m.pc.next == s.env.published
    ensures Adopted(c, s, t)
    decreases Rank(c, s.m)
  {
    hide Inv, CanReach, Calm, Step, Rank;
    InvMinerOk(c, s);
    Falls(c, s);
    SwitchGoesOn(c, s);
    var u := Advance(c, s);
    if s.m.pc.Adopt? {
      t := u;
    } else {
      t := SwitchCompletes(c, u);
      ReachBoth(c, s, u, t);
    }
  }

  /** The installer finishes what it was given. */
  lemma InstallerFinishes(c: Config, s: State) returns (t: State)
    requires Inv(c, s) && Calm(s)
    ensures CanReach(c, s, t) && Inv(c, t) && Calm(t) && t.m == s.m && t.env == s.env
    ensures t.inst.pending == 0 && t.inst.installing == 0
  {
    hide Inv, CanReach;
    var u := Go(c, s, Install(true));
    var v := Go(c, u, Install(true));
    t := Go(c, v, Install(true));
    ReachBoth(c, s, u, v);
    ReachBoth(c, s, v, t);
  }

  /** A request that is the latest job and not current is ready or marked failed once the installer is idle. */
  lemma RequestIsHere(c: Config, s: State)
    requires Inv(c, s) && s.m.pc.TakeReady? && s.m.current != 0 && s.m.current != s.env.published == s.m.requested
    requires s.inst.pending == 0 && s.inst.installing == 0
    ensures s.inst.ready == s.env.published || s.inst.failed == s.env.published
  {
    hide PipelineInv, CountersInv, ProvenanceInv, LogInv, StreamInv, Residency, SlotOrder;
  }

  /** Decided synchronously: no job yet, no background installs, or the background install failed. */
  lemma TopSwitches(c: Config, s: State) returns (t: State)
    requires Inv(c, s) && Calm(s) && s.m.pc.Top? && s.env.published != 0 && s.m.current != s.env.published
    requires !c.async || s.m.current == 0 || s.inst.failed == s.env.published
    ensures Adopted(c, s, t)
  {
    hide Inv, CanReach, Calm;
    var u := Advance(c, s);
    assert u.m.pc == Decide(s.env.published);
    var v := Advance(c, u);
    assert Switching(v.m.pc) && v.m.pc.next == s.env.published;
    hide Step;
    t := SwitchCompletes(c, v);
    ReachBoth(c, s, u, v);
    ReachBoth(c, s, v, t);
  }

  /** Decided in the background: the request is submitted and the loop is about to look for it. */
  lemma TopSubmits(c: Config, s: State) returns (t: State)
    requires Inv(c, s) && Calm(s) && s.m.pc.Top? && s.env.published != 0 && s.m.current != s.env.published
    requires c.async && s.m.current != 0 && s.inst.failed != s.env.published
    ensures CanReach(c, s, t) && Inv(c, t) && Calm(t) && t.m.pc.TakeReady? && t.env.published == s.env.published
    ensures t.m.current == s.m.current && t.m.requested == s.env.published
  {
    hide Inv, CanReach, Calm;
    var u := Advance(c, s);
    assert u.m.pc == Decide(s.env.published);
    var v := Advance(c, u);
    assert v.m.pc == Submit(s.env.published);
    t := Advance(c, v);
    hide Step;
    ReachBoth(c, s, u, v);
    ReachBoth(c, s, v, t);
  }

  lemma TakesReady(c: Config, s: State) returns (t: State)
    requires Inv(c, s) && Calm(s) && s.m.pc.TakeReady? && s.env.published != 0
    requires s.inst.ready == s.env.published != s.m.current
    ensures Adopted(c, s, t)
  {
    hide Inv, CanReach, Calm;
    var u := Advance(c, s);
    assert u.m.pc == CheckReady(s.env.published);
    var v := Advance(c, u);
    assert Switching(v.m.pc) && v.m.pc.next == s.env.published;
    hide Step;
    t := SwitchCompletes(c, v);
    ReachBoth(c, s, u, v);
    ReachBoth(c, s, v, t);
  }

  /** Past the ready slot, whatever stale context was in it, with the failure marker still set. */
  lemma PassesReady(c: Config, s: State) returns (t: State)
    requires Inv(c, s) && Calm(s) && s.m.pc.TakeReady? && s.inst.ready != s.env.published
    ensures CanReach(c, s, t) && Inv(c, t) && Calm(t) && t.m.pc.PollTarget? && t.env.published == s.env.published
    ensures t.inst.failed == s.inst.failed && t.m.current == s.m.current
  {
    hide Inv, CanReach, Calm;
    var u := Advance(c, s);
    if u.m.pc.PollTarget? {
      t := u;
    } else {
      t := Advance(c, u);
      hide Step;
      ReachBoth(c, s, u, t);
    }
  }

  lemma Finds(c: Config, s: State) returns (t: State)
    requires Inv(c, s) && Calm(s) && s.m.pc.TakeReady? && s.env.published != 0
    requires s.m.current != 0 && s.m.current != s.env.published == s.m.requested
    ensures Adopted(c, s, t)
  {
    hide Inv, CanReach, Calm, Step;
    var u := InstallerFinishes(c, s);
    RequestIsHere(c, u);
    if u.inst.ready == u.env.published {
      t := TakesReady(c, u);
    } else {
      var v := PassesReady(c, u);
      var w := ComesRound(c, v);
      var x := TopSwitches(c, w);
      ReachBoth(c, u, v, w);
      ReachBoth(c, u, w, x);
      t := x;
    }
    ReachBoth(c, s, u, t);
  }

  lemma Adopts(c: Config, s: State) returns (t: State)
    requires Inv(c, s) && s.env.published != 0
    ensures Adopted(c, s, t)
  {
    hide Inv, CanReach, Calm, Step;
    var u := CalmDown(c, s);
    var v := ComesRound(c, u);
    ReachBoth(c, s, u, v);
    if v.m.current == v.env.published {
      t := v;
    } else if !c.async || v.m.current == 0 || v.inst.failed == v.env.published {
      t := TopSwitches(c, v);
      ReachBoth(c, s, v, t);
    } else {
      var w := TopSubmits(c, v);
      t := Finds(c, w);
      ReachBoth(c, s, v, w);
      ReachBoth(c, s, w, t);
    }
  }

  /**
   Progress: from every reachable state with a published job there is a continuation, without
   further publication, after which the latest job is the current one.
   */
  lemma LatestCanBeAdopted(c: Config, run: seq<Action>)
    requires ConfigOk(c) && Exec(c, run).env.published != 0
    ensures exists more ::
      NoPublish(more) && Exec(c, run + more).m.current == Exec(c, run).env.published
  {
    hide Inv, Exec, Step, After;
    EveryRunIsSafe(c, run);
    var s := Exec(c, run);
    var t := Adopts(c, s);
    var more :| NoPublish(more) && After(c, s, more) == t;
    ExecAfter(c, run, more);
    assert NoPublish(more) && Exec(c, run + more).m.current == s.env.published;
  }

  // ----- resident contexts are settled -----

  /** Reachable states keep what was installed. */
  lemma {:induction false} AfterKeepsInstalled(c: Config, s: State, more: seq<Action>, x: Sigma)
    requires x in s.inst.installed
    ensures x in After(c, s, more).inst.installed
    decreases |more|
  {
    if more != [] {
      StepKeepsInstalled(c, s, more[0], x);
      hide Step;
      AfterKeepsInstalled(c, Step(c, s, more[0]), more[1..], x);
    }
  }

  lemma StepKeepsInstalled(c: Config, s: State, a: Action, x: Sigma)
    requires x in s.inst.installed
    ensures x in Step(c, s, a).inst.installed
  {
    if a.MinerStep? { MinerKeepsInstalled(c, s, a.hit, a.ok, a.batch); hide MinerNext; }
  }

  lemma MinerKeepsInstalled(c: Config, s: State, hit: bool, ok: bool, batch: nat)
    ensures s.inst.installed <= MinerNext(c, s, hit, ok, batch).inst.installed
  {
  }

  /** With the latest job current, a look at the ready slot frees what waits there. */
  lemma ReadyIsFreed(c: Config, s: State) returns (t: State)
    requires Inv(c, s) && Calm(s) && s.m.pc.Top? && s.m.current == s.env.published != 0 && s.inst.ready != 0
    ensures CanReach(c, s, t) && Inv(c, t) && s.inst.ready in t.inst.adopted + t.inst.freed
  {
    ReadyMeansAsync(c, s);
    hide Inv, CanReach, Calm;
    var u := Advance(c, s);
    assert u.m.pc == Decide(0);
    var v := Advance(c, u);
    assert v.m.pc.TakeReady? && v.inst.ready == s.inst.ready;
    var w := Advance(c, v);
    assert w.m.pc == CheckReady(s.inst.ready) && w.m.current == w.env.published;
    InvCurrentAdopted(c, w);
    t := Advance(c, w);
    assert s.inst.ready in t.inst.adopted + t.inst.freed;
    hide Step;
    ReachBoth(c, s, u, v);
    ReachBoth(c, s, v, w);
    ReachBoth(c, s, w, t);
  }

  lemma ReadyMeansAsync(c: Config, s: State)
    requires Inv(c, s) && s.inst.ready != 0
    ensures c.async
  {
    hide PipelineInv, CountersInv, ProvenanceInv, LogInv, StreamInv, SlotOrder, Apart, Frontier, Residency, Accounted;
  }

  lemma InvCurrentAdopted(c: Config, s: State)
    requires Inv(c, s) && s.m.current != 0
    ensures s.m.current in s.inst.adopted
  {
    hide PipelineInv, CountersInv, LogInv, StreamInv, InstallInv;
  }

  /** The loop comes round with the latest job current and, once it has looked, nothing left in the ready slot. */
  lemma Settles(c: Config, s: State) returns (t: State)
    requires Inv(c, s) && s.env.published != 0
    ensures CanReach(c, s, t) && Inv(c, t) && Calm(t) && t.m.pc.Top? && t.m.current == t.env.published != 0
  {
    hide Inv, CanReach, Calm, Step;
    var u := Adopts(c, s);
    t := ComesRound(c, u);
    ReachBoth(c, s, u, t);
  }

  /**
   Every resident context can still be settled: from every reachable state there is a continuation,
   without further publication, after which it was adopted or freed.
   */
  lemma ResidentCanBeSettled(c: Config, run: seq<Action>, x: Sigma)
    requires ConfigOk(c) && Exec(c, run).env.published != 0 && x in Exec(c, run).inst.installed
    ensures exists more ::
      NoPublish(more) && x in Exec(c, run + more).inst.adopted + Exec(c, run + more).inst.freed
  {
    hide Inv, Exec, Step, After;
    EveryRunIsSafe(c, run);
    var s := Exec(c, run);
    var t := Settles(c, s);
    var more :| NoPublish(more) && After(c, s, more) == t;
    ExecAfter(c, run, more);
    AfterKeepsInstalled(c, s, more, x);
    NothingLeaks(c, run + more, x);
    if x in t.inst.adopted + t.inst.freed {
      assert NoPublish(more) && x in Exec(c, run + more).inst.adopted + Exec(c, run + more).inst.freed;
    } else {
      var u := ReadyIsFreed(c, t);
      ReachBoth(c, s, t, u);
      var all :| NoPublish(all) && After(c, s, all) == u;
      ExecAfter(c, run, all);
      assert NoPublish(all) && x in Exec(c, run + all).inst.adopted + Exec(c, run + all).inst.freed;
    }
  }
}
