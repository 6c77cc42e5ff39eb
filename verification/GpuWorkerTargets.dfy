/**
 Which target the halves mine under. A target change is a store and then a flag; the mining loop
 answers the flag, but a rebind clears it as well. The rebind window runs from the first half's
 load of the target to the clearing of the flag.
 */
module GpuWorkerTargets {
  import opened GpuWorker
  import opened GpuWorkerPipeline
  import opened GpuWorkerInstall
  import opened GpuWorkerRuns

  /** The first half has read its target and the flag is not cleared yet. */
  predicate InWindow(pc: Pc) {
    pc.BindCommit? || pc.BindSync? || pc.Settle? || (pc.BindLoad? && pc.h > 0) || (pc.InstallHere? && pc.h > 0)
  }

  /** What a rebind starting now uploads: the job's own target, or else the live one. */
  function Loaded(c: Config, s: State): nat {
    if c.jobTarget(s.m.current) != 0 then c.jobTarget(s.m.current) else s.env.targetNbits
  }

  /** The target the rebind under way is uploading. */
  function Binds(s: State): nat {
    if s.m.pc.BindCommit? then s.m.pc.nbits else s.env.targetNbits
  }

  predicate Disturbing(s: State, a: Action) {
    a.StoreTarget? && InWindow(s.m.pc) && a.nbits != Binds(s)
  }

  /** No store of another target falls into a rebind window. */
  ghost predicate Undisturbed(c: Config, run: seq<Action>) {
    run == [] || (var p := run[..|run| - 1]; Undisturbed(c, p) && !Disturbing(Exec(c, p), run[|run| - 1]))
  }

  predicate UnmarkedAfter(u: bool, a: Action) {
    a.StoreTarget? || (u && !a.MarkDirty?)
  }

  /** The latest store has not been followed by its flag yet. */
  predicate Unmarked(run: seq<Action>) {
    run != [] && UnmarkedAfter(Unmarked(run[..|run| - 1]), run[|run| - 1])
  }

  // ----- the invariant -----

  ghost predicate FirstAt(halves: seq<Half>, k: nat, n: nat) {
    forall i :: 0 <= i < |halves| && i < k ==> halves[i].powNbits == n
  }

  /** The change is announced, about to be announced, or has reached every half. */
  ghost predicate Synced(s: State, unmarked: bool) {
    s.env.dirty || unmarked || s.env.targetNbits == 0 || FirstAt(s.halves, |s.halves|, s.env.targetNbits)
  }

  /** The first k halves carry the live target, which is the job's if the job sets one. */
  ghost predicate Rebound(c: Config, s: State, k: nat) {
    && (c.jobTarget(s.m.current) != 0 ==> s.env.targetNbits == c.jobTarget(s.m.current))
    && (s.env.targetNbits != 0 ==> FirstAt(s.halves, k, s.env.targetNbits))
  }

  /** A failed rebind leaves the halves apart, but a job is published and will be bound again. */
  ghost predicate TargetInv(c: Config, s: State, unmarked: bool) {
    match s.m.pc
    case Drain(_, _, _) => true
    case Quiesce(_, _, _) => true
    case Adopt(_, _) => true
    case LoadTarget => true
    case InstallHere(h) => h == 0 || Rebound(c, s, h)
    case BindLoad(h, _) => h == 0 || Rebound(c, s, h)
    case BindCommit(h, n, _) => if h == 0 then n == Loaded(c, s) else n == s.env.targetNbits && Rebound(c, s, h)
    case BindSync(h, _) => Rebound(c, s, h + 1)
    case Settle(_) => Rebound(c, s, |s.halves|)
    case Top => Synced(s, unmarked) || (s.m.current == 0 && s.env.published != 0)
    case Decide(seen) => Synced(s, unmarked) || (s.m.current == 0 && seen != 0)
    case UploadTargets(n) => s.env.dirty || unmarked || n == s.env.targetNbits
    case _ => Synced(s, unmarked)
  }

  /** What the other invariants contribute. */
  ghost predicate Sound(c: Config, s: State) {
    MinerOk(c, s) && (s.m.current != 0 ==> s.env.published != 0)
  }

  lemma InvIsSound(c: Config, s: State)
    requires Inv(c, s)
    ensures Sound(c, s)
  {
    hide HalfInv, SlotOrder, Apart, Accounted, Quiet, Residency;
  }

  /** Steps that touch neither the target, the flag nor what a half mines under. */
  ghost predicate SameTargets(s: State, t: State) {
    && t.env == s.env && |t.halves| == |s.halves|
    && forall i :: 0 <= i < |s.halves| ==> t.halves[i].powNbits == s.halves[i].powNbits
  }

  lemma SameTargetsSynced(s: State, t: State, u: bool)
    requires SameTargets(s, t) && Synced(s, u)
    ensures Synced(t, u)
  {
  }

  /** The GPU, the rebuilder and the installer leave targets and the mining loop alone. */
  lemma DevicesLeaveTargets(c: Config, s: State, a: Action)
    requires a.Gpu? || a.Rebuild? || a.Install?
    ensures var t := Step(c, s, a); SameTargets(s, t) && t.m == s.m
  {
  }

  lemma SameKeepsTarget(c: Config, s: State, t: State, u: bool)
    requires TargetInv(c, s, u) && SameTargets(s, t) && t.m == s.m
    ensures TargetInv(c, t, u)
  {
  }

  lemma StoreKeepsTarget(c: Config, s: State, n: nat, u: bool)
    requires TargetInv(c, s, u) && !Disturbing(s, StoreTarget(n))
    ensures TargetInv(c, s.(env := s.env.(targetNbits := n)), true)
  {
  }

  lemma EnvKeepsTarget(c: Config, s: State, a: Action, u: bool)
    requires TargetInv(c, s, u) && !Disturbing(s, a) && !a.MinerStep?
    ensures TargetInv(c, Step(c, s, a), UnmarkedAfter(u, a))
  {
    match a
    case Publish =>
    case MarkDirty =>
    case StoreTarget(n) => StoreKeepsTarget(c, s, n, u);
    case _ =>
      DevicesLeaveTargets(c, s, a);
      hide Step, SameTargets, TargetInv;
      SameKeepsTarget(c, s, Step(c, s, a), u);
  }

  lemma InstallKeepsTarget(c: Config, s: State, u: bool, hit: bool, ok: bool, batch: nat)
    requires Sound(c, s) && TargetInv(c, s, u) && (s.m.pc.Adopt? || s.m.pc.InstallHere? || s.m.pc.BindLoad?)
    ensures TargetInv(c, MinerNext(c, s, hit, ok, batch), u)
  {
  }

  lemma CommitKeepsTarget(c: Config, s: State, u: bool, h: nat, n: nat, sync: bool)
    requires Sound(c, s) && TargetInv(c, s, u) && s.m.pc == BindCommit(h, n, sync)
    ensures TargetInv(c, BindCommitStep(s, h, n, sync), u)
  {
  }

  lemma BoundKeepsTarget(c: Config, s: State, u: bool, hit: bool, ok: bool, batch: nat)
    requires Sound(c, s) && TargetInv(c, s, u) && (s.m.pc.BindSync? || s.m.pc.Settle?)
    ensures TargetInv(c, MinerNext(c, s, hit, ok, batch), u)
  {
  }

  lemma RebindKeepsTarget(c: Config, s: State, u: bool, hit: bool, ok: bool, batch: nat)
    requires Sound(c, s) && TargetInv(c, s, u) && Rebinding(s.m.pc)
    ensures TargetInv(c, MinerNext(c, s, hit, ok, batch), u)
  {
    hide TargetInv;
    var pc := s.m.pc;
    if pc.BindCommit? { CommitKeepsTarget(c, s, u, pc.h, pc.nbits, pc.sync); }
    else if pc.BindSync? || pc.Settle? { BoundKeepsTarget(c, s, u, hit, ok, batch); }
    else { InstallKeepsTarget(c, s, u, hit, ok, batch); }
  }

  lemma ChoosingKeepsTarget(c: Config, s: State, u: bool, hit: bool, ok: bool, batch: nat)
    requires TargetInv(c, s, u)
    requires var pc := s.m.pc; pc.Top? || pc.Decide? || pc.Submit? || pc.TakeReady? || pc.CheckReady?
    ensures TargetInv(c, MinerNext(c, s, hit, ok, batch), u)
  {
  }

  lemma PollingKeepsTarget(c: Config, s: State, u: bool, hit: bool, ok: bool, batch: nat)
    requires TargetInv(c, s, u)
    requires var pc := s.m.pc; pc.PollTarget? || pc.LoadTarget? || pc.UploadTargets? || pc.SyncTargets?
    ensures TargetInv(c, MinerNext(c, s, hit, ok, batch), u)
  {
  }

  lemma DrainingKeepsTarget(c: Config, s: State, u: bool, hit: bool, ok: bool, batch: nat)
    requires s.m.pc.Drain? || s.m.pc.Quiesce?
    ensures TargetInv(c, MinerNext(c, s, hit, ok, batch), u)
  {
  }

  predicate Batching(pc: Pc) {
    pc.Mine? || pc.WaitFree? || pc.Fire? || pc.Await? || pc.Emit?
  }

  lemma BatchLeavesTargets(c: Config, s: State, hit: bool, ok: bool, batch: nat)
    requires Batching(s.m.pc)
    ensures var t := MinerNext(c, s, hit, ok, batch); SameTargets(s, t) && (t.m.pc.Top? || Batching(t.m.pc))
  {
  }

  lemma LoopKeepsTarget(c: Config, s: State, u: bool, hit: bool, ok: bool, batch: nat)
    requires TargetInv(c, s, u) && !Rebinding(s.m.pc)
    ensures TargetInv(c, MinerNext(c, s, hit, ok, batch), u)
  {
    var pc := s.m.pc;
    if Batching(pc) {
      BatchLeavesTargets(c, s, hit, ok, batch);
      hide MinerNext, SameTargets;
      SameTargetsSynced(s, MinerNext(c, s, hit, ok, batch), u);
    } else {
      hide MinerNext;
      if pc.Drain? || pc.Quiesce? { DrainingKeepsTarget(c, s, u, hit, ok, batch); }
      else if pc.PollTarget? || pc.LoadTarget? || pc.UploadTargets? || pc.SyncTargets? {
        PollingKeepsTarget(c, s, u, hit, ok, batch);
      } else {
        ChoosingKeepsTarget(c, s, u, hit, ok, batch);
      }
    }
  }

  lemma {:induction false} RunKeepsTarget(c: Config, run: seq<Action>)
    requires ConfigOk(c) && Undisturbed(c, run)
    ensures TargetInv(c, Exec(c, run), Unmarked(run))
    decreases |run|
  {
    hide TargetInv, Disturbing, Sound, Inv;
    if run == [] {
      assert TargetInv(c, Init(c), false) by { InitTarget(c); }
    } else {
      var p, a := run[..|run| - 1], run[|run| - 1];
      RunKeepsTarget(c, p);
      EveryRunIsSafe(c, p);
      var s := Exec(c, p);
      InvIsSound(c, s);
      if a.MinerStep? {
        if Rebinding(s.m.pc) { RebindKeepsTarget(c, s, Unmarked(p), a.hit, a.ok, a.batch); }
        else { LoopKeepsTarget(c, s, Unmarked(p), a.hit, a.ok, a.batch); }
      } else {
        EnvKeepsTarget(c, s, a, Unmarked(p));
      }
    }
  }

  lemma InitTarget(c: Config)
    ensures TargetInv(c, Init(c), false)
  {
  }

  // ----- main results -----

  /**
   With no store in a rebind window, every announced change has reached every half whenever the
   loop is about to mine with the flag clear.
   */
  lemma SettledTargetIsLive(c: Config, run: seq<Action>, h: nat)
    requires ConfigOk(c) && Undisturbed(c, run) && !Unmarked(run)
    requires var s := Exec(c, run); s.m.pc.Mine? && !s.env.dirty && s.env.targetNbits != 0
    requires h < c.halves
    ensures var s := Exec(c, run); |s.halves| == c.halves && s.halves[h].powNbits == s.env.targetNbits
  {
    hide Exec, Undisturbed, Unmarked, HalfInv, InstallInv;
    RunKeepsTarget(c, run);
    EveryRunIsSafe(c, run);
  }

  /** The run goes on inside the window. */
  ghost predicate StaysInWindow(c: Config, run: seq<Action>, more: seq<Action>) {
    forall k :: 1 <= k <= |more| ==> InWindow(Exec(c, run + more[..k]).m.pc)
  }

  /** Half 0 is settled by the load that opens the window, whatever is stored after it. */
  ghost predicate FirstHalfIs(s: State, v: nat, was: nat) {
    && |s.halves| > 0
    && if s.m.pc.BindCommit? && s.m.pc.h == 0 then s.m.pc.nbits == v && s.halves[0].powNbits == was
       else s.halves[0].powNbits == (if v != 0 then v else was)
  }

  /** Every half bound so far has v, and v is what the next ones will get. */
  ghost predicate AllGet(c: Config, s: State, v: nat) {
    && (c.jobTarget(s.m.current) == 0 || c.jobTarget(s.m.current) == v)
    && (s.env.targetNbits == v || (s.m.pc.BindCommit? && s.m.pc.h == 0))
    && FirstAt(s.halves, BoundSoFar(s), v)
    && (s.m.pc.BindCommit? ==> s.m.pc.nbits == v)
  }

  /** Halves uploaded to by the rebind under way. */
  function BoundSoFar(s: State): nat {
    match s.m.pc
    case InstallHere(h) => h
    case BindLoad(h, _) => h
    case BindCommit(h, _, _) => h
    case BindSync(h, _) => h + 1
    case _ => |s.halves|
  }

  lemma WindowKeepsFirst(c: Config, s: State, a: Action, v: nat, was: nat)
    requires Sound(c, s) && InWindow(s.m.pc) && FirstHalfIs(s, v, was) && InWindow(Step(c, s, a).m.pc)
    ensures FirstHalfIs(Step(c, s, a), v, was)
  {
  }

  lemma MinerKeepsAll(c: Config, s: State, v: nat, hit: bool, ok: bool, batch: nat)
    requires Sound(c, s) && InWindow(s.m.pc) && AllGet(c, s, v) && v != 0
    requires InWindow(MinerNext(c, s, hit, ok, batch).m.pc)
    ensures AllGet(c, MinerNext(c, s, hit, ok, batch), v)
  {
  }

  lemma WindowKeepsAll(c: Config, s: State, a: Action, v: nat)
    requires Sound(c, s) && InWindow(s.m.pc) && AllGet(c, s, v) && InWindow(Step(c, s, a).m.pc)
    requires v != 0 && (a.StoreTarget? ==> a.nbits == v)
    ensures AllGet(c, Step(c, s, a), v)
  {
    match a
    case Publish =>
    case MarkDirty =>
    case StoreTarget(n) =>
    case MinerStep(hit, ok, batch) =>
      hide AllGet;
      MinerKeepsAll(c, s, v, hit, ok, batch);
    case _ =>
      DevicesLeaveTargets(c, s, a);
      hide Step;
  }

  ghost predicate StoresOnly(more: seq<Action>, n: nat) {
    forall k :: 0 <= k < |more| && more[k].StoreTarget? ==> more[k].nbits == n
  }

  lemma {:induction false} WindowOutcome(c: Config, run: seq<Action>, more: seq<Action>)
    requires ConfigOk(c) && Exec(c, run).m.pc.BindLoad? && Exec(c, run).m.pc.h == 0
    requires more != [] && more[0].MinerStep? && StaysInWindow(c, run, more)
    ensures var s, t := Exec(c, run), Exec(c, run + more); var v := Loaded(c, s);
      && |s.halves| > 0 && FirstHalfIs(t, v, s.halves[0].powNbits)
      && (v != 0 && StoresOnly(more, v) ==> AllGet(c, t, v))
    decreases |more|
  {
    hide Step, Init, Inv, FirstHalfIs, AllGet, Sound, InWindow;
    var p, a := more[..|more| - 1], more[|more| - 1];
    assert run + more == (run + p) + [a];
    ExecStep(c, run + p, a);
    EveryRunIsSafe(c, run + p);
    InvIsSound(c, Exec(c, run + p));
    var s := Exec(c, run);
    if |more| == 1 {
      assert run + p == run;
      OpensWindow(c, s, a);
    } else {
      assert StaysInWindow(c, run, p) by {
        forall k | 1 <= k <= |p| ensures InWindow(Exec(c, run + p[..k]).m.pc) { assert p[..k] == more[..k]; }
      }
      WindowOutcome(c, run, p);
      assert more[..|more| - 1] == p && more[..|more|] == more && p[..|p|] == p;
      var u, v := Exec(c, run + p), Loaded(c, s);
      assert InWindow(u.m.pc) && InWindow(Step(c, u, a).m.pc);
      WindowKeepsFirst(c, u, a, v, s.halves[0].powNbits);
      if v != 0 && StoresOnly(more, v) {
        assert StoresOnly(p, v);
        WindowKeepsAll(c, u, a, v);
      }
    }
  }

  lemma OpensWindow(c: Config, s: State, a: Action)
    requires Sound(c, s) && s.m.pc.BindLoad? && s.m.pc.h == 0 && a.MinerStep?
    ensures var t, v := Step(c, s, a), Loaded(c, s);
      |s.halves| > 0 && FirstHalfIs(t, v, s.halves[0].powNbits) && AllGet(c, t, v)
  {
  }

  /**
   The converse: a target stored inside the window reaches every half before the flag is cleared
   exactly when it is the one the window opened with; any other is lost with the flag clear.
   */
  lemma LostIff(c: Config, run: seq<Action>, more: seq<Action>, n: nat, settle: Action)
    requires ConfigOk(c) && Exec(c, run).m.pc.BindLoad? && Exec(c, run).m.pc.h == 0
    requires more != [] && more[0].MinerStep? && StaysInWindow(c, run, more)
    requires Exec(c, run + more).m.pc.Settle? && settle.MinerStep?
    requires StoreTarget(n) in more && StoresOnly(more, n) && Loaded(c, Exec(c, run)) != 0
    ensures var t, v := Exec(c, run + more + [settle]), Loaded(c, Exec(c, run));
      && !t.env.dirty && (t.m.pc.Mine? || t.m.pc.PollTarget?) && |t.halves| == c.halves
      && ((forall h :: 0 <= h < c.halves ==> t.halves[h].powNbits == n) <==> n == v)
  {
    hide Exec, InWindow, HalfInv, InstallInv;
    WindowOutcome(c, run, more);
    EveryRunIsSafe(c, run + more);
    ExecStep(c, run + more, settle);
    var s, t, v := Exec(c, run + more), Exec(c, run + more + [settle]), Loaded(c, Exec(c, run));
    assert t.halves == s.halves && s.halves[0].powNbits == v;
    if n == v { assert AllGet(c, s, v); }
  }

  // ----- a lost update -----

  function TwoHalves(): Config {
    Config(2, false, false, 0, _ => 0)
  }

  function Next(): Action {
    MinerStep(false, true, 1)
  }

  /** The synchronous bind of one half: install, load, commit, the upload runs, rebind. */
  function BindHalf(h: nat): seq<Action> {
    [Next(), Next(), Next()] + [Gpu(h), Next()]
  }

  /** Target 7 is announced and a job published; the loop binds both halves and is about to settle. */
  function UpToSettle(): seq<Action> {
    [StoreTarget(7), MarkDirty, Publish] + [Next(), Next(), Next()] + BindHalf(0) + BindHalf(1)
  }

  lemma ExecThree(c: Config, run: seq<Action>, a: Action, b: Action, d: Action)
    ensures Exec(c, run + [a, b, d]) == Step(c, Step(c, Step(c, Exec(c, run), a), b), d)
  {
    hide Step, Exec;
    ExecStep(c, run, a);
    ExecStep(c, run + [a], b);
    ExecStep(c, run + [a] + [b], d);
    assert run + [a] + [b] + [d] == run + [a, b, d];
  }

  lemma ExecTwo(c: Config, run: seq<Action>, a: Action, b: Action)
    ensures Exec(c, run + [a, b]) == Step(c, Step(c, Exec(c, run), a), b)
  {
    hide Step, Exec;
    ExecStep(c, run, a);
    ExecStep(c, run + [a], b);
    assert run + [a] + [b] == run + [a, b];
  }

  lemma HalfIsUploaded(run: seq<Action>, h: nat)
    requires var s := Exec(TwoHalves(), run);
      && s.m.pc == InstallHere(h) && h < 2 == |s.halves| && s.halves[h].stream == [] && s.env.targetNbits == 7
    ensures var s, t := Exec(TwoHalves(), run), Exec(TwoHalves(), run + [Next(), Next(), Next()]);
      && t.env == s.env && t.m.pc == BindSync(h, true) && |t.halves| == 2
      && t.halves[h].powNbits == 7 && t.halves[h].stream == [Upload(7)] && t.halves[1 - h] == s.halves[1 - h]
  {
    hide Exec;
    ExecThree(TwoHalves(), run, Next(), Next(), Next());
    assert [] + [Upload(7)] == [Upload(7)];
  }

  lemma HalfIsBound(run: seq<Action>, h: nat)
    requires var s := Exec(TwoHalves(), run);
      && s.m.pc == InstallHere(h) && h < 2 == |s.halves| && s.halves[h].stream == [] && s.env.targetNbits == 7
    ensures var s, t := Exec(TwoHalves(), run), Exec(TwoHalves(), run + BindHalf(h));
      && t.env == s.env && t.m.pc == (if h == 1 then Settle(true) else InstallHere(1)) && |t.halves| == 2
      && t.halves[h].powNbits == 7 && t.halves[1 - h] == s.halves[1 - h]
  {
    hide Exec;
    HalfIsUploaded(run, h);
    ExecTwo(TwoHalves(), run + [Next(), Next(), Next()], Gpu(h), Next());
    assert run + BindHalf(h) == run + [Next(), Next(), Next()] + [Gpu(h), Next()];
  }

  lemma FirstInstall()
    ensures var s := Exec(TwoHalves(), [StoreTarget(7), MarkDirty, Publish] + [Next(), Next(), Next()]);
      && s.m.pc == InstallHere(0) && s.env == Env(1, 7, true)
      && |s.halves| == 2 && s.halves[0].stream == [] && s.halves[1].stream == []
  {
    var c := TwoHalves();
    assert Exec(c, []) == Init(c);
    hide Exec;
    var r0: seq<Action> := [StoreTarget(7), MarkDirty, Publish];
    ExecThree(c, [], StoreTarget(7), MarkDirty, Publish);
    assert [] + r0 == r0;
    assert Exec(c, r0) == Init(c).(env := Env(1, 7, true));
    ExecThree(c, r0, Next(), Next(), Next());
  }

  /** 9 is stored and announced, the flag is cleared, and both halves go on mining 7. */
  lemma UpdateIsLost()
    ensures ConfigOk(TwoHalves())
    ensures var t := Exec(TwoHalves(), UpToSettle() + [StoreTarget(9), MarkDirty, Next()]);
      && t.m.pc.Mine? && t.env == Env(1, 9, false)
      && |t.halves| == 2 && t.halves[0].powNbits == 7 && t.halves[1].powNbits == 7
  {
    hide Exec, BindHalf;
    var r := [StoreTarget(7), MarkDirty, Publish] + [Next(), Next(), Next()];
    FirstInstall();
    HalfIsBound(r, 0);
    HalfIsBound(r + BindHalf(0), 1);
    ExecThree(TwoHalves(), r + BindHalf(0) + BindHalf(1), StoreTarget(9), MarkDirty, Next());
  }
}
