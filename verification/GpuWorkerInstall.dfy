/** The background installer: slot order, freed contexts, and that no request is ever lost. */
module GpuWorkerInstall {
  import opened GpuWorker

  /** A context taken out of the ready slot and not yet adopted or dropped. */
  function Taken(pc: Pc): Sigma {
    match pc
    case CheckReady(r) => r
    case Drain(next, _, false) => next
    case Quiesce(next, _, false) => next
    case Adopt(next, false) => next
    case _ => 0
  }

  /** A context about to be adopted by the synchronous path. */
  function Syncing(pc: Pc): Sigma {
    match pc
    case Drain(next, _, true) => next
    case Quiesce(next, _, true) => next
    case Adopt(next, true) => next
    case _ => 0
  }

  function Seen(pc: Pc): Sigma {
    match pc
    case Decide(seen) => seen
    case Submit(seen) => seen
    case _ => 0
  }

  /** A swap decided on: the context was the latest published when it was checked. */
  function Swapping(pc: Pc): Sigma {
    if pc.CheckReady? then 0 else Taken(pc)
  }

  predicate SyncBusy(pc: Pc) {
    || Syncing(pc) != 0 || pc.InstallHere?
    || (pc.BindLoad? && pc.sync) || (pc.BindCommit? && pc.sync) || (pc.BindSync? && pc.sync)
  }

  predicate Binding(pc: Pc) {
    pc.BindLoad? || pc.BindCommit? || pc.BindSync?
  }

  ghost predicate Below(xs: set<Sigma>, y: Sigma) {
    forall x :: x in xs ==> x < y
  }

  ghost predicate AtMost(xs: set<Sigma>, y: Sigma) {
    forall x :: x in xs ==> x <= y
  }

  /** Newest to oldest: requested = pending > installing > ready > taken; failed is none of them. */
  ghost predicate SlotOrder(i: Installer, q: Sigma, t: Sigma) {
    && (i.pending != 0 ==> i.pending == q)
    && (i.installing != 0 ==> i.installing <= q) && OlderThan(i.installing, i.pending)
    && (i.ready != 0 ==> i.ready <= q) && OlderThan(i.ready, i.installing) && OlderThan(i.ready, i.pending)
    && (i.failed != 0 ==> i.failed <= q && i.failed != i.ready && i.failed != t)
    && OlderThan(i.failed, i.installing) && OlderThan(i.failed, i.pending)
    && (t != 0 ==> t <= q) && OlderThan(t, i.ready) && OlderThan(t, i.installing) && OlderThan(t, i.pending)
  }

  predicate OlderThan(x: Sigma, y: Sigma) {
    x != 0 && y != 0 ==> x < y
  }

  /** Nothing waiting, being installed, ready or taken was adopted, and nothing live was freed. */
  ghost predicate Apart(i: Installer, t: Sigma) {
    && i.pending !in i.adopted && i.installing !in i.adopted && i.ready !in i.adopted && t !in i.adopted
    && i.pending !in i.freed && i.installing !in i.freed && i.ready !in i.freed && t !in i.freed
    && i.failed !in i.freed && 0 !in i.freed && 0 !in i.adopted
    && i.freed !! i.adopted
  }

  ghost predicate Quiet(i: Installer, q: Sigma) {
    i.pending == 0 && i.installing == 0 && (i.ready != 0 ==> i.ready < q)
  }

  ghost predicate Residency(s: State) {
    var i, pc := s.inst, s.m.pc;
    && (i.ready != 0 ==> i.ready in i.installed) && (Taken(pc) != 0 ==> Taken(pc) in i.installed)
    && (Binding(pc) ==> s.m.current in i.installed)
    && (forall h :: 0 <= h < |s.halves| && s.halves[h].bound != 0
          ==> s.halves[h].bound in i.installed && s.halves[h].bound in i.adopted)
  }

  /** Every requested context is somewhere: in a slot, in hand, adopted, or dropped as stale. */
  ghost predicate Accounted(i: Installer, q: Sigma, t: Sigma, y: Sigma) {
    q != 0 ==> q in {i.pending, i.installing, i.ready, i.failed, t, y} || q in i.adopted || q in i.freed
  }

  /** y is at least as new as everything requested, adopted or freed. */
  ghost predicate Newest(s: State, y: Sigma) {
    s.m.requested <= y <= s.env.published && Below(s.inst.freed, y) && AtMost(s.inst.adopted, y)
  }

  ghost predicate Frontier(s: State) {
    var i, m, p := s.inst, s.m, s.env.published;
    && m.requested <= p && Below(i.freed, p) && AtMost(i.adopted, p)
    && (Seen(m.pc) != 0 ==> Newest(s, Seen(m.pc)) && Seen(m.pc) != m.current)
    && (Syncing(m.pc) != 0 ==> Newest(s, Syncing(m.pc)) && i.ready < Syncing(m.pc))
    && (Swapping(m.pc) != 0 ==> AtMost(i.adopted, Swapping(m.pc)))
    && (m.current != 0 ==> m.current in i.adopted && AtMost(i.adopted, m.current))
    && (m.pc.Submit? ==> m.pc.seen != 0 && m.current != 0)
    && (m.pc.CheckReady? ==> m.pc.taken != 0)
    && (m.pc.Adopt? ==> m.pc.next != 0) && (m.pc.Drain? ==> m.pc.next != 0) && (m.pc.Quiesce? ==> m.pc.next != 0)
  }

  ghost predicate InstallInv(c: Config, s: State) {
    var i, m := s.inst, s.m;
    && SlotOrder(i, m.requested, Taken(m.pc)) && Apart(i, Taken(m.pc))
    && Frontier(s) && Residency(s)
    && Accounted(i, m.requested, Taken(m.pc), Syncing(m.pc))
    && (m.current == 0 || SyncBusy(m.pc) ==> Quiet(i, m.requested))
    && (m.current == 0 ==> !Binding(m.pc) && !m.pc.InstallHere?)
    && (!c.async ==> NeverAsync(s))
  }

  ghost predicate NeverAsync(s: State) {
    && s.inst.pending == s.inst.installing == s.inst.ready == s.inst.failed == s.m.requested == Taken(s.m.pc) == 0
    && s.inst.freed == {} && !s.m.pc.Submit? && !s.m.pc.TakeReady?
  }

  lemma InstallInit(c: Config)
    ensures InstallInv(c, Init(c))
  {
  }

  lemma InstallerKeepsInstall(c: Config, s: State, ok: bool)
    requires InstallInv(c, s)
    ensures InstallInv(c, s.(inst := InstallStep(s.inst, ok)))
  {
  }

  lemma PublishKeepsInstall(c: Config, s: State)
    requires InstallInv(c, s)
    ensures InstallInv(c, s.(env := s.env.(published := s.env.published + 1)))
  {
  }

  /** A context handed to the synchronous path: newest, in no slot, and nothing else under way. */
  lemma BeginSyncKeepsInstall(c: Config, s: State, seen: Sigma)
    requires InstallInv(c, s) && s.m.pc == Decide(seen) && seen != 0
    requires Quiet(s.inst, s.m.requested)
    ensures InstallInv(c, BeginSync(s, seen))
  {
    hide Apart, Residency;
    assert Residency(BeginSync(s, seen)) by { SameResidency(s, BeginSync(s, seen)); }
  }

  lemma SameResidency(s: State, t: State)
    requires Residency(s) && t.inst == s.inst && t.halves == s.halves && t.m.current == s.m.current
    requires Taken(t.m.pc) == 0 && !Binding(t.m.pc)
    ensures Residency(t)
  {
  }

  /** Consuming the failure marker of the newest request: nothing else can be pending. */
  lemma FailedIsQuiet(c: Config, s: State, seen: Sigma)
    requires InstallInv(c, s) && s.m.pc == Decide(seen) && seen != 0 && s.inst.failed == seen
    ensures Quiet(s.inst, s.m.requested) && s.m.requested == seen
  {
    hide Apart, Residency, Accounted;
  }

  lemma FailedFallsBack(c: Config, s: State, seen: Sigma)
    requires InstallInv(c, s) && s.m.pc == Decide(seen) && seen != 0
    requires s.m.current != 0 && s.inst.failed == seen
    ensures InstallInv(c, BeginSync(s.(inst := s.inst.(failed := 0)), seen))
  {
    FailedIsQuiet(c, s, seen);
    hide Quiet;
    assert Apart(s.inst.(failed := 0), 0);
  }

  lemma DecideKeepsInstall(c: Config, s: State)
    requires InstallInv(c, s) && s.m.pc.Decide?
    ensures InstallInv(c, DecideStep(c, s, s.m.pc.seen))
  {
    var seen := s.m.pc.seen;
    if seen != 0 && !(c.async && s.m.current != 0) {
      BeginSyncKeepsInstall(c, s, seen);
    } else if seen != 0 && s.inst.failed == seen {
      FailedFallsBack(c, s, seen);
    } else {
      hide SlotOrder, Apart, Accounted, Quiet, Residency;
      SameResidency(s, DecideStep(c, s, seen));
    }
  }

  lemma SubmitKeepsInstall(c: Config, s: State)
    requires InstallInv(c, s) && s.m.pc.Submit?
    ensures InstallInv(c, SubmitStep(s, s.m.pc.seen))
  {
  }

  lemma CheckReadyKeepsInstall(c: Config, s: State)
    requires InstallInv(c, s) && s.m.pc.CheckReady?
    ensures InstallInv(c, CheckReadyStep(s, s.m.pc.taken))
  {
  }

  lemma AdoptKeepsInstall(c: Config, s: State, batch: nat)
    requires InstallInv(c, s) && s.m.pc.Adopt?
    ensures InstallInv(c, AdoptStep(s, s.m.pc.next, s.m.pc.sync, batch))
  {
  }

  lemma TakeReadyKeepsInstall(c: Config, s: State, hit: bool, ok: bool, batch: nat)
    requires InstallInv(c, s) && s.m.pc.TakeReady?
    ensures InstallInv(c, MinerNext(c, s, hit, ok, batch))
  {
  }

  lemma InstallHereKeepsInstall(c: Config, s: State, h: nat, ok: bool)
    requires InstallInv(c, s) && s.m.pc == InstallHere(h)
    ensures InstallInv(c, InstallHereStep(s, h, ok))
  {
  }

  lemma BindSyncKeepsInstall(c: Config, s: State, h: nat, sync: bool, ok: bool)
    requires InstallInv(c, s) && s.m.pc == BindSync(h, sync) && h < |s.halves|
    ensures InstallInv(c, BindSyncStep(c, s, h, sync, ok))
  {
  }

  /** A step the invariant does not notice: same slots and job, and no new obligation of the pc. */
  ghost predicate Unnoticed(s: State, t: State) {
    && t.inst == s.inst && t.m.current == s.m.current && t.m.requested == s.m.requested
    && t.env.published == s.env.published && |t.halves| == |s.halves|
    && (forall h :: 0 <= h < |s.halves| ==> t.halves[h].bound == s.halves[h].bound)
    && Taken(t.m.pc) == Taken(s.m.pc) && Syncing(t.m.pc) == Syncing(s.m.pc)
    && Swapping(t.m.pc) == Swapping(s.m.pc) && Seen(t.m.pc) in {0, Seen(s.m.pc)}
    && (SyncBusy(t.m.pc) ==> SyncBusy(s.m.pc)) && (Binding(t.m.pc) ==> Binding(s.m.pc))
    && (t.m.pc == s.m.pc || !(t.m.pc.Submit? || t.m.pc.CheckReady? || t.m.pc.TakeReady? || t.m.pc.InstallHere?))
    && (t.m.pc.Adopt? || t.m.pc.Drain? || t.m.pc.Quiesce? ==> t.m.pc.next != 0)
  }

  lemma UnnoticedKeepsInstall(c: Config, s: State, t: State)
    requires InstallInv(c, s) && Unnoticed(s, t)
    ensures InstallInv(c, t)
  {
    hide SlotOrder, Apart, Accounted, Quiet;
  }

  predicate SwitchPc(pc: Pc) {
    pc.Drain? || pc.Quiesce? || pc.BindLoad? || pc.Settle? || pc.PollTarget?
  }

  predicate LoopPc(pc: Pc) {
    pc.LoadTarget? || pc.SyncTargets? || pc.Mine? || pc.WaitFree? || pc.Await?
  }

  lemma SwitchUnnoticed(c: Config, s: State, hit: bool, ok: bool, batch: nat)
    requires SwitchPc(s.m.pc) && (s.m.pc.Drain? || s.m.pc.Quiesce? ==> s.m.pc.next != 0)
    ensures Unnoticed(s, MinerNext(c, s, hit, ok, batch))
  {
  }

  lemma LoopUnnoticed(c: Config, s: State, hit: bool, ok: bool, batch: nat)
    requires LoopPc(s.m.pc)
    ensures Unnoticed(s, MinerNext(c, s, hit, ok, batch))
  {
  }

  lemma UploadUnnoticed(c: Config, s: State, hit: bool, ok: bool, batch: nat)
    requires s.m.pc.BindCommit? || s.m.pc.UploadTargets?
    ensures Unnoticed(s, MinerNext(c, s, hit, ok, batch))
  {
  }

  lemma BatchUnnoticed(c: Config, s: State, hit: bool, ok: bool, batch: nat)
    requires s.m.pc.Fire? || s.m.pc.Emit?
    ensures Unnoticed(s, MinerNext(c, s, hit, ok, batch))
  {
  }

  lemma TopKeepsInstall(c: Config, s: State, hit: bool, ok: bool, batch: nat)
    requires InstallInv(c, s) && s.m.pc.Top?
    ensures InstallInv(c, MinerNext(c, s, hit, ok, batch))
  {
    hide SlotOrder, Apart, Accounted, Quiet;
  }

  lemma BusyNextNonzero(c: Config, s: State)
    requires InstallInv(c, s)
    ensures s.m.pc.Drain? || s.m.pc.Quiesce? || s.m.pc.Adopt? ==> s.m.pc.next != 0
  {
  }

  lemma MinerKeepsInstall(c: Config, s: State, hit: bool, ok: bool, batch: nat)
    requires InstallInv(c, s)
    ensures InstallInv(c, MinerNext(c, s, hit, ok, batch))
  {
    hide InstallInv;
    var pc := s.m.pc;
    if pc.Decide? { DecideKeepsInstall(c, s); }
    else if pc.Submit? { SubmitKeepsInstall(c, s); }
    else if pc.TakeReady? { TakeReadyKeepsInstall(c, s, hit, ok, batch); }
    else if pc.CheckReady? { CheckReadyKeepsInstall(c, s); }
    else if pc.Adopt? { AdoptKeepsInstall(c, s, batch); }
    else if pc.InstallHere? { InstallHereKeepsInstall(c, s, pc.h, ok); }
    else if pc.BindSync? { if pc.h < |s.halves| { BindSyncKeepsInstall(c, s, pc.h, pc.sync, ok); } }
    else if pc.Top? { TopKeepsInstall(c, s, hit, ok, batch); }
    else {
      BusyNextNonzero(c, s);
      hide Unnoticed;
      if SwitchPc(pc) { SwitchUnnoticed(c, s, hit, ok, batch); }
      else if LoopPc(pc) { LoopUnnoticed(c, s, hit, ok, batch); }
      else if pc.Fire? || pc.Emit? { BatchUnnoticed(c, s, hit, ok, batch); }
      else { UploadUnnoticed(c, s, hit, ok, batch); }
      UnnoticedKeepsInstall(c, s, MinerNext(c, s, hit, ok, batch));
    }
  }

  lemma EnvUnnoticed(c: Config, s: State, a: Action)
    requires a.StoreTarget? || a.MarkDirty? || a.Gpu? || a.Rebuild?
    requires s.m.pc.Drain? || s.m.pc.Quiesce? || s.m.pc.Adopt? ==> s.m.pc.next != 0
    ensures Unnoticed(s, Step(c, s, a))
  {
  }

  lemma StepKeepsInstall(c: Config, s: State, a: Action)
    requires InstallInv(c, s)
    ensures InstallInv(c, Step(c, s, a))
  {
    match a
    case Publish => PublishKeepsInstall(c, s);
    case Install(ok) => InstallerKeepsInstall(c, s, ok);
    case MinerStep(hit, ok, batch) => MinerKeepsInstall(c, s, hit, ok, batch);
    case _ =>
      BusyNextNonzero(c, s);
      EnvUnnoticed(c, s, a);
      hide InstallInv, Unnoticed;
      UnnoticedKeepsInstall(c, s, Step(c, s, a));
  }
}
