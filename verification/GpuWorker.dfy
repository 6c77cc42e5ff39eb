/**
 The per-GPU worker as interleaved atomic steps of three threads (mining loop, deferred share
 rebuilder, background installer), the GPU streams, and an environment that publishes jobs and
 changes the target. A run is any sequence of actions; a thread whose guard is false stutters.
 */
module GpuWorker {
  import opened Wrappers

  /** A SigmaContext, named by its publication number; 0 is null. */
  type Sigma = nat

  /** jobTarget(s) is the job's own nbits, 0 when the job does not set one. */
  datatype Config = Config(halves: nat, async: bool, defer: bool, seedBase: nat, jobTarget: Sigma -> nat)

  predicate ConfigOk(c: Config) {
    c.halves == 2 || (c.halves == 3 && c.defer)
  }

  /** What a batch was executed under: recorded by the device in the headers it writes. */
  datatype Launch = Launch(sigma: Sigma, seed: nat, count: nat, target: nat)

  /** Work queued on a half's stream; executed in order, at any later time. */
  datatype Op = Upload(nbits: nat) | Run(sigma: Sigma, seed: nat, count: nat)

  datatype Half = Half(bound: Sigma, powNbits: nat, devTarget: nat, headers: Option<Launch>,
                       stream: seq<Op>, batchSeed: nat, batchMined: nat, pending: nat)

  datatype Job = Job(half: nat, nonce: nat, target: nat, sigma: Sigma, header: Launch)

  datatype Pc =
    | Top
    | Decide(seen: Sigma)
    | Submit(seen: Sigma)
    | TakeReady
    | CheckReady(taken: Sigma)
    | Drain(next: Sigma, h: nat, sync: bool)
    | Quiesce(next: Sigma, h: nat, sync: bool)
    | Adopt(next: Sigma, sync: bool)
    | InstallHere(h: nat)
    | BindLoad(h: nat, sync: bool)
    | BindCommit(h: nat, nbits: nat, sync: bool)
    | BindSync(h: nat, sync: bool)
    | Settle(sync: bool)
    | PollTarget
    | LoadTarget
    | UploadTargets(nbits: nat)
    | SyncTargets(h: nat)
    | Mine
    | WaitFree(steady: bool)
    | Fire(steady: bool)
    | Await
    | Emit(k: nat)

  /** The mining loop's locals; log is the history of launched batches. */
  datatype Miner = Miner(pc: Pc, current: Sigma, first: bool, launchI: nat, warm: nat,
                         iter: nat, batch: nat, requested: Sigma, log: seq<Launch>)

  datatype Shares = Shares(queue: seq<Job>, hand: Option<Job>, sent: seq<Job>)

  /** Installer slots, and which contexts are resident, freed, or were ever made current. */
  datatype Installer = Installer(pending: Sigma, installing: Sigma, ready: Sigma, failed: Sigma,
                                 installed: set<Sigma>, freed: set<Sigma>, adopted: set<Sigma>)

  datatype Env = Env(published: Sigma, targetNbits: nat, dirty: bool)

  datatype State = State(env: Env, m: Miner, halves: seq<Half>, sh: Shares, inst: Installer)

  datatype Action =
    | Publish
    | StoreTarget(nbits: nat)
    | MarkDirty
    | Gpu(h: nat)
    | Rebuild(ok: bool)
    | Install(ok: bool)
    | MinerStep(hit: bool, ok: bool, batch: nat)

  const IdleHalf := Half(0, 0, 0, None, [], 0, 0, 0)

  function Init(c: Config): State {
    State(Env(0, 0, false), Miner(Top, 0, true, 0, 0, 0, 1, 0, []), seq(c.halves, _ => IdleHalf),
          Shares([], None, []), Installer(0, 0, 0, 0, {}, {}, {}))
  }

  function Goto(s: State, pc: Pc): State {
    s.(m := s.m.(pc := pc))
  }

  function SetHalf(s: State, h: nat, half: Half): State
    requires h < |s.halves|
  {
    s.(halves := s.halves[h := half])
  }

  // ----- the GPU, the rebuilder and the installer -----

  function GpuStep(half: Half): Half {
    if half.stream == [] then half
    else match half.stream[0]
      case Upload(n) => half.(stream := half.stream[1..], devTarget := n)
      case Run(sigma, seed, count) =>
        half.(stream := half.stream[1..], headers := Some(Launch(sigma, seed, count, half.devTarget)))
  }

  function RebuildStep(s: State, ok: bool): State {
    if s.sh.hand.None? then
      if s.sh.queue == [] then s
      else s.(sh := s.sh.(hand := Some(s.sh.queue[0]), queue := s.sh.queue[1..]))
    else
      var job := s.sh.hand.value;
      var s1 := s.(sh := s.sh.(hand := None, sent := if ok then s.sh.sent + [job] else s.sh.sent));
      if job.half < |s.halves| && s.halves[job.half].pending > 0 then
        var half := s.halves[job.half];
        SetHalf(s1, job.half, half.(pending := half.pending - 1))
      else s1
  }

  function InstallStep(i: Installer, ok: bool): Installer {
    if i.installing == 0 then i.(installing := i.pending, pending := 0)
    else if !ok then i.(installing := 0, failed := i.installing)
    else i.(installing := 0, ready := i.installing, installed := i.installed + {i.installing},
            freed := if i.ready != 0 && i.ready != i.installing then i.freed + {i.ready} else i.freed)
  }

  // ----- the mining loop, one atomic step per program point -----

  function BeginSync(s: State, next: Sigma): State {
    Goto(s, if s.m.current != 0 then Drain(next, 0, true) else Adopt(next, true))
  }

  function DecideStep(c: Config, s: State, seen: Sigma): State {
    if seen == 0 then Goto(s, if c.async then TakeReady else PollTarget)
    else if c.async && s.m.current != 0 then
      if s.inst.failed == seen then BeginSync(s.(inst := s.inst.(failed := 0)), seen)
      else Goto(s, Submit(seen))
    else BeginSync(s, seen)
  }

  function SubmitStep(s: State, seen: Sigma): State {
    if seen == s.m.requested then Goto(s, TakeReady)
    else Goto(s.(m := s.m.(requested := seen), inst := s.inst.(pending := seen)), TakeReady)
  }

  function CheckReadyStep(s: State, r: Sigma): State {
    if r == s.env.published && r != s.m.current then Goto(s, Drain(r, 0, false))
    else if r != s.m.current then Goto(s.(inst := s.inst.(freed := s.inst.freed + {r})), PollTarget)
    else Goto(s, PollTarget)
  }

  function DrainStep(c: Config, s: State, next: Sigma, h: nat, sync: bool): State {
    if h >= c.halves || h >= |s.halves| then Goto(s, Quiesce(next, 0, sync))
    else if s.halves[h].pending == 0 then Goto(s, Drain(next, h + 1, sync))
    else s
  }

  function QuiesceStep(c: Config, s: State, next: Sigma, h: nat, sync: bool): State {
    if h >= c.halves || h >= |s.halves| then Goto(s, Adopt(next, sync))
    else if s.halves[h].stream == [] then Goto(s, Quiesce(next, h + 1, sync))
    else s
  }

  function AdoptStep(s: State, next: Sigma, sync: bool, batch: nat): State {
    var s1 := s.(m := s.m.(current := next, batch := batch), inst := s.inst.(adopted := s.inst.adopted + {next}));
    Goto(s1, if sync then InstallHere(0) else BindLoad(0, false))
  }

  function InstallHereStep(s: State, h: nat, ok: bool): State {
    if ok then Goto(s.(inst := s.inst.(installed := s.inst.installed + {s.m.current})), BindLoad(h, true))
    else Goto(s.(m := s.m.(current := 0, first := true)), Top)
  }

  function BindLoadStep(c: Config, s: State, h: nat, sync: bool): State {
    var job := c.jobTarget(s.m.current);
    Goto(s, BindCommit(h, if job != 0 then job else s.env.targetNbits, sync))
  }

  function UploadTo(half: Half, nbits: nat): Half {
    if nbits == 0 then half else half.(stream := half.stream + [Upload(nbits)], powNbits := nbits)
  }

  function BindCommitStep(s: State, h: nat, nbits: nat, sync: bool): State
    requires h < |s.halves|
  {
    var s1 := s.(env := s.env.(targetNbits := nbits));
    Goto(SetHalf(s1, h, UploadTo(s.halves[h], nbits)), BindSync(h, sync))
  }

  /** A failed bind of the synchronous path forgets the job; the swap path does not catch. */
  function BindSyncStep(c: Config, s: State, h: nat, sync: bool, ok: bool): State
    requires h < |s.halves|
  {
    if sync && !ok then Goto(s.(m := s.m.(current := 0, first := true)), Top)
    else if s.halves[h].stream != [] then s
    else
      var s1 := SetHalf(s, h, s.halves[h].(bound := s.m.current));
      Goto(s1, if h + 1 >= c.halves then Settle(sync)
               else if sync then InstallHere(h + 1) else BindLoad(h + 1, false))
  }

  function SettleStep(s: State, sync: bool): State {
    Goto(s.(env := s.env.(dirty := false), m := s.m.(first := true)), if sync then Mine else PollTarget)
  }

  function UploadAll(halves: seq<Half>, nbits: nat): (r: seq<Half>)
    ensures |r| == |halves|
  {
    seq(|halves|, i requires 0 <= i < |halves| => UploadTo(halves[i], nbits))
  }

  function SyncTargetsStep(c: Config, s: State, h: nat): State {
    if h >= c.halves || h >= |s.halves| then Goto(s, Mine)
    else if s.halves[h].stream == [] then Goto(s, SyncTargets(h + 1))
    else s
  }

  /** Two halves keep their launch position across a job switch, three restart at 0. */
  function MineStep(c: Config, s: State): State {
    if s.m.current == 0 then Goto(s, Top)
    else
      var s1 := if s.m.first
                then s.(m := s.m.(first := false, warm := if c.halves == 3 then 2 else 1,
                                  launchI := if c.halves == 3 then 0 else s.m.launchI))
                else s;
      Goto(s1, WaitFree(s1.m.warm == 0))
  }

  function WaitFreeStep(s: State, steady: bool): State {
    if s.m.launchI < |s.halves| && s.halves[s.m.launchI].pending == 0 then Goto(s, Fire(steady)) else s
  }

  /** 64-bit seed arithmetic. */
  function NonceAt(seed: nat, k: nat): nat {
    (seed + k) % 0x1_0000_0000_0000_0000
  }

  function FireStep(c: Config, s: State, steady: bool): State
    requires s.m.launchI < |s.halves| && c.halves > 0
  {
    var half := s.halves[s.m.launchI];
    var seed := NonceAt(c.seedBase, s.m.iter);
    var half1 := half.(batchSeed := seed, batchMined := half.powNbits, headers := None,
                       stream := half.stream + [Run(half.bound, seed, s.m.batch)]);
    var m1 := s.m.(iter := s.m.iter + s.m.batch, launchI := if s.m.launchI + 1 < c.halves then s.m.launchI + 1 else 0,
                   log := s.m.log + [Launch(half.bound, seed, s.m.batch, half.powNbits)],
                   warm := if steady then s.m.warm else (if s.m.warm > 0 then s.m.warm - 1 else 0));
    Goto(SetHalf(s, s.m.launchI, half1).(m := m1), if steady then Await else Top)
  }

  predicate NoRun(ops: seq<Op>) {
    forall i :: 0 <= i < |ops| ==> !ops[i].Run?
  }

  function AwaitStep(s: State): State {
    if s.m.launchI < |s.halves| && NoRun(s.halves[s.m.launchI].stream) then Goto(s, Emit(0)) else s
  }

  function TriggerOf(s: State, h: nat, k: nat): Job
    requires h < |s.halves| && s.halves[h].headers.Some?
  {
    var half := s.halves[h];
    Job(h, NonceAt(half.batchSeed, k),
        if half.batchMined != 0 then half.batchMined else s.env.targetNbits,
        s.m.current, half.headers.value)
  }

  function EmitStep(c: Config, s: State, k: nat, hit: bool, ok: bool): State {
    var h := s.m.launchI;
    if k >= s.m.batch then Goto(s, Top)
    else if !hit || h >= |s.halves| || s.halves[h].headers.None? then Goto(s, Emit(k + 1))
    else
      var job := TriggerOf(s, h, k);
      var s1 := if c.defer
                then SetHalf(s, h, s.halves[h].(pending := s.halves[h].pending + 1))
                     .(sh := s.sh.(queue := s.sh.queue + [job]))
                else if ok then s.(sh := s.sh.(sent := s.sh.sent + [job]))
                else s;
      Goto(s1, Emit(k + 1))
  }

  function MinerNext(c: Config, s: State, hit: bool, ok: bool, batch: nat): State {
    match s.m.pc
    case Top => Goto(s, Decide(if s.env.published != s.m.current then s.env.published else 0))
    case Decide(seen) => DecideStep(c, s, seen)
    case Submit(seen) => SubmitStep(s, seen)
    case TakeReady => Goto(s.(inst := s.inst.(ready := 0)),
                           if s.inst.ready != 0 then CheckReady(s.inst.ready) else PollTarget)
    case CheckReady(r) => CheckReadyStep(s, r)
    case Drain(next, h, sync) => DrainStep(c, s, next, h, sync)
    case Quiesce(next, h, sync) => QuiesceStep(c, s, next, h, sync)
    case Adopt(next, sync) => AdoptStep(s, next, sync, batch)
    case InstallHere(h) => InstallHereStep(s, h, ok)
    case BindLoad(h, sync) => BindLoadStep(c, s, h, sync)
    case BindCommit(h, nbits, sync) => if h < |s.halves| then BindCommitStep(s, h, nbits, sync) else s
    case BindSync(h, sync) => if h < |s.halves| then BindSyncStep(c, s, h, sync, ok) else s
    case Settle(sync) => SettleStep(s, sync)
    case PollTarget => Goto(s.(env := s.env.(dirty := false)), if s.env.dirty then LoadTarget else Mine)
    case LoadTarget => Goto(s, UploadTargets(s.env.targetNbits))
    case UploadTargets(nbits) => Goto(s.(halves := UploadAll(s.halves, nbits)), SyncTargets(0))
    case SyncTargets(h) => SyncTargetsStep(c, s, h)
    case Mine => MineStep(c, s)
    case WaitFree(steady) => WaitFreeStep(s, steady)
    case Fire(steady) => if s.m.launchI < |s.halves| && c.halves > 0 then FireStep(c, s, steady) else s
    case Await => AwaitStep(s)
    case Emit(k) => EmitStep(c, s, k, hit, ok)
  }

  function Step(c: Config, s: State, a: Action): State {
    match a
    case Publish => s.(env := s.env.(published := s.env.published + 1))
    case StoreTarget(n) => s.(env := s.env.(targetNbits := n))
    case MarkDirty => s.(env := s.env.(dirty := true))
    case Gpu(h) => if h < |s.halves| then SetHalf(s, h, GpuStep(s.halves[h])) else s
    case Rebuild(ok) => RebuildStep(s, ok)
    case Install(ok) => s.(inst := InstallStep(s.inst, ok))
    case MinerStep(hit, ok, batch) => MinerNext(c, s, hit, ok, batch)
  }

  /** The state after any interleaving of actions. */
  function Exec(c: Config, run: seq<Action>): State {
    if run == [] then Init(c) else Step(c, Exec(c, run[..|run| - 1]), run[|run| - 1])
  }
}
