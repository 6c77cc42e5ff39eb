/**
 The threaded nonce search, as a state machine over the atomic steps of its threads: strided
 nonces with 64-bit wrap-around, a found flag taken by compare-and-swap, and a separate store of
 the winning nonce. Every interleaving is a run.
 */
module ChallengeSearch {
  import opened Wrappers
  import opened Arithmetic
  import opened Challenge

  /** Next atomic action of a thread; Stored and Quit have returned. */
  datatype Pc = LoadFound | LoadCancel | Try | Store | Stored | Quit

  /** wrapped: the nonce has passed 2^64 at least once. */
  datatype Thread = Thread(nonce: nat, pc: Pc, wrapped: bool)

  datatype State = State(found: bool, foundNonce: nat, cancelled: bool, threads: seq<Thread>)

  datatype Action = Cancel | Run(thread: nat)

  /** Which nonces pass, and whether a cancel flag was given. */
  datatype Search = Search(passes: nat -> bool, cancellable: bool)

  function Returned(t: Thread): bool { t.pc == Stored || t.pc == Quit }

  /** The stop flags are polled on every 8192nd nonce of a thread. */
  function LoopHead(nonce: nat, n: nat): Pc
    requires n > 0
  {
    if nonce / n % 0x2000 == 0 then LoadFound else Try
  }

  /** Of any 8192 consecutive nonces of a thread below 2^64, exactly one polls. */
  lemma PollsOnceIn8192(nonce: nat, n: nat) returns (j: nat)
    requires n > 0
    ensures j < 0x2000
    ensures forall i: nat :: i < 0x2000 ==> (LoopHead(nonce + n * i, n).LoadFound? <==> i == j)
  {
    var r := nonce / n % 0x2000;
    j := if r == 0 then 0 else 0x2000 - r;
    hide LoopHead;
    forall i: nat | i < 0x2000 ensures LoopHead(nonce + n * i, n).LoadFound? <==> i == j {
      PollsIff(nonce, n, i, j);
    }
  }

  lemma PollsIff(nonce: nat, n: nat, i: nat, j: nat)
    requires n > 0 && i < 0x2000 && j == (if nonce / n % 0x2000 == 0 then 0 else 0x2000 - nonce / n % 0x2000)
    ensures LoopHead(nonce + n * i, n).LoadFound? <==> i == j
  {
    QuotientOf(nonce + n * i, n, i, nonce);
    PollsAt(nonce / n, i, j);
  }

  lemma PollsAt(q: nat, i: nat, j: nat)
    requires i < 0x2000 && j == (if q % 0x2000 == 0 then 0 else 0x2000 - q % 0x2000)
    ensures (i + q) % 0x2000 == 0 <==> i == j
  {
  }

  function Initial(n: nat): State
    requires n > 0
  {
    State(false, 0, false, seq(n, t requires 0 <= t < n => Thread(t, LoopHead(t, n), false)))
  }

  function NextNonce(t: Thread, n: nat): Thread
    requires n > 0
  {
    var next := t.nonce + n;
    if next < 0x1_0000_0000_0000_0000 then Thread(next, LoopHead(next, n), t.wrapped)
    else
      var low := next % 0x1_0000_0000_0000_0000;
      Thread(low, LoopHead(low, n), true)
  }

  function SetThread(s: State, i: nat, t: Thread): State
    requires i < |s.threads|
  {
    s.(threads := s.threads[i := t])
  }

  /** One atomic step of thread i. */
  function RunStep(c: Search, s: State, i: nat): State
    requires i < |s.threads|
  {
    var t := s.threads[i];
    match t.pc
    case LoadFound => SetThread(s, i, t.(pc := if s.found then Quit else if c.cancellable then LoadCancel else Try))
    case LoadCancel => SetThread(s, i, t.(pc := if s.cancelled then Quit else Try))
    case Try =>
      if !c.passes(t.nonce) then SetThread(s, i, NextNonce(t, |s.threads|))
      else if s.found then SetThread(s, i, t.(pc := Quit))
      else SetThread(s, i, t.(pc := Store)).(found := true)
    case Store => SetThread(s, i, t.(pc := Stored)).(foundNonce := t.nonce)
    case _ => s
  }

  function Step(c: Search, s: State, a: Action): State {
    match a
    case Cancel => if c.cancellable then s.(cancelled := true) else s
    case Run(i) => if i < |s.threads| then RunStep(c, s, i) else s
  }

  function Exec(c: Search, n: nat, run: seq<Action>): State
    requires n > 0
  {
    if run == [] then Initial(n) else Step(c, Exec(c, n, run[..|run| - 1]), run[|run| - 1])
  }

  /** All threads have been joined. */
  predicate Joined(s: State) {
    forall i :: 0 <= i < |s.threads| ==> Returned(s.threads[i])
  }

  function Answer(s: State): Option<nat> {
    if s.found then Some(s.foundNonce) else None
  }

  // ----- invariant -----

  predicate Winner(t: Thread) { t.pc == Store || t.pc == Stored }

  /** Every nonce of residue i below bound was tried in vain. */
  ghost predicate Tried(c: Search, n: nat, i: nat, bound: nat)
    requires n > 0
  {
    forall x: nat :: x < bound && x % n == i ==> !c.passes(x)
  }

  ghost predicate ThreadOk(c: Search, s: State, i: nat)
    requires i < |s.threads|
  {
    var t, n := s.threads[i], |s.threads|;
    && t.nonce < 0x1_0000_0000_0000_0000
    && (Winner(t) ==> s.found && c.passes(t.nonce))
    && (t.pc == Stored ==> s.foundNonce == t.nonce)
    && (t.pc == Quit ==> s.found || s.cancelled)
    && (if t.wrapped then Tried(c, n, i, 0x1_0000_0000_0000_0000) else t.nonce % n == i && Tried(c, n, i, t.nonce))
  }

  ghost predicate Inv(c: Search, s: State) {
    && s.threads != []
    && (s.cancelled ==> c.cancellable)
    && (forall i: nat :: i < |s.threads| ==> ThreadOk(c, s, i))
    && (forall i: nat, j: nat ::
          i < |s.threads| && j < |s.threads| && Winner(s.threads[i]) && Winner(s.threads[j]) ==> i == j)
    && (s.found ==> exists i: nat :: i < |s.threads| && Winner(s.threads[i]))
  }

  /** The next nonce of the same residue: nothing of that residue lies between. */
  lemma SameResidue(x: nat, y: nat, n: nat)
    requires n > 0 && x % n == y % n && x < y < x + 2 * n
    ensures y == x + n
  {
    SameRemainder(x, y, n);
    SmallMultiple(n, y / n - x / n);
  }

  lemma TriedNext(c: Search, n: nat, i: nat, x: nat)
    requires n > 0 && x % n == i && Tried(c, n, i, x) && !c.passes(x)
    ensures Tried(c, n, i, x + n) && (x + n) % n == i
  {
    QuotientOf(x + n, n, 1, x);
    forall y: nat | y < x + n && y % n == i ensures !c.passes(y) {
      if y > x { SameResidue(x, y, n); }
    }
  }

  lemma NextKeepsThread(c: Search, s: State, i: nat)
    requires i < |s.threads| && ThreadOk(c, s, i) && s.threads[i].pc == Try && !c.passes(s.threads[i].nonce)
    ensures ThreadOk(c, SetThread(s, i, NextNonce(s.threads[i], |s.threads|)), i)
  {
    var t, n := s.threads[i], |s.threads|;
    if !t.wrapped {
      TriedNext(c, n, i, t.nonce);
      hide LoopHead;
      if t.nonce + n >= 0x1_0000_0000_0000_0000 {
        assert Tried(c, n, i, 0x1_0000_0000_0000_0000);
      }
    }
  }

  lemma InitialOk(c: Search, n: nat)
    requires n > 0 && n <= 0x1_0000_0000_0000_0000
    ensures Inv(c, Initial(n)) && |Initial(n).threads| == n
  {
    hide LoopHead;
    forall i: nat | i < n ensures ThreadOk(c, Initial(n), i) {
      DivModUnique(i, n, 0, i);
      forall x: nat | x < i ensures x % n != i { DivModUnique(x, n, 0, x); }
      assert Initial(n).threads[i].pc != Quit && !Winner(Initial(n).threads[i]) by { HeadIsRunning(i, n); }
    }
    forall i: nat | i < n ensures !Winner(Initial(n).threads[i]) { HeadIsRunning(i, n); }
  }

  lemma HeadIsRunning(x: nat, n: nat)
    requires n > 0
    ensures LoopHead(x, n) == LoadFound || LoopHead(x, n) == Try
  {
  }

  /** Other threads see at most a new found flag, a new stored nonce or a cancellation. */
  lemma OtherThread(c: Search, s: State, s': State, i: nat, j: nat)
    requires Inv(c, s) && i < |s.threads| && s' == RunStep(c, s, i) && j < |s.threads| && j != i
    ensures |s'.threads| == |s.threads| && s'.threads[j] == s.threads[j] && ThreadOk(c, s', j)
  {
    assert ThreadOk(c, s, j) && ThreadOk(c, s, i);
    hide NextNonce, Tried;
  }

  lemma OwnThread(c: Search, s: State, s': State, i: nat)
    requires Inv(c, s) && i < |s.threads| && s' == RunStep(c, s, i)
    ensures |s'.threads| == |s.threads| && ThreadOk(c, s', i)
    ensures Winner(s'.threads[i]) ==> s'.found && (Winner(s.threads[i]) || !s.found)
    ensures Winner(s.threads[i]) ==> Winner(s'.threads[i])
    ensures s'.found && !s.found ==> Winner(s'.threads[i])
    ensures s.found ==> s'.found
  {
    assert ThreadOk(c, s, i);
    var t := s.threads[i];
    if t.pc == Try && !c.passes(t.nonce) {
      NextKeepsThread(c, s, i);
      HeadIsRunning((t.nonce + |s.threads|) % 0x1_0000_0000_0000_0000, |s.threads|);
      HeadIsRunning(t.nonce + |s.threads|, |s.threads|);
    }
    hide LoopHead, Tried;
  }

  lemma RunKeepsInv(c: Search, s: State, i: nat)
    requires Inv(c, s) && i < |s.threads|
    ensures Inv(c, RunStep(c, s, i))
  {
    var s' := RunStep(c, s, i);
    OwnThread(c, s, s', i);
    forall j: nat | j < |s'.threads| ensures ThreadOk(c, s', j) {
      if j != i { OtherThread(c, s, s', i, j); }
    }
    forall j: nat | j < |s'.threads| && j != i ensures s'.threads[j] == s.threads[j] {
      OtherThread(c, s, s', i, j);
    }
    assert s'.cancelled == s.cancelled;
    assert forall j: nat :: j < |s.threads| && Winner(s.threads[j]) ==> ThreadOk(c, s, j);
    hide RunStep, ThreadOk;
    if s'.found {
      if s.found {
        var w: nat :| w < |s.threads| && Winner(s.threads[w]);
        assert Winner(s'.threads[w]);
      } else {
        assert Winner(s'.threads[i]);
      }
    }
  }

  lemma {:induction false} EveryRun(c: Search, n: nat, run: seq<Action>)
    requires 0 < n <= 0x1_0000_0000_0000_0000
    ensures Inv(c, Exec(c, n, run)) && |Exec(c, n, run).threads| == n
  {
    hide Inv, Initial;
    if run == [] {
      InitialOk(c, n);
    } else {
      var s, a := Exec(c, n, run[..|run| - 1]), run[|run| - 1];
      EveryRun(c, n, run[..|run| - 1]);
      hide Exec, RunStep;
      match a
      case Run(i) => if i < |s.threads| { RunKeepsInv(c, s, i); SameCount(c, s, i); }
      case Cancel => CancelKeepsInv(c, s);
    }
  }

  lemma CancelKeepsInv(c: Search, s: State)
    requires Inv(c, s)
    ensures Inv(c, Step(c, s, Cancel))
  {
    var s' := Step(c, s, Cancel);
    hide Tried;
    forall i: nat | i < |s'.threads| ensures ThreadOk(c, s', i) { assert ThreadOk(c, s, i); }
  }

  lemma SameCount(c: Search, s: State, i: nat)
    requires i < |s.threads|
    ensures |RunStep(c, s, i).threads| == |s.threads|
  {
    hide NextNonce;
  }

  // ----- main results -----

  /** A returned nonce passes, under every interleaving. */
  lemma ReturnedNoncePasses(c: Search, n: nat, run: seq<Action>)
    requires 0 < n <= 0x1_0000_0000_0000_0000 && Joined(Exec(c, n, run))
    ensures var s := Exec(c, n, run);
      match Answer(s)
      case Some(x) => c.passes(x) && x < 0x1_0000_0000_0000_0000
      case None => s.cancelled && c.cancellable
  {
    EveryRun(c, n, run);
    var s := Exec(c, n, run);
    if s.found {
      var w: nat :| w < n && Winner(s.threads[w]);
      assert ThreadOk(c, s, w) && Returned(s.threads[w]);
    } else {
      assert ThreadOk(c, s, 0) && Returned(s.threads[0]);
    }
  }

  /** If every stride class has a passing nonce, the returned one is the least of its class. */
  lemma ReturnedNonceIsLeast(c: Search, n: nat, run: seq<Action>, x: nat, y: nat)
    requires 0 < n <= 0x1_0000_0000_0000_0000 && Joined(Exec(c, n, run)) && Answer(Exec(c, n, run)) == Some(x)
    requires forall i: nat :: i < n ==> !Tried(c, n, i, 0x1_0000_0000_0000_0000)
    requires y % n == x % n && y < x
    ensures !c.passes(y)
  {
    EveryRun(c, n, run);
    var s := Exec(c, n, run);
    hide Exec;
    var w: nat :| w < n && Winner(s.threads[w]);
    assert ThreadOk(c, s, w) && Returned(s.threads[w]);
    assert Tried(c, n, w, x) && x % n == w;
  }

  /** The search and the independent check agree on every answer. */
  lemma AnswerVerifies(seed: Seed, difficulty: int, n: nat, cancellable: bool, run: seq<Action>)
    requires 0 < n <= 0x1_0000_0000_0000_0000
    requires Joined(Exec(ForChallenge(seed, difficulty, cancellable), n, run))
    ensures var s := Exec(ForChallenge(seed, difficulty, cancellable), n, run);
      match Answer(s)
      case Some(x) => x < 0x1_0000_0000_0000_0000 && Solves(seed, x, difficulty)
      case None => cancellable && s.cancelled
  {
    ReturnedNoncePasses(ForChallenge(seed, difficulty, cancellable), n, run);
  }

  /** What the threads call: the unrolled test, which is exactly Solves. */
  ghost function ForChallenge(seed: Seed, difficulty: int, cancellable: bool): Search {
    Search((x: nat) => x < 0x1_0000_0000_0000_0000 && Solves(seed, x, difficulty), cancellable)
  }
}
