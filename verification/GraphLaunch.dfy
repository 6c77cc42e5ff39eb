/**
 Queueing one batch: the captured graph always writes into the first slots, so the sub-batches run
 from the last to the first, each copied out of the shared scratch slots before the next. The
 direct path is the reference; it also runs after an exception, over slots not cleared again.
 */
module GraphLaunch {
  import opened Arithmetic
  import opened Words
  import GpuWorker

  type Seed = U64

  /** A pinned header slot: cleared, or the winner found for a seed. */
  datatype Header = Empty | Winner(payload: nat)

  /** What the device finds for a seed. */
  type Device = Seed -> Header

  /** End of a sub-batch: fine, a failed wait, or an exception, with the scratch slots written by then. */
  datatype Outcome = Done | Failed(wrote: nat -> bool) | Threw(wrote: nat -> bool)

  predicate Written(o: Outcome, j: nat) {
    o.Done? || o.wrote(j)
  }

  function SeedAt(start: Seed, j: nat): Seed {
    (start + j) % 0x1_0000_0000_0000_0000
  }

  /** A kernel sets a slot on a hit and never resets it. */
  function Merge(slot: Header, found: Header): Header {
    if found == Empty then slot else found
  }

  // ----- the reference -----

  /** Slot j of the batch. */
  function Slot(device: Device, start: Seed, j: nat): Header {
    device(SeedAt(start, j))
  }

  /** h is what the device found for the seed j places after start, with 64-bit wrap-around. */
  predicate RanSeed(h: Header, device: Device, start: Seed, j: nat)
    requires j < 0x1_0000_0000_0000_0000
  {
    if start + j < 0x1_0000_0000_0000_0000 then h == device(start + j)
    else h == device(start + j - 0x1_0000_0000_0000_0000)
  }

  lemma SlotRan(device: Device, start: Seed, j: nat)
    requires j < 0x1_0000_0000_0000_0000
    ensures RanSeed(Slot(device, start, j), device, start, j)
  {
  }

  /** The nonce the worker reports for slot j of a batch is the seed the device ran there. */
  lemma ReportedNonceRan(device: Device, start: Seed, j: nat)
    ensures GpuWorker.NonceAt(start, j) < 0x1_0000_0000_0000_0000
    ensures Slot(device, start, j) == device(GpuWorker.NonceAt(start, j))
  {
  }

  // ----- what the graph path leaves -----

  /** Offset of the first sub-batch that does not finish, descending from off; negative when none does. */
  function StopFrom(off: int, group: nat, outcome: int -> Outcome): (stop: int)
    requires group > 0
    ensures stop <= off && (stop >= 0 ==> !outcome(stop).Done?)
    decreases off + group
  {
    if off < 0 || !outcome(off).Done? then off else StopFrom(off - group, group, outcome)
  }

  /** Slots from stop + group on are complete; the scratch holds what the failed sub-batch wrote. */
  function GraphSlot(device: Device, start: Seed, group: nat, outcome: int -> Outcome, stop: int, j: nat): Header {
    if j >= stop + group then Slot(device, start, j)
    else if stop >= 0 && j < group && Written(outcome(stop), j) then Slot(device, start, stop + j)
    else Empty
  }

  /** After an exception the direct path sets its hits over that. */
  function FinalSlot(device: Device, start: Seed, group: nat, outcome: int -> Outcome, stop: int, j: nat): Header {
    var h := GraphSlot(device, start, group, outcome, stop, j);
    if stop >= 0 && outcome(stop).Threw? then Merge(h, Slot(device, start, j)) else h
  }

  // ----- kernels and copies -----

  /** Both launch forms: set hits in the first n slots for seeds from seed on, as far as they get. */
  method Launch(headers: array<Header>, device: Device, seed: Seed, n: nat, gets: nat -> bool)
    requires n <= headers.Length
    modifies headers
    ensures forall j :: 0 <= j < n ==>
      headers[j] == if gets(j) then Merge(old(headers[j]), Slot(device, seed, j)) else old(headers[j])
    ensures forall j :: n <= j < headers.Length ==> headers[j] == old(headers[j])
  {
    var i := 0;
    while i < n
      invariant 0 <= i <= n
      invariant forall j :: 0 <= j < i ==>
        headers[j] == if gets(j) then Merge(old(headers[j]), Slot(device, seed, j)) else old(headers[j])
      invariant forall j :: i <= j < headers.Length ==> headers[j] == old(headers[j])
    {
      var found := device((seed + i) % 0x1_0000_0000_0000_0000);
      if gets(i) && found != Empty { headers[i] := found; }
      i := i + 1;
    }
  }

  method Clear(headers: array<Header>, n: nat)
    requires n <= headers.Length
    modifies headers
    ensures forall j :: 0 <= j < n ==> headers[j] == Empty
    ensures forall j :: n <= j < headers.Length ==> headers[j] == old(headers[j])
  {
    var i := 0;
    while i < n
      invariant 0 <= i <= n
      invariant forall j :: 0 <= j < i ==> headers[j] == Empty
      invariant forall j :: i <= j < headers.Length ==> headers[j] == old(headers[j])
    {
      headers[i] := Empty;
      i := i + 1;
    }
  }

  /** Copy the scratch slots up to off; for off = 0 source and destination are the same. */
  method CopyOut(headers: array<Header>, off: nat, n: nat)
    requires off + n <= headers.Length && (off == 0 || off >= n)
    modifies headers
    ensures forall j :: 0 <= j < n ==> headers[off + j] == old(headers[j])
    ensures forall j :: 0 <= j < headers.Length && !(off <= j < off + n) ==> headers[j] == old(headers[j])
  {
    var i := 0;
    while i < n
      invariant 0 <= i <= n
      invariant forall j :: 0 <= j < i ==> headers[off + j] == old(headers[j])
      invariant forall j :: 0 <= j < headers.Length && !(off <= j < off + i) ==> headers[j] == old(headers[j])
    {
      headers[off + i] := headers[i];
      i := i + 1;
    }
  }

  /** 64-bit addition. */
  lemma SeedWraps(start: Seed, j: nat)
    ensures SeedAt(start, j) == (start + j) % 0x1_0000_0000_0000_0000
  {
  }

  lemma SeedOfSeed(start: Seed, off: nat, j: nat)
    ensures SeedAt(SeedAt(start, off), j) == SeedAt(start, off + j)
  {
  }

  /** One sub-batch: clear the scratch, launch with the seed in device memory. */
  method SubLaunch(headers: array<Header>, device: Device, start: Seed, seed: Seed, off: nat, group: nat,
                   outcome: Outcome)
    requires group <= headers.Length && seed == SeedAt(start, off)
    modifies headers
    ensures forall j :: 0 <= j < group ==>
      headers[j] == if Written(outcome, j) then Slot(device, start, off + j) else Empty
    ensures forall j :: group <= j < headers.Length ==> headers[j] == old(headers[j])
  {
    Clear(headers, group);
    Launch(headers, device, seed, group, (j: nat) => Written(outcome, j));
    forall j: nat | j < group
      ensures headers[j] == if Written(outcome, j) then Slot(device, start, off + j) else Empty
    {
      SeedOfSeed(start, off, j);
    }
  }

  /** A finished sub-batch is copied to its own slots. */
  method KeepGroup(headers: array<Header>, device: Device, start: Seed, off: nat, group: nat)
    requires off + group <= headers.Length && (off == 0 || off >= group)
    requires forall j :: 0 <= j < group ==> headers[j] == Slot(device, start, off + j)
    modifies headers
    ensures forall j :: off <= j < off + group ==> headers[j] == Slot(device, start, j)
    ensures forall j :: group <= j < headers.Length && !(off <= j < off + group) ==> headers[j] == old(headers[j])
  {
    hide Slot;
    ghost var scratch := headers[..group];
    CopyOut(headers, off, group);
    forall j | off <= j < off + group ensures headers[j] == Slot(device, start, j) {
      var i := j - off;
      assert headers[off + i] == scratch[i];
    }
  }

  /** The descending loop; the seed of the next sub-batch may be uploaded ahead. Returns where it stopped. */
  method GraphPath(headers: array<Header>, device: Device, start: Seed, count: nat, group: nat,
                   asyncSeed: bool, outcome: int -> Outcome) returns (stop: int)
    requires 0 < group <= count <= headers.Length && count % group == 0
    requires forall j :: 0 <= j < count ==> headers[j] == Empty
    modifies headers
    ensures stop == StopFrom(count - group, group, outcome)
    ensures forall j :: 0 <= j < count ==> headers[j] == GraphSlot(device, start, group, outcome, stop, j)
    ensures forall j :: count <= j < headers.Length ==> headers[j] == old(headers[j])
  {
    hide Slot, Aligned, SeedAt;
    var seedDev: Seed := 0;
    var preloaded := false;
    if asyncSeed {
      seedDev := (start + (count - group)) % 0x1_0000_0000_0000_0000;
      SeedWraps(start, count - group);
      preloaded := true;
    }
    var off := count - group;
    LastGroup(count, group);
    while off >= 0
      invariant off + group >= 0 && off <= count - group && Aligned(off + group, group)
      invariant StopFrom(count - group, group, outcome) == StopFrom(off, group, outcome)
      invariant preloaded && off >= 0 ==> seedDev == SeedAt(start, off)
      invariant forall j :: off + group <= j < count ==> headers[j] == Slot(device, start, j)
      invariant forall j :: group <= j < off + group ==> headers[j] == Empty
      invariant forall j :: count <= j < headers.Length ==> headers[j] == old(headers[j])
    {
      GroupOffsets(off, group);
      if !preloaded {
        seedDev := (start + off) % 0x1_0000_0000_0000_0000;
        SeedWraps(start, off);
      }
      SubLaunch(headers, device, start, seedDev, off, group, outcome(off));
      if !outcome(off).Done? { return off; }
      var next := off - group;
      if asyncSeed && next >= 0 {
        seedDev := (start + next) % 0x1_0000_0000_0000_0000;
        SeedWraps(start, next);
        preloaded := true;
      } else {
        preloaded := false;
      }
      KeepGroup(headers, device, start, off, group);
      off := next;
    }
    assert off + group == 0 by { NegativeGroup(off, group); }
    return off;
  }

  predicate Aligned(x: int, group: nat) {
    group > 0 && x % group == 0
  }

  lemma LastGroup(count: nat, group: nat)
    requires 0 < group <= count && count % group == 0
    ensures Aligned(count - group + group, group)
  {
  }

  /** Offsets are multiples of the group size, so a group is either the scratch or disjoint from it. */
  lemma GroupOffsets(off: nat, group: nat)
    requires Aligned(off + group, group)
    ensures (off == 0 || off >= group) && Aligned(off, group)
  {
    QuotientOf(off + group, group, 1, off);
    if 0 < off < group { DivModUnique(off, group, 0, off); }
  }

  lemma NegativeGroup(off: int, group: nat)
    requires 0 <= off + group && off < 0 && Aligned(off + group, group)
    ensures off + group == 0
  {
    DivModUnique(off + group, group, 0, off + group);
  }

  /**
   The whole of queue_batch. A failed wait still counts as a graph launch, so nothing is redone; an
   exception falls back to the direct path. The wait outcomes and exceptions are parameters.
   */
  method QueueBatch(headers: array<Header>, device: Device, start: Seed, count: nat, ready: bool, group: nat,
                    asyncSeed: bool, outcome: int -> Outcome) returns (stillReady: bool)
    requires count <= headers.Length
    modifies headers
    ensures var graph := ready && group > 0 && count % group == 0 && count > 0;
      forall j: nat :: j < count ==>
        headers[j] == if graph then FinalSlot(device, start, group, outcome, StopFrom(count - group, group, outcome), j)
                      else Slot(device, start, j)
    ensures !(ready && group > 0 && count % group == 0 && count > 0) || StopFrom(count - group, group, outcome) < 0
      ==> forall j: nat :: j < count && j < 0x1_0000_0000_0000_0000 ==> RanSeed(headers[j], device, start, j)
    ensures stillReady
       <==> ready && (group > 0 && count % group == 0 && count > 0 ==> StopFrom(count - group, group, outcome) < 0)
    ensures forall j :: count <= j < headers.Length ==> headers[j] == old(headers[j])
  {
    Clear(headers, count);
    stillReady := ready;
    if ready && group > 0 && count % group == 0 {
      if count > 0 {
        CountAtLeast(count, group);
        var stop := GraphPath(headers, device, start, count, group, asyncSeed, outcome);
        if stop >= 0 {
          stillReady := false;
          if outcome(stop).Threw? { Launch(headers, device, start, count, _ => true); }
        }
      }
    } else {
      Launch(headers, device, start, count, _ => true);
    }
    if !(ready && group > 0 && count % group == 0 && count > 0) || StopFrom(count - group, group, outcome) < 0 {
      forall j: nat | j < count && j < 0x1_0000_0000_0000_0000 ensures RanSeed(headers[j], device, start, j) {
        SlotRan(device, start, j);
        if ready && group > 0 && count % group == 0 && count > 0 {
          HarmlessIsDirect(device, start, count, group, outcome, j);
        }
      }
    }
  }

  lemma CountAtLeast(count: nat, group: nat)
    requires count > 0 && group > 0 && count % group == 0
    ensures group <= count
  {
    if count < group { DivModUnique(count, group, 0, count); }
  }

  // ----- main results -----

  /** Some scratch slot was written by the sub-batch the loop stopped at. */
  predicate Stale(group: nat, o: Outcome) {
    exists j: nat :: j < group && Written(o, j)
  }

  predicate Complete(group: nat, o: Outcome) {
    forall j: nat :: j < group ==> Written(o, j)
  }

  /** The stopped batch is still right: redone over clean or final slots, or lacking nothing. */
  predicate Harmless(group: nat, outcome: int -> Outcome, stop: int) {
    || stop < 0
    || (outcome(stop).Threw? && (stop == 0 || !Stale(group, outcome(stop))))
    || (outcome(stop).Failed? && stop == 0 && Complete(group, outcome(stop)))
  }

  /** A device with one winning seed, off positions after start. */
  function OneWinner(start: Seed, off: nat): Device {
    (s: Seed) => if s == SeedAt(start, off) then Winner(1) else Empty
  }

  lemma OneSlot(start: Seed, off: nat, j: nat)
    requires off < 0x1_0000_0000_0000_0000 && j < 0x1_0000_0000_0000_0000
    ensures Slot(OneWinner(start, off), start, j) == if j == off then Winner(1) else Empty
  {
  }

  lemma HarmlessIsDirect(device: Device, start: Seed, count: nat, group: nat, outcome: int -> Outcome, j: nat)
    requires 0 < group <= count && count % group == 0 && j < count
    requires Harmless(group, outcome, StopFrom(count - group, group, outcome))
    ensures FinalSlot(device, start, group, outcome, StopFrom(count - group, group, outcome), j)
         == Slot(device, start, j)
  {
    var stop := StopFrom(count - group, group, outcome);
    if stop < 0 { StopsAtGroup(count - group, group, outcome); }
  }

  /** A device and a slot at which a harmful stop shows. */
  lemma HarmShows(start: Seed, count: nat, group: nat, outcome: int -> Outcome) returns (device: Device, j: nat)
    requires 0 < group <= count < 0x1_0000_0000_0000_0000 && count % group == 0
    requires !Harmless(group, outcome, StopFrom(count - group, group, outcome))
    ensures j < count
    ensures FinalSlot(device, start, group, outcome, StopFrom(count - group, group, outcome), j)
         != Slot(device, start, j)
  {
    var stop := StopFrom(count - group, group, outcome);
    hide StopFrom, SeedAt, Slot, OneWinner;
    if outcome(stop).Threw? {
      j :| 0 <= j < group && Written(outcome(stop), j);
      device := OneWinner(start, stop + j);
      OneSlot(start, stop + j, j);
      OneSlot(start, stop + j, stop + j);
    } else if stop == 0 {
      j :| 0 <= j < group && !Written(outcome(stop), j);
      device := OneWinner(start, j);
      OneSlot(start, j, j);
    } else {
      j := 0;
      device := OneWinner(start, 0);
      OneSlot(start, 0, 0);
      OneSlot(start, 0, stop);
    }
  }

  /** Both paths leave the same headers for every device, exactly when the loop stopped harmlessly. */
  lemma SameAsDirectIff(start: Seed, count: nat, group: nat, outcome: int -> Outcome)
    requires 0 < group <= count < 0x1_0000_0000_0000_0000 && count % group == 0
    ensures var stop := StopFrom(count - group, group, outcome);
      (forall device: Device, j: nat :: j < count ==>
        FinalSlot(device, start, group, outcome, stop, j) == Slot(device, start, j))
      <==> Harmless(group, outcome, stop)
  {
    hide StopFrom, FinalSlot, Slot, Harmless;
    var stop := StopFrom(count - group, group, outcome);
    if Harmless(group, outcome, stop) {
      forall device: Device, j: nat | j < count
        ensures FinalSlot(device, start, group, outcome, stop, j) == Slot(device, start, j)
      {
        HarmlessIsDirect(device, start, count, group, outcome, j);
      }
    } else {
      var device, j := HarmShows(start, count, group, outcome);
    }
  }

  /** When no wait fails the loop runs to the offset just below zero. */
  lemma {:induction false} StopsAtGroup(off: int, group: nat, outcome: int -> Outcome)
    requires group > 0 && off + group >= 0 && StopFrom(off, group, outcome) < 0 && Aligned(off + group, group)
    ensures StopFrom(off, group, outcome) + group == 0
    decreases off + group
  {
    if off < 0 {
      NegativeGroup(off, group);
    } else {
      GroupOffsets(off, group);
      StopsAtGroup(off - group, group, outcome);
    }
  }

  ghost predicate RightOrEmpty(device: Device, start: Seed, count: nat, group: nat, outcome: int -> Outcome,
                               stop: int)
  {
    forall j: nat :: j < count ==>
      var h := FinalSlot(device, start, group, outcome, stop, j);
      h == Empty || h == Slot(device, start, j)
  }

  /**
   A winner is never reported in a slot it does not belong to, whatever the device finds, exactly
   when the loop did not stop above offset 0 with something in the scratch slots.
   */
  lemma NeverWrongIff(start: Seed, count: nat, group: nat, outcome: int -> Outcome)
    requires 0 < group <= count < 0x1_0000_0000_0000_0000 && count % group == 0
    ensures var stop := StopFrom(count - group, group, outcome);
      (forall device: Device :: RightOrEmpty(device, start, count, group, outcome, stop))
      <==> !(stop > 0 && Stale(group, outcome(stop)))
  {
    var stop := StopFrom(count - group, group, outcome);
    hide StopFrom, SeedAt, Slot, OneWinner;
    if stop > 0 && Stale(group, outcome(stop)) {
      var j :| 0 <= j < group && Written(outcome(stop), j);
      var device := OneWinner(start, stop + j);
      OneSlot(start, stop + j, j);
      OneSlot(start, stop + j, stop + j);
      assert FinalSlot(device, start, group, outcome, stop, j) == Winner(1);
      assert !RightOrEmpty(device, start, count, group, outcome, stop);
    }
  }
}
