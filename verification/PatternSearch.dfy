/** The greedy search of from_indices, its exact success condition, and the 6-byte form. */
module PatternSearch {
  import opened Wrappers
  import opened Arithmetic
  import opened PeriodicPattern

  datatype Pattern = Pattern(stride0: nat, length0: nat, stride1: nat, length1: nat, stride2: nat, length2: nat)

  function Levels(t: Pattern): seq<Level> {
    [Level(t.stride0, t.length0), Level(t.stride1, t.length1), Level(t.stride2, t.length2)]
  }

  ghost predicate Increasing(p: seq<nat>) {
    forall i, j :: 0 <= i < j < |p| ==> p[i] < p[j]
  }

  /** What the three entry checks of the search demand of a vector of 32-bit values. */
  ghost predicate Rooted32(p: seq<nat>) {
    ZeroRooted(p) && Increasing(p) && forall i :: 0 <= i < |p| ==> p[i] < 0x1_0000_0000
  }

  /** The inner comparison, with 32-bit wrap-around. */
  predicate Wraps32(p: seq<nat>, d: nat)
    requires 0 < d < |p|
  {
    forall i :: 0 <= i < |p| - d ==> (p[i] + p[d]) % 0x1_0000_0000 == p[i + d]
  }

  predicate Accepts(p: seq<nat>, d: nat)
    requires 0 < d < |p|
  {
    |p| % d == 0 && Wraps32(p, d)
  }

  /** Wrap-around never fakes a match: the accepted lengths are exactly the dividing periods. */
  lemma AcceptsGood(p: seq<nat>, d: nat)
    requires Rooted32(p) && 0 < d < |p|
    ensures Accepts(p, d) <==> Good(p, d)
  {
    forall i | 0 <= i < |p| - d
      ensures (p[i] + p[d]) % 0x1_0000_0000 == p[i + d] <==> p[i + d] == p[i] + p[d]
    {
      assert p[i] < p[i + d];
    }
    if Accepts(p, d) {
      assert forall i :: 0 <= i < |p| - d ==> p[i + d] == p[i] + p[d];
    }
    if Good(p, d) {
      assert forall i :: 0 <= i < |p| - d ==> (p[i] + p[d]) % 0x1_0000_0000 == p[i + d];
    }
  }

  /** The first accepted period at or after d; |p| when there is none. */
  function FirstPeriod(p: seq<nat>, d: nat): (r: nat)
    requires 0 < d <= |p|
    ensures d <= r <= |p| && (r < |p| ==> Accepts(p, r))
    ensures forall k :: d <= k < r ==> !Accepts(p, k)
    decreases |p| - d
  {
    if d == |p| then d else if Accepts(p, d) then d else FirstPeriod(p, d + 1)
  }

  function Quotient(n: nat, d: nat): nat
    requires d > 0
  {
    n / d
  }

  /** The levels found, innermost first; None when some prefix has no period. */
  function Greedy(p: seq<nat>): Option<seq<Level>>
    decreases |p|
  {
    if |p| <= 1 then Some([])
    else
      var d := FirstPeriod(p, 1);
      if d == |p| then None
      else match Greedy(p[..d])
        case None => None
        case Some(t) => Some(t + [Level(p[d], Quotient(|p|, d))])
  }

  lemma Rooted32Prefix(p: seq<nat>, d: nat)
    requires Rooted32(p) && 0 < d <= |p|
    ensures Rooted32(p[..d])
  {
  }

  lemma FirstPeriodLeast(p: seq<nat>)
    requires Rooted32(p) && |p| > 1
    ensures FirstPeriod(p, 1) < |p| ==> Least(p, FirstPeriod(p, 1))
    ensures FirstPeriod(p, 1) == |p| ==> forall g :: !Good(p, g)
  {
    forall d | 0 < d < |p| ensures Accepts(p, d) <==> Good(p, d) { AcceptsGood(p, d); }
  }

  /** Soundness: the levels found generate the list. */
  lemma {:induction false} GreedySound(p: seq<nat>)
    requires Rooted32(p) && Greedy(p).Some?
    ensures Expand(Greedy(p).value) == p
    decreases |p|
  {
    if |p| > 1 {
      var d := FirstPeriod(p, 1);
      GreedyStep(p);
      hide Expand, Greedy, Copies, FirstPeriod, Accepts;
      FirstPeriodLeast(p);
      Rooted32Prefix(p, d);
      GreedySound(p[..d]);
      hide Divides, Period, Increasing;
      AddLevel(p, d, Greedy(p[..d]).value);
    }
  }

  lemma AddLevel(p: seq<nat>, d: nat, t: seq<Level>)
    requires ZeroRooted(p) && Good(p, d) && Expand(t) == p[..d]
    ensures Expand(t + [Level(p[d], Quotient(|p|, d))]) == p
  {
    hide Expand, Copies;
    GoodIsCopies(p, d);
    ExpandSnoc(t, Level(p[d], Quotient(|p|, d)));
  }

  lemma GreedyStep(p: seq<nat>)
    requires |p| > 1
    ensures var d := FirstPeriod(p, 1);
      && (d == |p| ==> Greedy(p).None?)
      && (d < |p| ==> Greedy(p).Some? == Greedy(p[..d]).Some?)
      && (d < |p| && Greedy(p).Some? ==> Greedy(p).value == Greedy(p[..d]).value + [Level(p[d], Quotient(|p|, d))])
  {
    hide FirstPeriod, Quotient;
  }

  /** Completeness: a list some shape generates is found, with at most as many levels. */
  lemma {:induction false} GreedyComplete(p: seq<nat>, shape: seq<Level>)
    requires Rooted32(p) && Expand(shape) == p
    ensures Greedy(p).Some? && |Greedy(p).value| <= |shape|
    decreases |p|
  {
    if |p| > 1 {
      var d := FirstPeriod(p, 1);
      GreedyStep(p);
      hide Expand, Greedy, FirstPeriod, Accepts;
      FirstPeriodLeast(p);
      var g := GeneratedHasGood(shape);
      var t := PrefixShape(shape, d);
      Rooted32Prefix(p, d);
      GreedyComplete(p[..d], t);
    }
  }

  // ----- the returned pattern -----

  function U32(x: nat): nat { x % 0x1_0000_0000 }

  function Cast32(levels: seq<Level>): (r: seq<Level>)
    ensures |r| == |levels|
  {
    seq(|levels|, i requires 0 <= i < |levels| => Level(levels[i].stride, U32(levels[i].length)))
  }

  function Trailing(levels: seq<Level>): nat {
    if levels == [] then 1 else U32(levels[|levels| - 1].stride * levels[|levels| - 1].length)
  }

  /** Lengths are cast to 32 bits; missing levels are padded with length 1; extra ones are dropped. */
  function PadToThree(levels: seq<Level>): Pattern {
    var cast := Cast32(levels);
    var trailing := Trailing(cast);
    var three := cast + [Level(trailing, 1), Level(trailing, 1), Level(trailing, 1)];
    Pattern(three[0].stride, three[0].length, three[1].stride, three[1].length, three[2].stride, three[2].length)
  }

  ghost function FromIndicesSpec(pattern: seq<nat>): Result<Pattern> {
    if pattern == [] then Err("empty")
    else if !Increasing(pattern) then Err("not sorted")
    else if pattern[0] != 0 then Err("not zero-rooted")
    else match Greedy(pattern)
      case None => Err("not periodic")
      case Some(levels) => Ok(PadToThree(levels))
  }

  function Reversed(s: seq<Level>): seq<Level> {
    if s == [] then [] else [s[|s| - 1]] + Reversed(s[..|s| - 1])
  }

  method FromIndices(pattern: seq<nat>) returns (r: Result<Pattern>)
    requires forall i :: 0 <= i < |pattern| ==> pattern[i] < 0x1_0000_0000
    ensures r == FromIndicesSpec(pattern)
  {
    if |pattern| == 0 { return Err("empty"); }
    var sorted := CheckIncreasing(pattern);
    if !sorted { return Err("not sorted"); }
    if pattern[0] != 0 { return Err("not zero-rooted"); }
    var shape := Factor(pattern);
    if shape.None? { return Err("not periodic"); }
    r := Ok(PadToThree(Reversed(shape.value)));
  }

  method CheckIncreasing(pattern: seq<nat>) returns (sorted: bool)
    ensures sorted == Increasing(pattern)
  {
    var i := 1;
    while i < |pattern|
      invariant 1 <= i && (i <= |pattern| || |pattern| == 0)
      invariant forall j, k :: 0 <= j < k < i && k < |pattern| ==> pattern[j] < pattern[k]
    {
      if pattern[i] <= pattern[i - 1] { return false; }
      i := i + 1;
    }
    return true;
  }

  /** The outer loop: cut at the first accepted period until one element is left. */
  method Factor(pattern: seq<nat>) returns (shape: Option<seq<Level>>)
    requires |pattern| > 0
    ensures Greedy(pattern) == (if shape.None? then None else Some(Reversed(shape.value)))
  {
    var p, found: seq<Level> := pattern, [];
    assert Greedy(p).Some? ==> Greedy(p).value + [] == Greedy(p).value;
    while |p| > 1
      invariant |p| > 0
      invariant Greedy(pattern).Some? == Greedy(p).Some?
      invariant Greedy(p).Some? ==> Greedy(pattern).value == Greedy(p).value + Reversed(found)
      decreases |p|
    {
      var period := FindPeriod(p);
      GreedyStep(p);
      hide Greedy;
      if period == |p| { return None; }
      var level := Level(p[period], Quotient(|p|, period));
      ReversedSnoc(found, level);
      assert Greedy(p).Some? ==>
        (Greedy(p[..period]).value + [level]) + Reversed(found)
        == Greedy(p[..period]).value + ([level] + Reversed(found));
      found := found + [level];
      p := p[..period];
    }
    shape := Some(found);
    assert [] + Reversed(found) == Reversed(found);
  }

  lemma ReversedSnoc(s: seq<Level>, l: Level)
    ensures Reversed(s + [l]) == [l] + Reversed(s)
  {
    assert (s + [l])[..|s|] == s;
  }

  /** Try every period in turn. */
  method FindPeriod(p: seq<nat>) returns (period: nat)
    requires |p| > 1
    ensures period == FirstPeriod(p, 1)
  {
    period := 1;
    while period < |p|
      invariant 1 <= period <= |p|
      invariant FirstPeriod(p, 1) == FirstPeriod(p, period)
    {
      if |p| % period == 0 {
        var periodic := Matches(p, period);
        if periodic { return; }
      }
      period := period + 1;
    }
  }

  /** Compare with the shifted list, with early exit. */
  method Matches(p: seq<nat>, period: nat) returns (periodic: bool)
    requires 0 < period < |p|
    ensures periodic == Wraps32(p, period)
  {
    var s, i := p[period], 0;
    while i + period < |p|
      invariant 0 <= i <= |p| - period
      invariant forall k :: 0 <= k < i ==> (p[k] + s) % 0x1_0000_0000 == p[k + period]
    {
      if (p[i] + s) % 0x1_0000_0000 != p[i + period] { return false; }
      i := i + 1;
    }
    return true;
  }

  // ----- exactly when the returned pattern is the input -----

  ghost predicate HasShape(p: seq<nat>, levels: nat) {
    exists shape :: Expand(shape) == p && |shape| <= levels
  }

  /** from_indices throws on a valid list exactly when no nested shape generates it. */
  lemma SucceedsIffGenerated(p: seq<nat>)
    requires Rooted32(p)
    ensures FromIndicesSpec(p).Ok? <==> exists shape :: Expand(shape) == p
  {
    if shape :| Expand(shape) == p { GreedyComplete(p, shape); }
    if Greedy(p).Some? { GreedySound(p); }
  }

  lemma {:induction false} GreedyLengths(p: seq<nat>, i: nat)
    requires |p| > 0 && Greedy(p).Some? && i < |Greedy(p).value|
    ensures Greedy(p).value[i].length <= |p|
    decreases |p|
  {
    if |p| > 1 {
      GreedyStep(p);
      hide Greedy, Quotient;
      var d := FirstPeriod(p, 1);
      DivAtMost(|p|, d);
      if i < |Greedy(p[..d]).value| { GreedyLengths(p[..d], i); }
    }
  }

  lemma DivAtMost(n: nat, d: nat)
    requires d > 0
    ensures Quotient(n, d) <= n
  {
    assert n == d * (n / d) + n % d;
    MulAtLeast(d, n / d);
  }

  /** A level of length 1 changes nothing. */
  lemma ExpandPad(t: seq<Level>, stride: nat)
    ensures Expand(t + [Level(stride, 1)]) == Expand(t)
  {
    hide Expand, Copies;
    ExpandSnoc(t, Level(stride, 1));
    OneCopy(Expand(t), stride);
  }

  lemma Cast32Keeps(t: seq<Level>)
    requires forall i :: 0 <= i < |t| ==> t[i].length < 0x1_0000_0000
    ensures Cast32(t) == t
  {
  }

  lemma PadLevels(t: seq<Level>)
    ensures Levels(PadToThree(t))
         == (Cast32(t) + [Level(Trailing(Cast32(t)), 1), Level(Trailing(Cast32(t)), 1),
                         Level(Trailing(Cast32(t)), 1)])[..3]
  {
    hide Trailing, Cast32;
  }

  lemma PadKeepsLevels(t: seq<Level>)
    requires |t| <= 3 && forall i :: 0 <= i < |t| ==> t[i].length < 0x1_0000_0000
    ensures Expand(Levels(PadToThree(t))) == Expand(t)
  {
    hide Expand, Trailing, Cast32, PadToThree, Levels;
    Cast32Keeps(t);
    PadLevels(t);
    var s := Trailing(t);
    var pad := [Level(s, 1)];
    var r := (t + [Level(s, 1), Level(s, 1), Level(s, 1)])[..3];
    if |t| < 3 { ExpandPad(t, s); }
    if |t| < 2 { ExpandPad(t + pad, s); }
    if |t| == 0 { ExpandPad(t + pad + pad, s); assert r == t + pad + pad + pad; }
    else if |t| == 1 { assert r == t + pad + pad; }
    else if |t| == 2 { assert r == t + pad; }
    else { assert r == t; }
  }

  lemma {:induction false} IncreasingAtLeast(p: seq<nat>, i: nat)
    requires Increasing(p) && i < |p|
    ensures p[i] >= i
    decreases i
  {
    if i > 0 { IncreasingAtLeast(p, i - 1); }
  }

  /** The one list of 2^32 elements: its single level has a length that does not fit 32 bits. */
  lemma FullListLosesItsLength(p: seq<nat>)
    requires Rooted32(p) && |p| >= 0x1_0000_0000
    ensures |p| == 0x1_0000_0000 && Greedy(p) == Some([Level(1, 0x1_0000_0000)])
    ensures Expand(Levels(PadToThree([Level(1, 0x1_0000_0000)]))) == []
  {
    IncreasingAtLeast(p, |p| - 1);
    forall i: nat | i < |p| ensures p[i] == i {
      IncreasingAtLeast(p, i);
      GapAtLeast(p, i, |p| - 1);
    }
    assert Good(p, 1);
    FirstPeriodLeast(p);
    GreedyStep(p);
    assert p[..1] == [0];
    hide FirstPeriod;
    assert FirstPeriod(p, 1) == 1 && Quotient(|p|, 1) == |p|;
    assert p[..FirstPeriod(p, 1)] == [0];
    assert Greedy([0]) == Some([]);
    assert Greedy(p).value == [] + [Level(1, 0x1_0000_0000)] == [Level(1, 0x1_0000_0000)];
    NoCopies();
  }

  lemma {:induction false} GapAtLeast(p: seq<nat>, i: nat, j: nat)
    requires Increasing(p) && i <= j < |p|
    ensures p[j] - p[i] >= j - i
    decreases j
  {
    if i < j { GapAtLeast(p, i, j - 1); }
  }

  lemma NoCopies()
    ensures Expand(Levels(PadToThree([Level(1, 0x1_0000_0000)]))) == []
  {
    var t := Levels(PadToThree([Level(1, 0x1_0000_0000)]));
    assert t == [Level(1, 0)] + [Level(0, 1)] + [Level(0, 1)];
    assert [Level(1, 0)] == [] + [Level(1, 0)];
    ExpandSnoc([], Level(1, 0));
    ExpandSnoc([Level(1, 0)], Level(0, 1));
    OneCopy([], 0);
    ExpandSnoc([Level(1, 0)] + [Level(0, 1)], Level(0, 1));
  }

  // ----- a four-level list -----

  /** Strides 1, 4, 16, 64, each of length 2. */
  function FourLevels(): seq<nat> {
    [0, 1, 4, 5, 16, 17, 20, 21, 64, 65, 68, 69, 80, 81, 84, 85]
  }

  /** The second half repeats the first, p[half] further on. */
  ghost predicate HalfRepeats(p: seq<nat>, half: nat) {
    && |p| == 2 * half > 0 && p[half] < 100
    && forall i :: 0 <= i < half ==> p[i] < 100 && p[i + half] == p[i] + p[half]
  }

  /** No shorter divisor of the length is a period: its second multiple is already off. */
  ghost predicate NothingShorter(p: seq<nat>, half: nat) {
    && |p| == 2 * half > 0
    && forall k :: 1 <= k < half ==> !SplitsInto(2 * half, k) || p[k] + p[k] != p[k + k]
  }

  ghost predicate SplitsInto(n: nat, k: nat)
    requires k > 0
  {
    n % k == 0
  }

  lemma ShorterFails(p: seq<nat>, k: nat)
    requires 1 <= k && k + k < |p| && p[k] < 100 && p[k + k] != p[k] + p[k]
    ensures !Accepts(p, k)
  {
    assert (p[k] + p[k]) % 0x1_0000_0000 == p[k] + p[k];
  }

  lemma HalfAccepted(p: seq<nat>, half: nat)
    requires HalfRepeats(p, half)
    ensures Accepts(p, half)
  {
    forall i | 0 <= i < half ensures (p[i] + p[half]) % 0x1_0000_0000 == p[i + half] { }
  }

  lemma HalfIsFirst(p: seq<nat>, half: nat)
    requires HalfRepeats(p, half) && NothingShorter(p, half)
    ensures FirstPeriod(p, 1) == half
  {
    hide FirstPeriod, Accepts;
    HalfAccepted(p, half);
    forall k | 1 <= k < half ensures !Accepts(p, k) {
      if SplitsInto(2 * half, k) {
        assert p[k] + p[k] != p[k + k];
        ShorterFails(p, k);
      } else {
        IndivisibleFails(p, k);
      }
    }
  }

  lemma IndivisibleFails(p: seq<nat>, k: nat)
    requires 0 < k < |p| && !SplitsInto(|p|, k)
    ensures !Accepts(p, k)
  {
  }

  lemma FourLevelsAt()
    ensures var p := FourLevels();
      && |p| == 16 && p[0] == 0 && p[1] == 1 && p[2] == 4 && p[4] == 16 && p[8] == 64
      && p[3] == 5 && p[5] == 17 && p[6] == 20 && p[7] == 21
      && forall i :: 0 <= i < 8 ==> p[i] < 100 && p[i + 8] == p[i] + 64
  {
    var p := FourLevels();
    forall i | 0 <= i < 8 ensures p[i] < 100 && p[i + 8] == p[i] + 64 {
      if i == 0 || i == 1 || i == 2 || i == 3 { assert p[i + 8] == p[i] + 64; }
      else { assert i == 4 || i == 5 || i == 6 || i == 7; }
    }
  }

  lemma DivisorsOf(half: nat, k: nat)
    requires half == 1 || half == 2 || half == 4 || half == 8
    requires 1 <= k < half && SplitsInto(2 * half, k)
    ensures k == 1 || k == 2 || k == 4
  {
  }

  lemma FourLevelsShift(half: nat, i: nat)
    requires half == 1 || half == 2 || half == 4 || half == 8
    requires i < half
    ensures |FourLevels()| == 16 && FourLevels()[i] < 100 && FourLevels()[half] < 100
    ensures FourLevels()[i + half] == FourLevels()[i] + FourLevels()[half]
  {
    FourLevelsAt();
    hide FourLevels;
    if half == 4 { assert i == 0 || i == 1 || i == 2 || i == 3; }
  }

  lemma FourLevelsShorter(half: nat, k: nat)
    requires half == 1 || half == 2 || half == 4 || half == 8
    requires 1 <= k < half && SplitsInto(2 * half, k)
    ensures |FourLevels()| == 16 && FourLevels()[k] + FourLevels()[k] != FourLevels()[k + k]
  {
    DivisorsOf(half, k);
    FourLevelsAt();
    hide FourLevels;
  }

  lemma FourLevelsHalf(half: nat)
    requires half == 1 || half == 2 || half == 4 || half == 8
    ensures |FourLevels()| == 16 && HalfRepeats(FourLevels()[..2 * half], half)
  {
    FourLevelsShift(half, 0);
    hide FourLevels;
    var p := FourLevels()[..2 * half];
    forall i | 0 <= i < half ensures p[i] < 100 && p[i + half] == p[i] + p[half] {
      FourLevelsShift(half, i);
    }
  }

  lemma FourLevelsShortest(half: nat)
    requires half == 1 || half == 2 || half == 4 || half == 8
    ensures |FourLevels()| == 16 && NothingShorter(FourLevels()[..2 * half], half)
  {
    FourLevelsShift(half, 0);
    hide FourLevels, SplitsInto;
    var p := FourLevels()[..2 * half];
    forall k | 1 <= k < half ensures !SplitsInto(2 * half, k) || p[k] + p[k] != p[k + k] {
      if SplitsInto(2 * half, k) { FourLevelsShorter(half, k); }
    }
  }

  lemma NextLevel(half: nat, levels: seq<Level>)
    requires half == 1 || half == 2 || half == 4 || half == 8
    requires |FourLevels()| == 16 && Greedy(FourLevels()[..half]) == Some(levels)
    ensures Greedy(FourLevels()[..2 * half]) == Some(levels + [Level(FourLevels()[half], 2)])
  {
    hide Greedy, FirstPeriod, Accepts, FourLevels;
    var p := FourLevels()[..2 * half];
    FourLevelsHalf(half);
    FourLevelsShortest(half);
    HalfIsFirst(p, half);
    hide HalfRepeats, NothingShorter;
    GreedyStep(p);
    assert p[..half] == FourLevels()[..half];
    assert Quotient(2 * half, half) == 2;
  }

  lemma FourLevelsFound()
    ensures Greedy(FourLevels()) == Some([Level(1, 2)] + [Level(4, 2)] + [Level(16, 2)] + [Level(64, 2)])
  {
    FourLevelsAt();
    hide FourLevels;
    var p := FourLevels();
    assert Greedy(p[..1]) == Some([]);
    hide Greedy;
    NextLevel(1, []);
    assert [] + [Level(1, 2)] == [Level(1, 2)];
    NextLevel(2, [Level(1, 2)]);
    NextLevel(4, [Level(1, 2)] + [Level(4, 2)]);
    NextLevel(8, [Level(1, 2)] + [Level(4, 2)] + [Level(16, 2)]);
    assert p[..16] == p;
  }

  lemma ThreePairs(a: nat, b: nat, c: nat)
    ensures |Expand([Level(a, 2), Level(b, 2), Level(c, 2)])| == 8
  {
    hide Expand, Copies;
    ExpandNil();
    ExpandSnoc([], Level(a, 2));
    ExpandSnoc([Level(a, 2)], Level(b, 2));
    ExpandSnoc([Level(a, 2), Level(b, 2)], Level(c, 2));
    assert [] + [Level(a, 2)] == [Level(a, 2)];
    assert [Level(a, 2)] + [Level(b, 2)] == [Level(a, 2), Level(b, 2)];
    assert [Level(a, 2), Level(b, 2)] + [Level(c, 2)] == [Level(a, 2), Level(b, 2), Level(c, 2)];
  }

  lemma FourPadded(levels: seq<Level>)
    requires levels == [Level(1, 2)] + [Level(4, 2)] + [Level(16, 2)] + [Level(64, 2)]
    ensures PadToThree(levels) == Pattern(1, 2, 4, 2, 16, 2)
  {
  }

  lemma FourLevelsIncrease()
    ensures Increasing(FourLevels())
  {
    var p := FourLevels();
    assert forall i :: 0 <= i < 15 ==> p[i] < p[i + 1];
    hide FourLevels;
    forall i, j | 0 <= i < j < |p| ensures p[i] < p[j] { StepsIncrease(p, i, j); }
  }

  lemma {:induction false} StepsIncrease(p: seq<nat>, i: nat, j: nat)
    requires i < j < |p| && forall k :: 0 <= k < |p| - 1 ==> p[k] < p[k + 1]
    ensures p[i] < p[j]
    decreases j
  {
    assert p[j - 1] < p[j - 1 + 1];
    if i < j - 1 { StepsIncrease(p, i, j - 1); }
  }

  /** Accepted without an error, and the outermost of its four levels is gone. */
  lemma FourthLevelIsDropped()
    ensures FromIndicesSpec(FourLevels()) == Ok(Pattern(1, 2, 4, 2, 16, 2))
    ensures Expand(Levels(FromIndicesSpec(FourLevels()).value)) != FourLevels()
  {
    FourLevelsAt();
    FourLevelsIncrease();
    hide Greedy, Expand, FourLevels, Increasing, PadToThree;
    FourLevelsFound();
    FourPadded([Level(1, 2)] + [Level(4, 2)] + [Level(16, 2)] + [Level(64, 2)]);
    ThreePairs(1, 4, 16);
  }

  /**
   The returned pattern generates the input exactly when some shape of at most three levels
   does and the list has fewer than 2^32 elements; otherwise levels are dropped or a length wraps.
   */
  lemma FaithfulIffThreeLevels(p: seq<nat>)
    requires Rooted32(p)
    ensures FromIndicesSpec(p).Ok? && Expand(Levels(FromIndicesSpec(p).value)) == p
       <==> HasShape(p, 3) && |p| < 0x1_0000_0000
  {
    hide Expand, Greedy, PadToThree;
    if HasShape(p, 3) && |p| < 0x1_0000_0000 {
      var shape :| Expand(shape) == p && |shape| <= 3;
      GreedyComplete(p, shape);
      GreedySound(p);
      var t := Greedy(p).value;
      forall i | 0 <= i < |t| ensures t[i].length < 0x1_0000_0000 { GreedyLengths(p, i); }
      PadKeepsLevels(t);
    }
    if FromIndicesSpec(p).Ok? && Expand(Levels(FromIndicesSpec(p).value)) == p {
      assert |Levels(FromIndicesSpec(p).value)| <= 3;
      if |p| >= 0x1_0000_0000 { FullListLosesItsLength(p); }
    }
  }

  /** Element i of the expansion is the mixed-radix reading of i over strides and lengths. */
  lemma MixedRadix(t: Pattern, a: nat, b: nat, c: nat)
    requires a < t.length0 && b < t.length1 && c < t.length2
    ensures var i := c * (t.length1 * t.length0) + (b * t.length0 + a);
      i < |Expand(Levels(t))| && Expand(Levels(t))[i] == a * t.stride0 + b * t.stride1 + c * t.stride2
  {
    hide Expand, Copies;
    var l0, l1, l2 := Level(t.stride0, t.length0), Level(t.stride1, t.length1), Level(t.stride2, t.length2);
    assert Levels(t) == [] + [l0] + [l1] + [l2];
    ExpandNil();
    ExpandSnoc([], l0);
    ExpandSnoc([] + [l0], l1);
    ExpandSnoc([] + [l0] + [l1], l2);
    var e0 := Expand([] + [l0]);
    var e1 := Expand([] + [l0] + [l1]);
    CopiesAt([0], t.stride0, t.length0, a, 0);
    assert |e0| == t.length0;
    CopiesAt(e0, t.stride1, t.length1, b, a);
    assert |e1| == t.length1 * t.length0;
    CopiesAt(e1, t.stride2, t.length2, c, b * t.length0 + a);
  }

  lemma ExpandNil()
    ensures Expand([]) == [0]
  {
  }

  // ----- the 6-byte form -----

  /** One level: stride as a multiple of the span below it, both stored minus one in a byte. */
  function LevelBytes(stride: nat, length: nat, span: nat): Option<seq<nat>> {
    if span == 0 then None
    else Some([(stride / span + 0xFFFF_FFFF) % 0x1_0000_0000 % 256, (length + 0xFFFF_FFFF) % 0x1_0000_0000 % 256])
  }

  /** None where the source divides by a span that wrapped to zero. */
  function ToBytes(t: Pattern): Option<seq<nat>> {
    var b0 := LevelBytes(t.stride0, t.length0, 1);
    var b1 := LevelBytes(t.stride1, t.length1, U32(t.stride0 * t.length0));
    var b2 := LevelBytes(t.stride2, t.length2, U32(t.stride1 * t.length1));
    if b0.None? || b1.None? || b2.None? then None else Some(b0.value + b1.value + b2.value)
  }

  /** The reader of that form: factors times spans. */
  function FromBytes(b: seq<nat>): Pattern
    requires |b| == 6
  {
    var s0, l0 := b[0] + 1, b[1] + 1;
    var s1, l1 := (b[2] + 1) * (s0 * l0), b[3] + 1;
    var s2, l2 := (b[4] + 1) * (s1 * l1), b[5] + 1;
    Pattern(s0, l0, s1, l1, s2, l2)
  }

  /** stride is 1 to 256 times the span below it and the length is 1 to 256. */
  ghost predicate ByteLevel(stride: nat, length: nat, span: nat) {
    1 <= length <= 256 && exists f: nat :: 1 <= f <= 256 && Times(f, span) == stride
  }

  function Times(f: nat, span: nat): nat { f * span }

  ghost predicate Chained(t: Pattern) {
    && ByteLevel(t.stride0, t.length0, 1)
    && ByteLevel(t.stride1, t.length1, t.stride0 * t.length0)
    && ByteLevel(t.stride2, t.length2, t.stride1 * t.length1)
  }

  lemma LevelRoundTrip(stride: nat, length: nat, span: nat)
    requires ByteLevel(stride, length, span) && span > 0
    ensures var b := LevelBytes(stride, length, span);
      b.Some? && (b.value[0] + 1) * span == stride && b.value[1] + 1 == length && b.value[0] < 256 && b.value[1] < 256
  {
    var f :| 1 <= f <= 256 && Times(f, span) == stride;
    assert stride == span * f;
    MultipleMod(span, f);
  }

  /** The 6 bytes determine a 32-bit pattern exactly when its levels chain with byte-sized factors. */
  lemma BytesDetermineIffChained(t: Pattern)
    requires t.stride0 < 0x1_0000_0000 && t.stride1 < 0x1_0000_0000 && t.stride2 < 0x1_0000_0000
    requires t.length0 < 0x1_0000_0000 && t.length1 < 0x1_0000_0000 && t.length2 < 0x1_0000_0000
    ensures ToBytes(t).Some? && |ToBytes(t).value| == 6 && FromBytes(ToBytes(t).value) == t <==> Chained(t)
  {
    hide LevelBytes;
    if Chained(t) { ChainedRoundTrip(t); }
    LevelBytesLength(t.stride0, t.length0, 1);
    LevelBytesLength(t.stride1, t.length1, U32(t.stride0 * t.length0));
    LevelBytesLength(t.stride2, t.length2, U32(t.stride1 * t.length1));
    hide U32;
    if ToBytes(t).Some? && FromBytes(ToBytes(t).value) == t {
      DecodedIsChained(ToBytes(t).value);
    }
  }

  lemma LevelBytesLength(stride: nat, length: nat, span: nat)
    ensures var b := LevelBytes(stride, length, span);
      b.Some? ==> |b.value| == 2 && b.value[0] < 256 && b.value[1] < 256
  {
  }

  lemma DecodedIsChained(b: seq<nat>)
    requires |b| == 6 && forall i :: 0 <= i < 6 ==> b[i] < 256
    ensures Chained(FromBytes(b))
  {
    var t := FromBytes(b);
    assert Times(b[0] + 1, 1) == t.stride0;
    assert Times(b[2] + 1, t.stride0 * t.length0) == t.stride1;
    assert Times(b[4] + 1, t.stride1 * t.length1) == t.stride2;
  }

  lemma ChainedRoundTrip(t: Pattern)
    requires Chained(t) && t.stride1 < 0x1_0000_0000 && t.stride2 < 0x1_0000_0000
    ensures ToBytes(t).Some? && |ToBytes(t).value| == 6 && FromBytes(ToBytes(t).value) == t
  {
    SpanFits(t.stride0, t.length0, 1, t.stride1, t.length1);
    SpanFits(t.stride1, t.length1, t.stride0 * t.length0, t.stride2, t.length2);
    assert U32(t.stride0 * t.length0) == t.stride0 * t.length0;
    assert U32(t.stride1 * t.length1) == t.stride1 * t.length1;
    LevelRoundTrip(t.stride0, t.length0, 1);
    LevelRoundTrip(t.stride1, t.length1, t.stride0 * t.length0);
    LevelRoundTrip(t.stride2, t.length2, t.stride1 * t.length1);
    LevelBytesLength(t.stride0, t.length0, 1);
    LevelBytesLength(t.stride1, t.length1, t.stride0 * t.length0);
    LevelBytesLength(t.stride2, t.length2, t.stride1 * t.length1);
    hide LevelBytes, U32, ByteLevel;
    var b := ToBytes(t).value;
    assert b[0] + 1 == t.stride0;
  }

  /** In a chain the span of each level is at most the next stride, so it does not wrap. */
  lemma SpanFits(stride: nat, length: nat, below: nat, nextStride: nat, nextLength: nat)
    requires below > 0 && ByteLevel(stride, length, below) && ByteLevel(nextStride, nextLength, stride * length)
    requires nextStride < 0x1_0000_0000
    ensures 0 < stride * length < 0x1_0000_0000
  {
    var f :| 1 <= f <= 256 && Times(f, below) == stride;
    MulAtLeast(f, below);
    MulAtLeast(length, stride);
    assert length * stride == stride * length;
    var g :| 1 <= g <= 256 && Times(g, stride * length) == nextStride;
    MulAtLeast(g, stride * length);
  }
}
