/**
 256-bit targets as byte arrays: the carry and remainder loops, the conversions to and from compact
 form and the bytewise comparison, each proved against the number the bytes denote.
 */
module TargetBytes {
  import opened Arithmetic
  import opened Words
  import opened LeadingZeros
  import opened CompactTarget

  function LittleEndian(t: seq<Byte>): nat {
    if t == [] then 0 else t[0] + 256 * LittleEndian(t[1..])
  }

  /** Clamped to the largest 256-bit number. */
  function Saturated(x: nat): (t: Target) {
    if x < Pow2(256) then x else Pow2(256) - 1
  }

  // ----- numbers of byte strings -----

  lemma BigEndianHead(h: seq<Byte>, i: nat)
    requires i < |h|
    ensures BigEndian(h[i..]) == h[i] * Pow2(8 * (|h| - i - 1)) + BigEndian(h[i + 1..])
  {
    assert h[i..] == [h[i]] + h[i + 1..];
    assert [h[i]][..0] == [] && BigEndian([h[i]]) == h[i];
    hide Pow2, BigEndian;
    BigEndianConcat([h[i]], h[i + 1..]);
  }

  lemma {:induction false} LittleEndianLast(t: seq<Byte>, i: nat)
    requires i < |t|
    ensures LittleEndian(t[..i + 1]) == LittleEndian(t[..i]) + t[i] * Pow2(8 * i)
    decreases |t|
  {
    if i == 0 {
      assert t[..1][1..] == [] && t[..0] == [];
      TopMantissa();
    } else {
      hide Pow2;
      var r := t[1..];
      LittleEndianLast(r, i - 1);
      assert t[..i + 1][1..] == r[..i] && t[..i][1..] == r[..i - 1];
      Pow2Bytes(i - 1);
      var x, p, y := t[i], Pow2(8 * (i - 1)), LittleEndian(r[..i - 1]);
      Regroup(x, p, y);
    }
  }

  lemma {:induction false} LittleEndianBound(t: seq<Byte>)
    ensures LittleEndian(t) < Pow2(8 * |t|)
  {
    hide Pow2;
    if t == [] {
      TopMantissa();
    } else {
      LittleEndianBound(t[1..]);
      Pow2Bytes(|t| - 1);
    }
  }

  lemma {:induction false} AllOnes(h: seq<Byte>)
    requires forall i :: 0 <= i < |h| ==> h[i] == 0xFF
    ensures BigEndian(h) == Pow2(8 * |h|) - 1 && LittleEndian(h) == Pow2(8 * |h|) - 1
  {
    hide Pow2;
    TopMantissa();
    if h != [] {
      AllOnes(h[..|h| - 1]);
      AllOnes(h[1..]);
      Pow2Bytes(|h| - 1);
    }
  }

  /** x as n bytes. */
  function ToLittleEndian(x: nat, n: nat): (t: seq<Byte>)
    ensures |t| == n
  {
    if n == 0 then [] else [x % 256] + ToLittleEndian(x / 256, n - 1)
  }

  lemma {:induction false} ToLittleEndianValue(x: nat, n: nat)
    requires x < Pow2(8 * n)
    ensures LittleEndian(ToLittleEndian(x, n)) == x
    decreases n
  {
    if n > 0 {
      Pow2Bytes(n - 1);
      hide Pow2;
      ToLittleEndianValue(x / 256, n - 1);
    }
  }

  // ----- multiplication -----

  /** out with a carry of weight p is the product of done and m. */
  predicate Carried(out: nat, carry: nat, p: nat, done: nat, m: nat) {
    out + carry * p == done * m
  }

  function MulAdd(byte: Byte, m: nat, carry: nat): nat {
    byte * m + carry
  }

  /** One byte of schoolbook multiplication: the part done so far plus carry is the exact product. */
  lemma CarryStep(byte: Byte, m: nat, carry: nat, out: nat, done: nat, p: nat)
    requires Carried(out, carry, p, done, m)
    ensures var v := MulAdd(byte, m, carry);
      Carried(v % 256 * p + out, v / 256, 256 * p, byte * p + done, m)
  {
    var v := MulAdd(byte, m, carry);
    var lo, hi := v % 256, v / 256;
    assert lo * p + hi * (256 * p) == v * p by {
      assert hi * (256 * p) == 256 * hi * p;
      assert (lo + 256 * hi) * p == lo * p + 256 * hi * p;
    }
    assert v * p == byte * m * p + carry * p;
    assert (byte * p + done) * m == byte * p * m + done * m;
    assert byte * m * p == byte * p * m;
  }

  /** No carry left means no overflow, and the other way round. */
  lemma CarryOut(out: nat, carry: nat, done: nat, m: nat)
    requires out < Pow2(256) && Carried(out, carry, Pow2(256), done, m)
    ensures carry == 0 ==> out == Saturated(done * m)
    ensures carry > 0 ==> Saturated(done * m) == Pow2(256) - 1
  {
    hide Pow2;
    assert Pow2(256) * carry == carry * Pow2(256);
    if carry > 0 { MulOrder(Pow2(256), 1, carry); }
  }

  lemma BigEndianCarry(was: seq<Byte>, before: seq<Byte>, after: seq<Byte>, i: nat, carry: nat, m: nat)
    requires |was| == 32 && |before| == 32 && i < 32 && before[i] == was[i]
    requires Carried(BigEndian(before[i + 1..]), carry, Pow2(8 * (31 - i)), BigEndian(was[i + 1..]), m)
    requires after == before[i := MulAdd(was[i], m, carry) % 256]
    ensures Carried(BigEndian(after[i..]), MulAdd(was[i], m, carry) / 256, Pow2(8 * (32 - i)), BigEndian(was[i..]), m)
  {
    hide Pow2, BigEndian, MulAdd;
    assert after[i + 1..] == before[i + 1..];
    BigEndianHead(was, i);
    BigEndianHead(after, i);
    Pow2Bytes(31 - i);
    CarryStep(was[i], m, carry, BigEndian(before[i + 1..]), BigEndian(was[i + 1..]), Pow2(8 * (31 - i)));
    hide Carried;
  }

  method MultiplyInPlace(be: array<Byte>, m: Word)
    requires be.Length == 32
    modifies be
    ensures BigEndian(be[..]) == Saturated(BigEndian(old(be[..])) * m)
  {
    hide Pow2;
    ghost var was := be[..];
    var carry, i := 0, 32;
    assert be[..][32..] == [] && was[32..] == [] && BigEndian([]) == 0;
    assert Carried(0, 0, Pow2(0), 0, m);
    hide BigEndian, Carried, Saturated, MulAdd;
    while i > 0
      invariant 0 <= i <= 32 && carry >= 0 && be[..i] == was[..i]
      invariant Carried(BigEndian(be[..][i..]), carry, Pow2(8 * (32 - i)), BigEndian(was[i..]), m)
    {
      i := i - 1;
      ghost var before := be[..];
      var v := MulAdd(be[i], m, carry);
      be[i] := v % 256;
      BigEndianCarry(was, before, be[..], i, carry, m);
      carry := v / 256;
    }
    assert be[..][0..] == be[..] && was[0..] == was;
    BigEndianBound(be[..]);
    CarryOut(BigEndian(be[..]), carry, BigEndian(was), m);
    if carry != 0 {
      forall k | 0 <= k < 32 { be[k] := 0xFF; }
      AllOnes(be[..]);
    }
  }

  /** Unlike the division helper, a factor of zero counts as one. */
  function Scaled(t: Target, factor: nat): Target {
    if factor <= 1 then t else Saturated(t * factor)
  }

  method MultiplyTarget(target: seq<Byte>, factor: nat) returns (out: seq<Byte>)
    requires |target| == 32
    ensures |out| == 32 && LittleEndian(target) < Pow2(256)
    ensures LittleEndian(out) == Scaled(LittleEndian(target), factor)
  {
    hide Pow2;
    LittleEndianBound(target);
    if factor <= 1 { return target; }
    var buffer := new Byte[32];
    var carry, i := 0, 0;
    assert buffer[..][..0] == [] && target[..0] == [] && LittleEndian([]) == 0;
    assert Carried(0, 0, Pow2(0), 0, factor);
    hide LittleEndian, Carried, Saturated, MulAdd;
    while i < 32
      invariant 0 <= i <= 32 && carry >= 0
      invariant Carried(LittleEndian(buffer[..][..i]), carry, Pow2(8 * i), LittleEndian(target[..i]), factor)
    {
      ghost var before := buffer[..];
      var product := MulAdd(target[i], factor, carry);
      buffer[i] := product % 256;
      LittleEndianCarry(target, before, buffer[..], i, carry, factor);
      carry := product / 256;
      i := i + 1;
    }
    assert buffer[..][..32] == buffer[..] && target[..32] == target;
    LittleEndianBound(buffer[..]);
    CarryOut(LittleEndian(buffer[..]), carry, LittleEndian(target), factor);
    if carry != 0 {
      forall k | 0 <= k < 32 { buffer[k] := 0xFF; }
      AllOnes(buffer[..]);
    }
    out := buffer[..];
  }

  lemma LittleEndianCarry(target: seq<Byte>, before: seq<Byte>, after: seq<Byte>, i: nat, carry: nat, m: nat)
    requires |target| == 32 && |before| == 32 && i < 32
    requires Carried(LittleEndian(before[..i]), carry, Pow2(8 * i), LittleEndian(target[..i]), m)
    requires after == before[i := MulAdd(target[i], m, carry) % 256]
    ensures Carried(LittleEndian(after[..i + 1]), MulAdd(target[i], m, carry) / 256, Pow2(8 * (i + 1)),
                    LittleEndian(target[..i + 1]), m)
  {
    hide Pow2, LittleEndian, MulAdd;
    assert after[..i] == before[..i];
    LittleEndianLast(target, i);
    LittleEndianLast(after, i);
    Pow2Bytes(i);
    CarryStep(target[i], m, carry, LittleEndian(before[..i]), LittleEndian(target[..i]), Pow2(8 * i));
    hide Carried;
  }

  /** Scaling preserves order. */
  lemma ScaledMonotone(t: Target, s: Target, factor: nat)
    requires t <= s
    ensures Scaled(t, factor) <= Scaled(s, factor)
  {
    hide Pow2;
    MulOrder(factor, t, s);
    assert factor * t == t * factor && factor * s == s * factor;
  }

  // ----- division -----

  /** The 64-bit remainder shifted left by eight bits, with the next byte. */
  function Shifted(rem: nat, byte: Byte): nat {
    rem * 256 % 0x1_0000_0000_0000_0000 + byte
  }

  function Digit(rem: nat, byte: Byte, d: nat): Byte
    requires d > 0
  {
    Shifted(rem, byte) / d % 256
  }

  function Remainder(rem: nat, byte: Byte, d: nat): nat
    requires d > 0
  {
    Shifted(rem, byte) % d
  }

  /** Long division by d. */
  function DivideBytes(h: seq<Byte>, d: nat, rem: nat): (q: seq<Byte>)
    requires d > 0
    ensures |q| == |h|
  {
    if h == [] then [] else [Digit(rem, h[0], d)] + DivideBytes(h[1..], d, Remainder(rem, h[0], d))
  }

  method DivideTarget(target: array<Byte>, d: nat) returns (out: seq<Byte>)
    requires target.Length == 32
    ensures out == if d == 0 then target[..] else DivideBytes(target[..], d, 0)
  {
    if d == 0 { return target[..]; }
    var be: seq<Byte> := target[..];
    ghost var was: seq<Byte> := be;
    var rem, i := 0, 0;
    assert be[..0] == [] && was[0..] == was;
    assert [] + DivideBytes(was, d, 0) == DivideBytes(was, d, 0);
    while i < 32
      invariant 0 <= i <= 32 && |be| == 32 && be[i..] == was[i..] && rem >= 0
      invariant DivideBytes(was, d, 0) == be[..i] + DivideBytes(was[i..], d, rem)
    {
      ghost var before, left := be[..i], rem;
      DivideNext(was, i, d, before, rem);
      rem := rem * 256 % 0x1_0000_0000_0000_0000 + be[i];
      be := be[i := rem / d % 256];
      rem := rem % d;
      i := i + 1;
      assert be[..i] == before + [Digit(left, was[i - 1], d)];
    }
    assert be[..32] == be;
    assert be + [] == be && was[32..] == [];
    out := be;
  }

  lemma DivideNext(was: seq<Byte>, i: nat, d: nat, done: seq<Byte>, rem: nat)
    requires d > 0 && i < |was|
    ensures done + DivideBytes(was[i..], d, rem)
         == done + [Digit(rem, was[i], d)] + DivideBytes(was[i + 1..], d, Remainder(rem, was[i], d))
  {
    hide Digit, Remainder;
    assert was[i..][1..] == was[i + 1..];
  }

  /** high, then rest, where rest has weight below p. */
  function Join(high: nat, p: nat, rest: nat): nat {
    high * p + rest
  }

  predicate IsQuotient(q: nat, x: nat, d: nat)
    requires d > 0
  {
    q == x / d
  }

  /** One step of exact long division: t is the quotient of what is left. */
  lemma LongDivisionStep(rem: nat, byte: Byte, d: nat, p: nat, rest: nat, t: nat)
    requires 0 < d <= 0x100_0000_0000_0000 && rem < d && p > 0
    ensures Remainder(rem, byte, d) < d
    ensures IsQuotient(t, Join(Remainder(rem, byte, d), p, rest), d)
        ==> IsQuotient(Join(Digit(rem, byte, d), p, t), Join(rem, 256 * p, Join(byte, p, rest)), d)
  {
    var r := rem * 256 + byte;
    assert Shifted(rem, byte) == r;
    DivBelow(r, d, 256);
    SmallMod(r / d, 256);
    hide Shifted;
    var q, s := r / d, r % d;
    ShiftedDivision(r, d, p);
    ShiftRemainder(rem, byte, p);
    QuotientOf(rem * (256 * p) + (byte * p + rest), d, q * p, s * p + rest);
  }

  lemma ShiftRemainder(rem: nat, byte: nat, p: nat)
    ensures rem * (256 * p) + byte * p == (rem * 256 + byte) * p
  {
    assert rem * (256 * p) == rem * 256 * p;
    assert (rem * 256 + byte) * p == rem * 256 * p + byte * p;
  }

  lemma ShiftedDivision(r: nat, d: nat, p: nat)
    requires d > 0
    ensures r * p == d * (r / d * p) + r % d * p
  {
    var q, s := r / d, r % d;
    assert r == d * q + s;
    assert (d * q + s) * p == d * q * p + s * p;
    assert d * q * p == d * (q * p);
  }

  lemma DivideHead(h: seq<Byte>, d: nat, rem: nat)
    requires h != [] && d > 0
    ensures BigEndian(DivideBytes(h, d, rem))
         == Join(Digit(rem, h[0], d), Pow2(8 * (|h| - 1)), BigEndian(DivideBytes(h[1..], d, Remainder(rem, h[0], d))))
  {
    hide Pow2, BigEndian, Digit, Remainder;
    var q := DivideBytes(h, d, rem);
    assert q[0..] == q && q[1..] == DivideBytes(h[1..], d, Remainder(rem, h[0], d)) && q[0] == Digit(rem, h[0], d);
    BigEndianHead(q, 0);
  }

  lemma DivideNothing(h: seq<Byte>, d: nat, rem: nat)
    requires h == [] && rem < d
    ensures IsQuotient(BigEndian(DivideBytes(h, d, rem)), Join(rem, Pow2(8 * |h|), BigEndian(h)), d)
  {
    TopMantissa();
    SmallDivision(rem, d);
    assert rem * 1 == rem;
  }

  /** With a divisor up to 2^56 the 64-bit remainder never wraps and the division is exact. */
  lemma {:induction false} DivideExact(h: seq<Byte>, d: nat, rem: nat)
    requires 0 < d <= 0x100_0000_0000_0000 && rem < d
    ensures IsQuotient(BigEndian(DivideBytes(h, d, rem)), Join(rem, Pow2(8 * |h|), BigEndian(h)), d)
  {
    if h == [] {
      DivideNothing(h, d, rem);
    } else {
      hide BigEndian, DivideBytes, Digit, Remainder, IsQuotient, Pow2;
      var p, rest := Pow2(8 * (|h| - 1)), h[1..];
      LongDivisionStep(rem, h[0], d, p, BigEndian(rest), 0);
      var t := BigEndian(DivideBytes(rest, d, Remainder(rem, h[0], d)));
      LongDivisionStep(rem, h[0], d, p, BigEndian(rest), t);
      NumberHead(h);
      hide Join;
      DivideExact(rest, d, Remainder(rem, h[0], d));
      Pow2Bytes(|h| - 1);
      DivideHead(h, d, rem);
    }
  }

  lemma NumberHead(h: seq<Byte>)
    requires h != []
    ensures BigEndian(h) == Join(h[0], Pow2(8 * (|h| - 1)), BigEndian(h[1..]))
  {
    hide Pow2, BigEndian;
    assert h[0..] == h;
    BigEndianHead(h, 0);
  }

  /** The number 2^248. */
  function Wrapping(): (h: seq<Byte>)
    ensures |h| == 32
  {
    [1] + seq(31, i => 0)
  }

  lemma {:induction false} ZerosAreZero(h: seq<Byte>)
    requires forall i :: 0 <= i < |h| ==> h[i] == 0
    ensures BigEndian(h) == 0
  {
    if h != [] { ZerosAreZero(h[..|h| - 1]); }
  }

  /** A power of 256 up to 2^56, or nothing: what is left of the shifted-out 1. */
  predicate ShiftedOne(rem: nat) {
    rem == 0 || rem == 1 || rem == 0x100 || rem == 0x1_0000 || rem == 0x100_0000 || rem == 0x1_0000_0000
    || rem == 0x100_0000_0000 || rem == 0x1_0000_0000_0000 || rem == 0x100_0000_0000_0000
  }

  lemma {:induction false} ShiftedOut(h: seq<Byte>, d: nat, rem: nat)
    requires d > 0x100_0000_0000_0000 && ShiftedOne(rem) && forall i :: 0 <= i < |h| ==> h[i] == 0
    ensures BigEndian(DivideBytes(h, d, rem)) == 0
  {
    if h != [] {
      hide BigEndian, DivideBytes, Pow2;
      var r := Shifted(rem, 0);
      assert ShiftedOne(r);
      SmallDivision(r, d);
      ShiftedOut(h[1..], d, r);
      DivideHead(h, d, rem);
      assert 0 * Pow2(8 * (|h| - 1)) == 0;
    } else {
      assert BigEndian([]) == 0;
    }
  }

  lemma SmallDivision(r: nat, d: nat)
    requires r < d
    ensures r / d == 0 && r % d == r
  {
    DivModUnique(r, d, 0, r);
  }

  /** Above 2^56 the remainder of 2^248 wraps to zero: the quotient comes out as zero. */
  lemma DivideWraps(d: nat)
    requires 0x100_0000_0000_0000 < d < 0x1_0000_0000_0000_0000
    ensures BigEndian(DivideBytes(Wrapping(), d, 0)) == 0 && BigEndian(Wrapping()) / d > 0
  {
    WrappingValue();
    WrappingDivided(d);
    LargePower(d);
    hide BigEndian, DivideBytes, Wrapping, Pow2;
  }

  lemma WrappingValue()
    ensures BigEndian(Wrapping()) == Pow2(248)
  {
    hide BigEndian, Pow2;
    var h := Wrapping();
    assert h[0] == 1 && h[0..] == h && forall i :: 0 <= i < 31 ==> h[1..][i] == 0;
    ZerosAreZero(h[1..]);
    BigEndianHead(h, 0);
  }

  lemma WrappingDivided(d: nat)
    requires d > 0x100_0000_0000_0000
    ensures BigEndian(DivideBytes(Wrapping(), d, 0)) == 0
  {
    var h := Wrapping();
    assert h[0] == 1 && forall i :: 0 <= i < 31 ==> h[1..][i] == 0;
    SmallDivision(1, d);
    hide BigEndian, DivideBytes, Pow2, Wrapping;
    ShiftedOut(h[1..], d, 1);
    DivideHead(h, d, 0);
    assert 0 * Pow2(248) == 0;
  }

  lemma LargePower(d: nat)
    requires 0 < d < 0x1_0000_0000_0000_0000
    ensures Pow2(248) / d >= 1
  {
    SixtyFour();
    hide Pow2;
    Pow2Order(64, 248);
    QuotientAtLeast(Pow2(248), d, 1);
  }

  lemma SixtyFour()
    ensures Pow2(64) == 0x1_0000_0000_0000_0000
  {
    Pow2Values();
    Pow2Sum(32, 32);
  }

  /** The helper divides exactly, for every target, precisely for divisors up to 2^56. */
  lemma DivideExactIff(d: nat)
    requires 0 < d < 0x1_0000_0000_0000_0000
    ensures (forall h: seq<Byte> :: |h| == 32 ==> BigEndian(DivideBytes(h, d, 0)) == BigEndian(h) / d)
       <==> d <= 0x100_0000_0000_0000
  {
    hide BigEndian, DivideBytes, Pow2, Wrapping;
    if d <= 0x100_0000_0000_0000 {
      forall h: seq<Byte> | |h| == 32 ensures BigEndian(DivideBytes(h, d, 0)) == BigEndian(h) / d {
        DivideExact(h, d, 0);
        assert 0 * Pow2(256) == 0;
      }
    } else {
      DivideWraps(d);
    }
  }
}
