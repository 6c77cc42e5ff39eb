/** Compact form to bytes and back, comparison, and the difficulty-to-target computation. */
module TargetConvert {
  import opened Arithmetic
  import opened Words
  import opened LeadingZeros
  import opened CompactTarget
  import opened TargetBytes

  /** Three bytes as a number, most significant first. */
  function Number3(a: int, b: int, c: int): int {
    0x1_0000 * a + 0x100 * b + c
  }

  // ----- bytes to compact form -----

  lemma {:induction false} SkipZeros(t: seq<Byte>, f: nat)
    requires f <= |t| && forall i :: 0 <= i < f ==> t[i] == 0
    ensures BigEndian(t) == BigEndian(t[f..])
    decreases f
  {
    if f == 0 {
      assert t[0..] == t;
    } else {
      SkipZeros(t, f - 1);
      hide Pow2, BigEndian;
      BigEndianHead(t, f - 1);
      assert 0 * Pow2(8 * (|t| - f)) == 0;
    }
  }

  /** The first byte fixes the byte length of the compact form. */
  lemma LengthOfBytes(h: seq<Byte>)
    requires h != [] && h[0] > 0
    ensures BigEndian(h) > 0
    ensures ByteLen(BigEndian(h)) == if h[0] >= 0x80 then |h| + 1 else |h|
  {
    hide BigEndian;
    var n := |h| - 1;
    assert h[0..] == h;
    BigEndianHead(h, 0);
    BigEndianBound(h[1..]);
    Pow2Values();
    BitLengthAtMost(h[0], 8);
    BitLengthAtMost(h[0], 7);
    BitLengthAtMost(h[0], 0);
    hide Pow2;
    BitLengthShift(h[0], BigEndian(h[1..]), 8 * n);
    hide BitLength;
    assert BitLength(BigEndian(h)) == BitLength(h[0]) + 8 * n;
    MulOrder(Pow2(8 * n), 1, h[0]);
    assert h[0] * Pow2(8 * n) == Pow2(8 * n) * h[0];
  }

  lemma ThreeBytes(a: Byte, b: Byte, c: Byte)
    ensures BigEndian([a, b, c]) == Number3(a, b, c)
    ensures BigEndian([a, b]) == Number3(0, a, b) && BigEndian([a]) == a
  {
    assert [a, b, c][..2] == [a, b];
    assert [a, b][..1] == [a];
    assert [a][..0] == [];
    assert BigEndian([a]) == a;
    assert BigEndian([a, b]) == 256 * a + b;
  }

  /** The top three bytes are the quotient by the weight of the rest. */
  lemma TopThree(h: seq<Byte>)
    requires |h| >= 3
    ensures BigEndian(h) / Pow2(8 * (|h| - 3)) == Number3(h[0], h[1], h[2])
  {
    hide Pow2, BigEndian, Number3;
    var top, rest := [h[0], h[1], h[2]], h[3..];
    assert h == top + rest;
    BigEndianConcat(top, rest);
    BigEndianBound(rest);
    ThreeBytes(h[0], h[1], h[2]);
    TopPart(BigEndian(h), Pow2(8 * |rest|), BigEndian(top), BigEndian(rest));
  }

  lemma TopPart(v: nat, p: nat, top: nat, rest: nat)
    requires rest < p && v == top * p + rest
    ensures v / p == top
  {
    assert top * p == p * top;
    DivModUnique(v, p, top, rest);
  }

  lemma NextQuotient(v: nat, p: nat)
    requires p > 0
    ensures v / (256 * p) == v / p / 256
  {
    var q := v / p;
    var a, b := q / 256, q % 256;
    assert v == p * (256 * a + b) + v % p;
    Distribute(p, 256 * a, b);
    assert p * (256 * a) == 256 * p * a;
    MulOrder(p, b, 255);
    DivModUnique(v, 256 * p, a, p * b + v % p);
  }

  /** The first three bytes, missing ones as zero. */
  function RawMantissa(h: seq<Byte>): int
    requires h != []
  {
    Number3(h[0], if |h| >= 2 then h[1] else 0, if |h| >= 3 then h[2] else 0)
  }

  lemma RawRange(h: seq<Byte>)
    requires h != []
    ensures 0 <= RawMantissa(h) < 0x100_0000 && (RawMantissa(h) >= 0x80_0000 <==> h[0] >= 0x80)
  {
  }

  lemma LongMantissa(h: seq<Byte>)
    requires |h| >= 3 && h[0] > 0
    ensures Mantissa(BigEndian(h)) == if h[0] >= 0x80 then RawMantissa(h) / 256 else RawMantissa(h)
  {
    LengthOfBytes(h);
    TopThree(h);
    var n := |h| - 3;
    Pow2Bytes(n);
    hide Pow2, BigEndian, ByteLen, Number3;
    NextQuotient(BigEndian(h), Pow2(8 * n));
  }

  lemma ShortValue(h: seq<Byte>)
    requires 1 <= |h| <= 2
    ensures |h| == 2 ==> RawMantissa(h) == BigEndian(h) * 0x100
    ensures |h| == 1 ==> RawMantissa(h) == BigEndian(h) * 0x1_0000
  {
    assert |h| == 2 ==> h == [h[0], h[1]];
    assert |h| == 1 ==> h == [h[0]];
    ThreeBytes(h[0], if |h| == 2 then h[1] else 0, 0);
    hide BigEndian;
  }

  lemma ShortMantissa(h: seq<Byte>)
    requires 1 <= |h| <= 2 && h[0] > 0
    ensures Mantissa(BigEndian(h)) == if h[0] >= 0x80 then RawMantissa(h) / 256 else RawMantissa(h)
  {
    LengthOfBytes(h);
    ShortValue(h);
    Pow2Values();
    TopMantissa();
    hide Pow2, BigEndian, ByteLen, RawMantissa;
    var v := BigEndian(h);
    assert v * 0x100 / 0x100 == v && v * 0x1_0000 / 0x100 == v * 0x100;
  }

  method TargetToNbits(target: seq<Byte>) returns (nbits: Word)
    requires |target| == 32
    ensures BigEndian(target) < Pow2(256) && nbits == Encode(BigEndian(target))
  {
    hide Pow2, ByteLen, Mantissa, Number3;
    BigEndianBound(target);
    assert BigEndian([]) == 0;
    hide BigEndian;
    var first := 0;
    while first < 32 && target[first] == 0
      invariant 0 <= first <= 32 && forall i :: 0 <= i < first ==> target[i] == 0
    {
      first := first + 1;
    }
    SkipZeros(target, first);
    if first == 32 {
      assert target[32..] == [];
      return 0;
    }
    ghost var h := target[first..];
    var len := 32 - first;
    var mantissa := 0;
    if len >= 3 {
      mantissa := Number3(target[first], target[first + 1], target[first + 2]);
      LongMantissa(h);
    } else if len == 2 {
      mantissa := Number3(target[first], target[first + 1], 0);
      ShortMantissa(h);
    } else {
      mantissa := Number3(target[first], 0, 0);
      ShortMantissa(h);
    }
    assert mantissa == RawMantissa(h);
    EncodeFits(BigEndian(target));
    LengthOfBytes(h);
    RawRange(h);
    if mantissa >= 0x80_0000 {
      mantissa := mantissa / 256;
      len := len + 1;
    }
    nbits := len * 0x100_0000 + mantissa;
  }

  // ----- compact form to bytes -----

  lemma {:induction false} LittleEndianConcat(a: seq<Byte>, b: seq<Byte>)
    ensures LittleEndian(a + b) == LittleEndian(a) + LittleEndian(b) * Pow2(8 * |a|)
    decreases |a|
  {
    if a == [] {
      TopMantissa();
      assert a + b == b;
    } else {
      hide Pow2;
      LittleEndianConcat(a[1..], b);
      assert (a + b)[1..] == a[1..] + b;
      Pow2Bytes(|a| - 1);
      Regroup(LittleEndian(b), Pow2(8 * (|a| - 1)), LittleEndian(a[1..]));
    }
  }

  lemma {:induction false} LittleEndianZeros(t: seq<Byte>)
    requires forall i :: 0 <= i < |t| ==> t[i] == 0
    ensures LittleEndian(t) == 0
  {
    if t != [] { LittleEndianZeros(t[1..]); }
  }

  function MantissaByte(mant: nat, i: nat): Byte
    requires mant < 0x100_0000 && i < 3
  {
    if i == 0 then mant % 0x100 else if i == 1 then mant / 0x100 % 0x100 else mant / 0x1_0000
  }

  lemma MantissaBytes(mant: nat)
    requires mant < 0x100_0000
    ensures mant == Number3(MantissaByte(mant, 2), MantissaByte(mant, 1), MantissaByte(mant, 0))
  {
    var q := mant / 0x100;
    assert mant / 0x1_0000 == q / 0x100;
  }

  lemma LowThree(a: Byte, b: Byte, c: Byte)
    ensures LittleEndian([a, b, c]) == Number3(c, b, a)
    ensures LittleEndian([a, b]) == Number3(0, b, a) && LittleEndian([a]) == a
  {
    assert [c][1..] == [] && LittleEndian([c]) == c;
    assert [b, c][1..] == [c] && [a, b, c][1..] == [b, c];
    assert [b][1..] == [] && LittleEndian([b]) == b;
    assert [a, b][1..] == [b] && [a][1..] == [];
  }

  /** kept at byte k, zeros elsewhere. */
  lemma PlacedValue(t: seq<Byte>, kept: seq<Byte>, k: nat)
    requires k + |kept| <= |t| && t[k..k + |kept|] == kept
    requires forall j :: 0 <= j < |t| && !(k <= j < k + |kept|) ==> t[j] == 0
    ensures LittleEndian(t) == LittleEndian(kept) * Pow2(8 * k)
  {
    hide Pow2, LittleEndian;
    var low, high := t[..k], t[k + |kept|..];
    LittleEndianZeros(low);
    LittleEndianZeros(high);
    assert t == low + (kept + high);
    LittleEndianConcat(low, kept + high);
    LittleEndianConcat(kept, high);
    assert 0 * Pow2(8 * |kept|) == 0;
  }

  /** Dropping the bytes that do not fit is reduction modulo 2^256. */
  lemma WrapDrops(mant: nat, kept: nat, high: nat, n: nat, k: nat)
    requires mant == kept + Pow2(8 * n) * high && n + k == 32 && kept < Pow2(8 * n)
    ensures Wrapped(mant * Pow2(8 * k)) == kept * Pow2(8 * k)
  {
    hide Pow2;
    Pow2Sum(8 * n, 8 * k);
    var a, p := Pow2(8 * n), Pow2(8 * k);
    Spread(kept, a, high, p);
    MulBelow(kept, a, p);
    DivModUnique(mant * p, a * p, high, kept * p);
  }

  lemma Spread(kept: nat, a: nat, high: nat, p: nat)
    ensures (kept + a * high) * p == a * p * high + kept * p
  {
    assert (kept + a * high) * p == kept * p + a * high * p;
    assert a * high * p == a * p * high;
  }

  lemma WrapAll(mant: nat, k: nat)
    requires k >= 32
    ensures Wrapped(mant * Pow2(8 * k)) == 0
  {
    hide Pow2;
    Pow2Sum(256, 8 * k - 256);
    var a, b := Pow2(256), Pow2(8 * k - 256);
    Rotate(mant, a, b);
    MultipleMod(a, b * mant);
  }

  lemma Rotate(x: nat, a: nat, b: nat)
    ensures x * (a * b) == a * (b * x)
  {
    assert x * (a * b) == x * a * b;
    assert a * (b * x) == a * b * x;
  }

  lemma WrapNothing(mant: nat, k: nat)
    requires mant < 0x100_0000 && k <= 29
    ensures Wrapped(mant * Pow2(8 * k)) == mant * Pow2(8 * k)
  {
    hide Pow2;
    Pow2Values();
    Pow2Sum(24, 8 * k);
    Pow2Order(24 + 8 * k, 256);
    MulBelow(mant, 0x100_0000, Pow2(8 * k));
    SmallMod(mant * Pow2(8 * k), Pow2(256));
  }

  /** The number in t when the mantissa bytes that fit stand from byte k on. */
  lemma PlacedMantissa(t: seq<Byte>, mant: nat, k: nat)
    requires |t| == 32 && mant < 0x100_0000
    requires forall j: nat :: j < 32 ==> t[j] == if k <= j < k + 3 then MantissaByte(mant, j - k) else 0
    ensures LittleEndian(t) == Wrapped(mant * Pow2(8 * k))
  {
    var a, b, c := MantissaByte(mant, 0), MantissaByte(mant, 1), MantissaByte(mant, 2);
    hide Pow2, LittleEndian, MantissaByte, Wrapped, Number3;
    LowThree(a, b, c);
    if k <= 29 {
      MantissaBytes(mant);
      PlacedValue(t, [a, b, c], k);
      WrapNothing(mant, k);
    } else if k == 30 {
      assert t[30] == a && t[31] == b;
      PlacedValue(t, [a, b], k);
      DropOne(mant);
    } else if k == 31 {
      PlacedValue(t, [a], k);
      DropTwo(mant);
    } else {
      LittleEndianZeros(t);
      WrapAll(mant, k);
    }
  }

  lemma DropOne(mant: nat)
    requires mant < 0x100_0000
    ensures Wrapped(mant * Pow2(240)) == Number3(0, MantissaByte(mant, 1), MantissaByte(mant, 0)) * Pow2(240)
  {
    MantissaBytes(mant);
    Pow2Values();
    hide Pow2, Wrapped;
    WrapDrops(mant, Number3(0, MantissaByte(mant, 1), MantissaByte(mant, 0)), MantissaByte(mant, 2), 2, 30);
  }

  lemma DropTwo(mant: nat)
    requires mant < 0x100_0000
    ensures Wrapped(mant * Pow2(248)) == MantissaByte(mant, 0) * Pow2(248)
  {
    MantissaBytes(mant);
    Pow2Values();
    hide Pow2, Wrapped;
    WrapDrops(mant, MantissaByte(mant, 0), Number3(0, MantissaByte(mant, 2), MantissaByte(mant, 1)), 1, 31);
  }

  method NbitsToTarget(nbits: Word) returns (target: seq<Byte>)
    ensures |target| == 32 && LittleEndian(target) == Decode(nbits)
  {
    hide Pow2, LittleEndian, Wrapped;
    var exp, mant := nbits / 0x100_0000, nbits % 0x100_0000;
    if exp <= 3 {
      var v := ShiftRight(mant, 3 - exp);
      target := seq(32, i requires 0 <= i < 32 => if i < 3 then MantissaByte(v, i) else 0);
      SmallValue(target, v);
      return;
    }
    var t := new Byte[32](_ => 0);
    var i := 0;
    while i < 3
      invariant 0 <= i <= 3
      invariant forall j: nat :: j < 32 ==>
        t[j] == if exp - 3 <= j < exp - 3 + i then MantissaByte(mant, j - (exp - 3)) else 0
    {
      var idx := exp - 3 + i;
      if idx < 32 { t[idx] := MantissaByte(mant, i); }
      i := i + 1;
    }
    target := t[..];
    PlacedMantissa(target, mant, exp - 3);
  }

  /** mant >> 8k */
  method ShiftRight(mant: nat, k: nat) returns (v: nat)
    requires mant < 0x100_0000 && k <= 3
    ensures v < 0x100_0000 && v == Unshifted(mant, k)
  {
    TopMantissa();
    Pow2Values();
    hide Pow2;
    v := if k == 0 then mant else if k == 1 then mant / 0x100
         else if k == 2 then mant / 0x1_0000 else mant / 0x100_0000;
  }

  lemma SmallValue(t: seq<Byte>, v: nat)
    requires |t| == 32 && v < 0x100_0000
    requires forall i: nat :: i < 32 ==> t[i] == if i < 3 then MantissaByte(v, i) else 0
    ensures LittleEndian(t) == v
  {
    PlacedMantissa(t, v, 0);
    WrapNothing(v, 0);
    TopMantissa();
    hide Pow2;
    assert v * 1 == v;
  }

  // ----- comparison -----

  /** Two numbers that agree above byte i compare as their bytes i do. */
  lemma CompareAt(h: seq<Byte>, t: seq<Byte>, i: nat)
    requires |h| == |t| && i < |h| && h[i + 1..] == t[i + 1..] && h[i] < t[i]
    ensures LittleEndian(h) < LittleEndian(t)
  {
    hide Pow2, LittleEndian;
    var p := Pow2(8 * i);
    assert h == h[..i + 1] + h[i + 1..] && t == t[..i + 1] + t[i + 1..];
    LittleEndianConcat(h[..i + 1], h[i + 1..]);
    LittleEndianConcat(t[..i + 1], t[i + 1..]);
    LittleEndianLast(h, i);
    LittleEndianLast(t, i);
    LittleEndianBound(h[..i]);
    MulOrder(p, h[i] + 1, t[i]);
    assert p * (h[i] + 1) == h[i] * p + p && p * t[i] == t[i] * p;
  }

  method AtMost(h: seq<Byte>, t: seq<Byte>) returns (ok: bool)
    requires |h| == 32 && |t| == 32
    ensures ok == (LittleEndian(h) <= LittleEndian(t))
  {
    hide LittleEndian;
    var i := 32;
    while i > 0
      invariant 0 <= i <= 32 && h[i..] == t[i..]
    {
      i := i - 1;
      if h[i] < t[i] { CompareAt(h, t, i); return true; }
      if h[i] > t[i] { CompareAt(t, h, i); return false; }
      assert h[i..] == [h[i]] + h[i + 1..] && t[i..] == [t[i]] + t[i + 1..];
    }
    assert h[0..] == h && t[0..] == t;
    return true;
  }

  /** The harder of two compact targets; zero stands for unset. */
  function Tighter(a: Word, b: Word): Word {
    if a == 0 then b else if b == 0 then a else if Decode(b) < Decode(a) then b else a
  }

  method TighterTarget(a: Word, b: Word) returns (r: Word)
    ensures r == Tighter(a, b)
  {
    hide LittleEndian, Decode;
    if a == 0 { return b; }
    if b == 0 { return a; }
    var ta := NbitsToTarget(a);
    var tb := NbitsToTarget(b);
    var i := 32;
    while i > 0
      invariant 0 <= i <= 32 && ta[i..] == tb[i..]
    {
      i := i - 1;
      if ta[i] != tb[i] {
        if ta[i] < tb[i] { CompareAt(ta, tb, i); return a; }
        CompareAt(tb, ta, i);
        return b;
      }
      assert ta[i..] == [ta[i]] + ta[i + 1..] && tb[i..] == [tb[i]] + tb[i + 1..];
    }
    assert ta[0..] == ta && tb[0..] == tb;
    return a;
  }

  /** hash, a little-endian number, is at most the scaled target. */
  predicate Clears(hash: seq<Byte>, nbits: Word, daf: nat) {
    LittleEndian(hash) <= Scaled(Decode(nbits), daf)
  }

  method HashClears(hash: seq<Byte>, nbits: Word, daf: nat) returns (ok: bool)
    requires |hash| == 32
    ensures ok == Clears(hash, nbits, daf)
  {
    hide LittleEndian, Decode, Scaled;
    var raw := NbitsToTarget(nbits);
    var scaled := MultiplyTarget(raw, daf);
    ok := AtMost(hash, scaled);
  }
}
