/**
 Compact ("nbits") targets as numbers: three mantissa bytes and a byte length, the top mantissa
 bit kept clear. Expanding a compacted target rounds it down; how far is stated exactly.
 */
module CompactTarget {
  import opened Arithmetic
  import opened Words
  import opened LeadingZeros

  type Target = t: nat | t < Pow2(256)

  // ----- powers of two -----

  lemma {:induction false} Pow2Order(a: nat, b: nat)
    requires a <= b
    ensures Pow2(a) <= Pow2(b)
    decreases b
  {
    if a < b { Pow2Order(a, b - 1); }
  }

  // ----- encoding and decoding -----

  /** Bytes needed for t and a clear sign bit. */
  function ByteLen(t: nat): nat {
    BitLength(t) / 8 + 1
  }

  function Mantissa(t: nat): nat {
    var e := ByteLen(t);
    if e >= 3 then t / Pow2(8 * (e - 3)) else t * Pow2(8 * (3 - e))
  }

  function Encode(t: Target): nat {
    if t == 0 then 0 else ByteLen(t) * 0x100_0000 + Mantissa(t)
  }

  /** Mantissa bytes beyond bit 255 are dropped. */
  function Wrapped(x: nat): Target {
    x % Pow2(256)
  }

  function Unshifted(mant: nat, k: nat): Target
    requires mant < 0x100_0000
  {
    DecodeSmall(mant, k);
    mant / Pow2(8 * k)
  }

  function Decode(nbits: Word): Target {
    var exp, mant := nbits / 0x100_0000, nbits % 0x100_0000;
    if exp <= 3 then Unshifted(mant, 3 - exp) else Wrapped(mant * Pow2(8 * (exp - 3)))
  }

  lemma DecodeSmall(mant: nat, k: nat)
    requires mant < 0x100_0000
    ensures mant / Pow2(8 * k) < Pow2(256)
  {
    var p, q := Pow2(8 * k), mant / Pow2(8 * k);
    Pow2Values();
    Pow2Order(24, 256);
    hide Pow2;
    assert q <= mant by { if q > 0 { MulOrder(q, 1, p); } }
  }

  // ----- rounding -----

  /** The weight of the lowest mantissa byte kept. */
  function Unit(t: nat): (u: nat)
    ensures u > 0
  {
    if ByteLen(t) > 3 then Pow2(8 * (ByteLen(t) - 3)) else 1
  }

  /** t rounded down to its unit. */
  function Compact(t: nat): nat {
    t / Unit(t) * Unit(t)
  }

  lemma BitRange(t: nat)
    requires t > 0
    ensures BitLength(t) > 0 && Pow2(BitLength(t) - 1) <= t < Pow2(BitLength(t))
  {
    hide Pow2;
    BitLengthAtMost(t, BitLength(t));
    BitLengthAtMost(t, BitLength(t) - 1);
  }

  lemma CompactBelow(t: nat)
    ensures Compact(t) <= t < Compact(t) + Unit(t)
  {
    hide Unit;
    var u := Unit(t);
    assert t == u * (t / u) + t % u;
    assert u * (t / u) == t / u * u;
  }

  /** A unit is at most 2^-15 of the target. */
  lemma UnitIsSmall(t: nat)
    requires t > 0
    ensures Unit(t) == 1 || 0x8000 * Unit(t) <= t
  {
    BitRange(t);
    if ByteLen(t) > 3 {
      var k := 8 * (ByteLen(t) - 3);
      assert 15 + k <= BitLength(t) - 1;
      Pow2Order(15 + k, BitLength(t) - 1);
      Pow2Sum(15, k);
      assert Pow2(15) == 0x8000;
      hide Pow2, BitLength;
    }
  }

  /** Rounding loses less than one part in 2^15. */
  lemma LossIsSmall(t: nat)
    requires t > 0
    ensures Compact(t) <= t && 0x8000 * (t - Compact(t)) < t
  {
    hide Unit, Compact;
    CompactBelow(t);
    UnitIsSmall(t);
  }

  lemma MantissaFits(t: nat)
    requires t > 0
    ensures Mantissa(t) < 0x80_0000
  {
    BitRange(t);
    var e, b := ByteLen(t), BitLength(t);
    assert b <= 8 * e - 1;
    Pow2Order(b, 8 * e - 1);
    TopMantissa();
    hide Pow2, BitLength;
    if e >= 3 {
      var k := 8 * (e - 3);
      Pow2Sum(23, k);
      DivBelow(t, Pow2(k), 0x80_0000);
    } else {
      var k := 8 * (3 - e);
      Pow2Sum(8 * e - 1, k);
      MulBelow(t, Pow2(8 * e - 1), Pow2(k));
    }
  }

  lemma TopMantissa()
    ensures Pow2(23) == 0x80_0000 && Pow2(0) == 1
  {
    assert Pow2(12) == 0x1000;
    assert Pow2(23) == 0x80_0000;
  }

  lemma DivBelow(t: nat, p: nat, m: nat)
    requires p > 0 && t < m * p
    ensures t / p < m
  {
    var q := t / p;
    assert p * q <= t;
    assert p * m == m * p;
    if q >= m { MulOrder(p, m, q); }
  }

  lemma MulBelow(a: nat, b: nat, p: nat)
    requires a < b && p > 0
    ensures a * p < b * p
  {
    MulOrder(p, a + 1, b);
    assert p * (a + 1) == a * p + p && p * b == b * p;
  }

  lemma ByteLenAtMost(t: Target)
    ensures ByteLen(t) <= 33
  {
    hide Pow2;
    BitLengthAtMost(t, 256);
  }

  lemma EncodeFits(t: Target)
    ensures Encode(t) < 0x1_0000_0000
  {
    hide Pow2, BitLength, ByteLen, Mantissa;
    ByteLenAtMost(t);
    if t > 0 { MantissaFits(t); }
  }

  lemma EncodeParts(t: Target)
    requires t > 0
    ensures Encode(t) / 0x100_0000 == ByteLen(t) && Encode(t) % 0x100_0000 == Mantissa(t)
  {
    hide Pow2, BitLength, ByteLen, Mantissa;
    MantissaFits(t);
    DivModUnique(Encode(t), 0x100_0000, ByteLen(t), Mantissa(t));
  }

  /** Expanding a compacted target gives it rounded down to its unit. */
  lemma DecodeEncode(t: Target)
    ensures Encode(t) < 0x1_0000_0000 && Decode(Encode(t)) == Compact(t)
  {
    EncodeFits(t);
    CompactBelow(t);
    if t == 0 {
      ZeroTarget();
    } else {
      EncodeParts(t);
      var e := ByteLen(t);
      assert e >= 1;
      TopMantissa();
      hide Pow2, BitLength, ByteLen, Encode;
      if e == 3 {
        assert t / 1 == t && t * 1 == t;
      } else if e < 3 {
        var p := Pow2(8 * (3 - e));
        assert t * p == p * t;
        MultipleMod(p, t);
      } else {
        var p := Pow2(8 * (e - 3));
        assert Compact(t) == Mantissa(t) * p;
        SmallMod(Mantissa(t) * p, Pow2(256));
      }
    }
  }

  lemma SmallMod(x: nat, p: nat)
    requires x < p
    ensures x % p == x
  {
  }

  lemma ZeroTarget()
    ensures Encode(0) == 0 && Decode(0) == 0 && Compact(0) == 0
  {
    assert 0 / Pow2(24) == 0 by { DivBelow(0, Pow2(24), 1); }
  }

  /** Rounding keeps the bit length, hence the unit. */
  lemma CompactSameLength(t: nat)
    requires t > 0
    ensures BitLength(Compact(t)) == BitLength(t)
  {
    var b := BitLength(t);
    BitRange(t);
    CompactBelow(t);
    TopMultiple(t);
    hide Pow2, BitLength, Compact;
    BitLengthAtMost(Compact(t), b);
    BitLengthAtMost(Compact(t), b - 1);
  }

  /** The leading bit of t is a multiple of the unit, so rounding keeps it. */
  lemma TopMultiple(t: nat)
    requires t > 0
    ensures BitLength(t) > 0 && Pow2(BitLength(t) - 1) <= Compact(t)
  {
    hide Pow2, BitLength;
    BitRange(t);
    var b, u := BitLength(t), Unit(t);
    if ByteLen(t) > 3 {
      var k := 8 * (ByteLen(t) - 3);
      Pow2Sum(b - 1 - k, k);
      KeepsMultiple(t, u, Pow2(b - 1 - k));
    } else {
      assert t / 1 * 1 == t;
    }
  }

  lemma KeepsMultiple(t: nat, u: nat, c: nat)
    requires u > 0 && c * u <= t
    ensures c * u <= t / u * u
  {
    assert c * u == u * c && t / u * u == u * (t / u);
    QuotientAtLeast(t, u, c);
    MulOrder(u, c, t / u);
  }

  lemma QuotientAtLeast(t: nat, u: nat, c: nat)
    requires u > 0 && u * c <= t
    ensures t / u >= c
  {
    var q := t / u;
    assert t < u * q + u;
    assert u * (q + 1) == u * q + u;
    if q < c { MulOrder(u, q + 1, c); }
  }

  /** Rounding twice is rounding once, and it re-encodes to the same word. */
  lemma CompactIdempotent(t: nat)
    ensures Compact(Compact(t)) == Compact(t)
  {
    if t == 0 {
      ZeroTarget();
    } else {
      CompactSameLength(t);
      assert Unit(Compact(t)) == Unit(t);
      hide BitLength, Unit;
      CompactQuotient(t);
    }
  }

  lemma CompactQuotient(t: nat)
    ensures Compact(t) / Unit(t) == t / Unit(t)
  {
    hide Unit;
    var u, q := Unit(t), t / Unit(t);
    assert q * u == u * q;
    MultipleMod(u, q);
  }

  lemma MantissaCompact(t: nat)
    requires t > 0
    ensures Mantissa(Compact(t)) == Mantissa(t)
  {
    CompactSameLength(t);
    CompactQuotient(t);
    TopMantissa();
    hide Pow2, BitLength;
    assert ByteLen(Compact(t)) == ByteLen(t);
    assert ByteLen(t) <= 3 ==> Compact(t) == t by { assert t / 1 * 1 == t; }
    hide Compact, ByteLen;
  }

  lemma EncodeCompact(t: Target)
    ensures Compact(t) < Pow2(256) && Encode(Compact(t)) == Encode(t)
  {
    CompactBelow(t);
    if t == 0 {
      ZeroTarget();
    } else {
      CompactSameLength(t);
      MantissaCompact(t);
      assert Compact(t) > 0;
      hide Pow2, BitLength, Compact, Mantissa;
    }
  }

  /** A larger target never rounds to a smaller one. */
  lemma CompactMonotone(t: nat, s: nat)
    requires t <= s
    ensures Compact(t) <= Compact(s)
  {
    if t == 0 {
      ZeroTarget();
    } else {
      BitRange(t);
      BitRange(s);
      BitLengthOrder(t, s);
      if BitLength(t) == BitLength(s) {
        assert Unit(t) == Unit(s);
        hide Pow2, BitLength, Unit;
        var u := Unit(t);
        QuotientOrder(t, s, u);
        MulOrder(u, t / u, s / u);
      } else {
        Pow2Order(BitLength(t), BitLength(s) - 1);
        TopMultiple(s);
        CompactBelow(t);
      }
    }
  }

  lemma QuotientOrder(t: nat, s: nat, u: nat)
    requires u > 0 && t <= s
    ensures t / u <= s / u
  {
    QuotientAtLeast(s, u, t / u);
  }

  lemma BitLengthOrder(t: nat, s: nat)
    requires t <= s
    ensures BitLength(t) <= BitLength(s)
  {
    hide Pow2;
    BitLengthAtMost(s, BitLength(s));
    BitLengthAtMost(t, BitLength(s));
  }
}
