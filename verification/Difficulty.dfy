/** The share target of a difficulty, as the byte arithmetic computes it. */
module Difficulty {
  import opened Arithmetic
  import opened Words
  import opened LeadingZeros
  import opened CompactTarget
  import opened TargetBytes
  import opened TargetConvert

  /** 0xFFFF * 2^208, in big-endian bytes. */
  function Diff1(): (t: seq<Byte>)
    ensures |t| == 32
  {
    [0, 0, 0, 0, 0xFF, 0xFF] + seq(26, i => 0)
  }

  /** The difficulty-1 target in millionths. */
  function Diff1Millionths(): nat {
    0xFFFF * 1000000 * Pow2(208)
  }

  lemma Diff1Fits()
    ensures Diff1Millionths() < Pow2(256)
  {
    hide Pow2;
    Pow2Sum(48, 208);
    FortyEight();
    MulBelow(0xFFFF * 1000000, 0x1_0000_0000_0000, Pow2(208));
  }

  lemma FortyEight()
    ensures Pow2(48) == 0x1_0000_0000_0000
  {
    Pow2Values();
    Pow2Sum(16, 32);
  }

  lemma Diff1Value()
    ensures BigEndian(Diff1()) * 1000000 == Diff1Millionths()
  {
    hide BigEndian, Pow2;
    var tail := seq(26, i => 0);
    assert Diff1()[4..] == [0xFF, 0xFF] + tail;
    SkipZeros(Diff1(), 4);
    BigEndianConcat([0xFF, 0xFF], tail);
    ThreeBytes(0xFF, 0xFF, 0);
    ZerosAreZero(tail);
  }

  /** The bytes after the multiplication by a million. */
  function Diff1Scaled(): (t: seq<Byte>)
    ensures |t| == 32
  {
    [0, 0x0F, 0x42, 0x30, 0xBD, 0xC0] + seq(26, i => 0)
  }

  lemma Diff1ScaledValue()
    ensures BigEndian(Diff1Scaled()) == Diff1Millionths()
  {
    hide Pow2, BigEndian;
    var tail := seq(26, i => 0);
    assert Diff1Scaled() == [0, 0x0F, 0x42] + ([0x30, 0xBD, 0xC0] + tail);
    BigEndianConcat([0, 0x0F, 0x42], [0x30, 0xBD, 0xC0] + tail);
    BigEndianConcat([0x30, 0xBD, 0xC0], tail);
    ThreeBytes(0, 0x0F, 0x42);
    ThreeBytes(0x30, 0xBD, 0xC0);
    ZerosAreZero(tail);
    Pow2Values();
    Pow2Sum(24, 208);
  }

  lemma {:induction false} BigEndianInjective(a: seq<Byte>, b: seq<Byte>)
    requires |a| == |b| && BigEndian(a) == BigEndian(b)
    ensures a == b
  {
    if a != [] {
      var n := |a| - 1;
      var x, y := BigEndian(a[..n]), BigEndian(b[..n]);
      assert 256 * x + a[n] == 256 * y + b[n];
      BigEndianInjective(a[..n], b[..n]);
      assert a == a[..n] + [a[n]] && b == b[..n] + [b[n]];
    }
  }

  /** The compact word the program computes, for every 64-bit divisor. */
  function CodeNbits(millionths: nat): (nbits: Word)
    requires millionths > 0
  {
    var q := DivideBytes(Diff1Scaled(), millionths, 0);
    BigEndianBound(q);
    EncodeFits(BigEndian(q));
    Encode(BigEndian(q))
  }

  /** The compact share target of a difficulty given in millionths. */
  method DifficultyToNbits(millionths: nat) returns (nbits: Word)
    requires 0 < millionths < 0x1_0000_0000_0000_0000
    ensures nbits == CodeNbits(millionths)
  {
    hide BigEndian, Encode, DivideBytes, Saturated, Diff1, Diff1Millionths, Diff1Scaled, Pow2;
    var be := new Byte[32](i requires 0 <= i < 32 => Diff1()[i]);
    assert be[..] == Diff1();
    Diff1Value();
    Diff1Fits();
    SaturatedSmall(Diff1Millionths());
    MultiplyInPlace(be, 1000000);
    Diff1ScaledValue();
    BigEndianInjective(be[..], Diff1Scaled());
    var quotient := DivideTarget(be, millionths);
    nbits := TargetToNbits(quotient);
  }

  lemma SaturatedSmall(x: nat)
    requires x < Pow2(256)
    ensures Saturated(x) == x
  {
    hide Pow2;
  }

  lemma QuotientFits(x: nat, d: nat)
    requires d > 0 && x < Pow2(256)
    ensures x / d < Pow2(256)
  {
    hide Pow2;
    MulOrder(Pow2(256), 1, d);
    DivBelow(x, d, Pow2(256));
  }

  lemma PdifFits(millionths: nat)
    requires millionths > 0
    ensures Diff1Millionths() / millionths < Pow2(256)
  {
    hide Pow2, Diff1Millionths;
    Diff1Fits();
    QuotientFits(Diff1Millionths(), millionths);
  }

  /** The exact share target: the difficulty-1 target divided by the difficulty. */
  function PdifTarget(millionths: nat): Target
    requires millionths > 0
  {
    PdifFits(millionths);
    Diff1Millionths() / millionths
  }

  /** Up to a divisor of 2^56 the computed word is the compact form of the exact quotient. */
  lemma CodeIsExact(millionths: nat)
    requires 0 < millionths <= 0x100_0000_0000_0000
    ensures CodeNbits(millionths) == Encode(PdifTarget(millionths))
  {
    hide BigEndian, Encode, DivideBytes, Diff1Millionths, Diff1Scaled, Pow2;
    Diff1ScaledValue();
    DivideExactIff(millionths);
  }

  /** Up to 2^56 millionths a larger difficulty never gives a larger target. */
  lemma HarderIsTighter(a: nat, b: nat)
    requires 0 < a <= b <= 0x100_0000_0000_0000
    ensures Decode(CodeNbits(b)) <= Decode(CodeNbits(a)) <= PdifTarget(a)
  {
    hide Pow2, Encode, Decode, Compact, Diff1Millionths, CodeNbits;
    CodeIsExact(a);
    CodeIsExact(b);
    DivideByMore(Diff1Millionths(), a, b);
    DecodeEncode(PdifTarget(a));
    DecodeEncode(PdifTarget(b));
    CompactMonotone(PdifTarget(b), PdifTarget(a));
    CompactBelow(PdifTarget(a));
  }

  // ----- above 2^56 -----

  /** One digit of the long division, and what is left to divide. */
  lemma NextDigit(h: seq<Byte>, i: nat, d: nat, rem: nat, digit: Byte, left: nat)
    requires i < |h| && d > 0 && Digit(rem, h[i], d) == digit && Remainder(rem, h[i], d) == left
    ensures DivideBytes(h[i..], d, rem) == [digit] + DivideBytes(h[i + 1..], d, left)
  {
    hide Digit, Remainder;
    assert h[i..][1..] == h[i + 1..];
  }

  /** A digit is zero while the shifted remainder is below the divisor. */
  lemma ZeroDigit(h: seq<Byte>, i: nat, d: nat, rem: nat, left: nat)
    requires i < |h| && Shifted(rem, h[i]) == left < d
    ensures DivideBytes(h[i..], d, rem) == [0] + DivideBytes(h[i + 1..], d, left)
  {
    hide DivideBytes;
    SmallDivision(left, d);
    NextDigit(h, i, d, rem, 0, left);
  }

  lemma FourZeros(h: seq<Byte>, i: nat, d: nat, r0: nat, r1: nat, r2: nat, r3: nat, r4: nat)
    requires i + 4 <= |h| && r1 < d && r2 < d && r3 < d && r4 < d
    requires Shifted(r0, h[i]) == r1 && Shifted(r1, h[i + 1]) == r2
    requires Shifted(r2, h[i + 2]) == r3 && Shifted(r3, h[i + 3]) == r4
    ensures DivideBytes(h[i..], d, r0) == [0, 0, 0, 0] + DivideBytes(h[i + 4..], d, r4)
  {
    hide DivideBytes, Shifted;
    ZeroDigit(h, i, d, r0, r1);
    ZeroDigit(h, i + 1, d, r1, r2);
    ZeroDigit(h, i + 2, d, r2, r3);
    ZeroDigit(h, i + 3, d, r3, r4);
  }

  lemma ScaledBytes()
    ensures var h := Diff1Scaled();
      && h[0] == 0 && h[1] == 0x0F && h[2] == 0x42 && h[3] == 0x30
      && h[4] == 0xBD && h[5] == 0xC0 && h[6] == 0 && h[7] == 0
  {
  }

  /** No bits are lost below 2^56. */
  lemma SmallShift(rem: nat, byte: Byte)
    requires rem < 0x100_0000_0000_0000
    ensures Shifted(rem, byte) == 256 * rem + byte
  {
    SmallMod(rem * 256, 0x1_0000_0000_0000_0000);
  }

  /** The first eight digits are zero for divisors this large. */
  lemma EightZeros(d: nat)
    requires 0x100_0000_0000_0000 <= d < 0x1_0000_0000_0000_0000
    ensures DivideBytes(Diff1Scaled(), d, 0)
         == [0, 0, 0, 0] + ([0, 0, 0, 0] + DivideBytes(Diff1Scaled()[8..], d, 4294901760000000))
  {
    hide DivideBytes, Shifted, Diff1Scaled;
    var h := Diff1Scaled();
    ScaledBytes();
    SmallShift(0, 0);
    SmallShift(0, 0x0F);
    SmallShift(15, 0x42);
    SmallShift(3906, 0x30);
    SmallShift(999984, 0xBD);
    SmallShift(255996093, 0xC0);
    SmallShift(65535000000, 0);
    SmallShift(16776960000000, 0);
    assert h[0..] == h;
    FourZeros(h, 0, d, 0, 0, 15, 3906, 999984);
    FourZeros(h, 4, d, 999984, 255996093, 65535000000, 16776960000000, 4294901760000000);
  }

  /** The word is fixed by the three digits behind eight zeros. */
  lemma WordOfDigits(d: nat, x: Byte, y: Byte, z: Byte, left: nat)
    requires 0x100_0000_0000_0000 <= d < 0x1_0000_0000_0000_0000 && 0 < x < 0x80
    requires DivideBytes(Diff1Scaled()[8..], d, 4294901760000000)
          == [x, y, z] + DivideBytes(Diff1Scaled()[11..], d, left)
    ensures CodeNbits(d) == 24 * 0x100_0000 + Number3(x, y, z)
  {
    hide DivideBytes, BigEndian, Pow2, Diff1Scaled, ByteLen, Mantissa;
    EightZeros(d);
    var q := DivideBytes(Diff1Scaled(), d, 0);
    var h := q[8..];
    assert h == [x, y, z] + DivideBytes(Diff1Scaled()[11..], d, left);
    SkipZeros(q, 8);
    LengthOfBytes(h);
    LongMantissa(h);
  }

  /** A digit and remainder found by hand. */
  lemma DigitIs(rem: nat, d: nat, q: Byte, r: nat)
    requires r < d && Shifted(rem, 0) == d * q + r
    ensures Digit(rem, 0, d) == q && Remainder(rem, 0, d) == r
  {
    hide Shifted;
    DivModUnique(Shifted(rem, 0), d, q, r);
    SmallMod(q, 256);
  }

  /** The three digits that decide the word, given the remainders between them. */
  lemma ThreeDigits(d: nat, x: Byte, y: Byte, z: Byte, r8: nat, r9: nat, r10: nat)
    requires 0x100_0000_0000_0000 <= d < 0x1_0000_0000_0000_0000 && 0 < x < 0x80
    requires r8 < d && r9 < d && r10 < d
    requires Shifted(4294901760000000, 0) == d * x + r8
    requires Shifted(r8, 0) == d * y + r9 && Shifted(r9, 0) == d * z + r10
    ensures CodeNbits(d) == 24 * 0x100_0000 + Number3(x, y, z)
  {
    hide DivideBytes, Shifted, Digit, Remainder, Number3, CodeNbits;
    var h := Diff1Scaled();
    assert h[8] == 0 && h[9] == 0 && h[10] == 0;
    hide Diff1Scaled;
    DigitIs(4294901760000000, d, x, r8);
    DigitIs(r8, d, y, r9);
    DigitIs(r9, d, z, r10);
    NextDigit(h, 8, d, 4294901760000000, x, r8);
    NextDigit(h, 9, d, r8, y, r9);
    NextDigit(h, 10, d, r9, z, r10);
    WordOfDigits(d, x, y, z, r10);
  }

  /** Third digit of the word while the second is 66. */
  function ThirdDigit(d: nat): (z: Byte)
    requires 0x100_0000_0000_0000 <= d <= 72061106437112135
  {
    ThirdDigitFits(d, 256 * (281470681743360000000 - 3906 * d));
    256 * (281470681743360000000 - 3906 * d) / d
  }

  lemma ThirdDigitFits(d: nat, x: nat)
    requires x < 256 * d
    ensures 0 <= x / d < 256
  {
    DivBelow(x, d, 256);
  }

  /** From 2^56 up to the first wrapping divisor no remainder loses a bit. */
  lemma BeforeWrap(d: nat)
    requires 0x100_0000_0000_0000 <= d <= 72061106437112135
    ensures CodeNbits(d) == 24 * 0x100_0000 + Number3(15, 66, ThirdDigit(d))
  {
    hide Shifted, CodeNbits, Number3;
    var r8, r9 := 1099494850560000000 - 15 * d, 281470681743360000000 - 3906 * d;
    SmallShift(4294901760000000, 0);
    SmallShift(r8, 0);
    SmallShift(r9, 0);
    ThreeDigits(d, 15, 66, ThirdDigit(d), r8, r9, 256 * r9 % d);
  }

  /** Then the remainder before the third digit is at least 2^56, and its top bit is shifted out. */
  lemma WhileWrapping(d: nat)
    requires 72061106437112135 < d < 72061107336574155
    ensures CodeNbits(d) == 24 * 0x100_0000 + Number3(15, 65, 0)
  {
    hide Shifted, CodeNbits, Number3;
    var r8, r9 := 1099494850560000000 - 15 * d, 281470681743360000000 - 3905 * d;
    SmallShift(4294901760000000, 0);
    SmallShift(r8, 0);
    LostBit(r9);
    ThreeDigits(d, 15, 65, 0, r8, r9, 256 * (r9 - 0x100_0000_0000_0000));
  }

  lemma LostBit(rem: nat)
    requires 0x100_0000_0000_0000 <= rem < 2 * 0x100_0000_0000_0000
    ensures Shifted(rem, 0) == 256 * (rem - 0x100_0000_0000_0000)
  {
    DivModUnique(rem * 256, 0x1_0000_0000_0000_0000, 1, 256 * (rem - 0x100_0000_0000_0000));
  }

  /** The first divisor after that: the bit is back, and the target jumps up. */
  lemma AfterWrap()
    ensures CodeNbits(72061107336574155) == 24 * 0x100_0000 + Number3(15, 65, 255)
  {
    hide Shifted, CodeNbits, Number3;
    var d := 72061107336574155;
    var r8, r9 := 1099494850560000000 - 15 * d, 281470681743360000000 - 3905 * d;
    SmallShift(4294901760000000, 0);
    SmallShift(r8, 0);
    SmallShift(r9, 0);
    ThreeDigits(d, 15, 65, 255, r8, r9, 256 * r9 - 255 * d);
  }

  lemma DecodeWord(m: nat)
    requires m < 0x100_0000
    ensures Decode(24 * 0x100_0000 + m) == m * Pow2(168)
  {
    hide Pow2;
    var n := 24 * 0x100_0000 + m;
    DivModUnique(n, 0x100_0000, 24, m);
    WrapNothing(m, 21);
  }

  lemma SmallerWord(m: nat, n: nat)
    requires m <= n < 0x100_0000
    ensures Decode(24 * 0x100_0000 + m) <= Decode(24 * 0x100_0000 + n)
    ensures m < n ==> Decode(24 * 0x100_0000 + m) < Decode(24 * 0x100_0000 + n)
  {
    hide Pow2, Decode;
    DecodeWord(m);
    DecodeWord(n);
    MulMonotone(m, n, Pow2(168));
    if m < n { MulBelow(m, n, Pow2(168)); }
  }

  lemma ThirdDigitFalls(a: nat, b: nat)
    requires 0x100_0000_0000_0000 <= a <= b <= 72061106437112135
    ensures ThirdDigit(b) <= ThirdDigit(a)
  {
    var x, y := 256 * (281470681743360000000 - 3906 * a), 256 * (281470681743360000000 - 3906 * b);
    QuotientOrder(y, x, b);
    DivideByMore(x, a, b);
  }

  lemma OrderNearWrap(a: nat, b: nat)
    requires 0x100_0000_0000_0000 <= a <= b < 72061107336574155
    ensures Decode(CodeNbits(b)) <= Decode(CodeNbits(a))
  {
    hide CodeNbits, Decode, ThirdDigit;
    if a <= 72061106437112135 {
      BeforeWrap(a);
      if b <= 72061106437112135 {
        BeforeWrap(b);
        ThirdDigitFalls(a, b);
        SmallerWord(Number3(15, 66, ThirdDigit(b)), Number3(15, 66, ThirdDigit(a)));
      } else {
        WhileWrapping(b);
        SmallerWord(Number3(15, 65, 0), Number3(15, 66, ThirdDigit(a)));
      }
    } else {
      WhileWrapping(a);
      WhileWrapping(b);
    }
  }

  lemma OrderBelowThreshold(a: nat, b: nat)
    requires 0 < a <= b < 72061107336574155
    ensures Decode(CodeNbits(b)) <= Decode(CodeNbits(a))
  {
    hide CodeNbits, Decode;
    if b <= 0x100_0000_0000_0000 {
      HarderIsTighter(a, b);
    } else {
      if a < 0x100_0000_0000_0000 { HarderIsTighter(a, 0x100_0000_0000_0000); }
      OrderNearWrap(if a < 0x100_0000_0000_0000 then 0x100_0000_0000_0000 else a, b);
    }
  }

  /** A larger difficulty with a larger target. */
  lemma InvertedPair()
    ensures Decode(CodeNbits(72061107336574154)) < Decode(CodeNbits(72061107336574155))
  {
    hide CodeNbits, Decode;
    WhileWrapping(72061107336574154);
    AfterWrap();
    SmallerWord(Number3(15, 65, 0), Number3(15, 65, 255));
  }

  ghost predicate OrderKept(bound: nat) {
    forall a: nat, b: nat :: 0 < a <= b <= bound ==> Decode(CodeNbits(b)) <= Decode(CodeNbits(a))
  }

  /**
   Among difficulties up to a bound, a larger one never gives a larger target, if and only if the
   bound is below 72061107336574155 millionths, a little above 2^56.
   */
  lemma OrderKeptIff(bound: nat)
    requires bound < 0x1_0000_0000_0000_0000
    ensures OrderKept(bound) <==> bound < 72061107336574155
  {
    hide CodeNbits, Decode;
    if bound < 72061107336574155 {
      forall a: nat, b: nat | 0 < a <= b <= bound ensures Decode(CodeNbits(b)) <= Decode(CodeNbits(a)) {
        OrderBelowThreshold(a, b);
      }
    } else {
      InvertedPair();
    }
  }

  lemma DivideByMore(x: nat, a: nat, b: nat)
    requires 0 < a <= b
    ensures x / b <= x / a
  {
    var q := x / b;
    assert b * q <= x;
    MulOrder(q, a, b);
    assert q * a == a * q && q * b == b * q;
    QuotientAtLeast(x, a, q);
  }
}
