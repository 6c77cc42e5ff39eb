/** Number tokens of the JSON grammar (section 6 of RFC 8259): how one is read, and its exact value. */
module JsonNumeral {
  import opened Wrappers
  import opened Json
  import opened Slices

  predicate AllDigits(t: string) {
    forall i :: 0 <= i < |t| ==> '0' <= t[i] <= '9'
  }

  datatype Power = Power(mark: char, sign: string, digits: string)

  /** Sign, integer digits, an optional fraction and an optional power of ten. */
  datatype Numeral = Numeral(negative: bool, whole: string, frac: Option<string>, power: Option<Power>)

  predicate NumeralOk(n: Numeral) {
    && AllDigits(n.whole) && (n.frac.Some? ==> AllDigits(n.frac.value))
    && (n.whole != "" || (n.frac.Some? && n.frac.value != ""))
    && (n.power.Some? ==> PowerOk(n.power.value))
  }

  predicate PowerOk(p: Power) {
    (p.mark == 'e' || p.mark == 'E') && (p.sign == "" || p.sign == "+" || p.sign == "-")
    && p.digits != "" && AllDigits(p.digits)
  }

  function FracPart(n: Numeral): string {
    if n.frac.Some? then "." + n.frac.value else ""
  }

  function PowerPart(n: Numeral): string {
    if n.power.Some? then [n.power.value.mark] + n.power.value.sign + n.power.value.digits else ""
  }

  function NumeralText(n: Numeral): string {
    (if n.negative then "-" else "") + n.whole + FracPart(n) + PowerPart(n)
  }

  /** Decimal digits, and the fraction over its power of ten. */
  function Mantissa(n: Numeral): real
    requires NumeralOk(n)
  {
    Decimal(n.whole) as real
    + if n.frac.Some? then Decimal(n.frac.value) as real / Tens(|n.frac.value|) as real else 0.0
  }

  /** Times or divided by the power of ten. */
  function Powered(n: Numeral, m: real): real
    requires NumeralOk(n)
  {
    if n.power.None? then m
    else if n.power.value.sign == "-" then m / Tens(Decimal(n.power.value.digits)) as real
    else m * Tens(Decimal(n.power.value.digits)) as real
  }

  /** The exact value of the token. */
  function NumeralValue(n: Numeral): real
    requires NumeralOk(n)
  {
    var x := Powered(n, Mantissa(n));
    if n.negative then -x else x
  }

  /** The number a string of digits denotes, most significant first. */
  function Decimal(t: string): nat
    requires AllDigits(t)
  {
    if t == "" then 0 else Tens(|t| - 1) * (t[0] as int - '0' as int) + Decimal(t[1..])
  }

  function Tens(k: nat): (p: nat)
    ensures p > 0
  {
    if k == 0 then 1 else 10 * Tens(k - 1)
  }

  /** What may follow a number without being read as part of it. */
  predicate Stops(s: string, pos: nat) {
    pos < |s| ==> !('0' <= s[pos] <= '9') && s[pos] != '.' && s[pos] != 'e' && s[pos] != 'E'
  }

  // ----- digits -----

  lemma {:induction false} SpanAt(s: string, a: nat, t: string)
    requires At(s, a, t) && AllDigits(t) && (a + |t| < |s| ==> !IsDigit(s[a + |t|]))
    ensures SkipDigits(s, a) == a + |t| && Span(s, a) == t
    decreases |t|
  {
    if t != "" {
      AtChar(s, a, t, 0);
      assert t == [t[0]] + t[1..];
      AtSplit(s, a, [t[0]], t[1..]);
      SpanAt(s, a + 1, t[1..]);
    }
  }

  lemma {:induction false} TensIsPow10(k: nat)
    ensures Tens(k) as real == Pow10(k)
  {
    if k > 0 { TensIsPow10(k - 1); }
  }

  lemma {:induction false} DecimalAppend(t: string, d: char)
    requires AllDigits(t) && '0' <= d <= '9'
    ensures AllDigits(t + [d]) && Decimal(t + [d]) == 10 * Decimal(t) + (d as int - '0' as int)
    decreases |t|
  {
    if t == "" {
      assert t + [d] == [d] && [d][1..] == "";
      assert Tens(0) == 1;
    } else {
      assert (t + [d])[1..] == t[1..] + [d] && (t + [d])[0] == t[0];
      DecimalAppend(t[1..], d);
      var x := t[0] as int - '0' as int;
      TensStep(|t| - 1, x);
    }
  }

  lemma TensStep(k: nat, x: int)
    ensures Tens(k + 1) * x == 10 * (Tens(k) * x)
  {
  }

  /** Reading digit by digit gives the number the digits denote. */
  lemma {:induction false} DigitsDenote(t: string)
    requires AllDigits(t)
    ensures (forall i :: 0 <= i < |t| ==> IsDigit(t[i])) && DigitsValue(t) == Decimal(t)
    decreases |t|
  {
    if t != "" {
      var p, d := t[..|t| - 1], t[|t| - 1];
      assert t == p + [d];
      DigitsDenote(p);
      DecimalAppend(p, d);
    }
  }

  // ----- where the parts of a token end -----

  function SignPart(n: Numeral): string {
    if n.negative then "-" else ""
  }

  /** The four parts stand one after the other, and none can be extended by what follows it. */
  ghost predicate Laid(n: Numeral, s: string, pos: nat, p1: nat, p2: nat, p3: nat, p4: nat) {
    && p1 == pos + |SignPart(n)| && p2 == p1 + |n.whole| && p3 == p2 + |FracPart(n)| && p4 == p3 + |PowerPart(n)|
    && At(s, pos, SignPart(n)) && At(s, p1, n.whole) && At(s, p2, FracPart(n)) && At(s, p3, PowerPart(n))
    && Stops(s, p4)
  }

  lemma LaidOut(n: Numeral, s: string, pos: nat) returns (p1: nat, p2: nat, p3: nat, p4: nat)
    requires At(s, pos, NumeralText(n)) && Stops(s, pos + |NumeralText(n)|)
    ensures Laid(n, s, pos, p1, p2, p3, p4) && p4 == pos + |NumeralText(n)|
  {
    hide At, Stops, FracPart, PowerPart;
    var sign := SignPart(n);
    p1, p2 := pos + |sign|, pos + |sign| + |n.whole|;
    p3, p4 := p2 + |FracPart(n)|, p2 + |FracPart(n)| + |PowerPart(n)|;
    AtSplit(s, pos, sign + n.whole + FracPart(n), PowerPart(n));
    AtSplit(s, pos, sign + n.whole, FracPart(n));
    AtSplit(s, pos, sign, n.whole);
  }

  lemma WholeRead(n: Numeral, s: string, pos: nat, p1: nat, p2: nat, p3: nat, p4: nat)
    requires NumeralOk(n) && Laid(n, s, pos, p1, p2, p3, p4)
    ensures (Peek(s, pos) == '-') == n.negative && IntStart(s, pos) == p1
    ensures IntEnd(s, pos) == p2 && Span(s, p1) == n.whole
    ensures n.frac.None? ==> p3 == p2
    ensures n.power.Some? ==> p3 < |s| && s[p3] == n.power.value.mark
    ensures n.frac.Some? ==> p2 < |s| && s[p2] == '.'
    ensures n.frac.None? && p2 < |s| ==> s[p2] != '.'
    ensures p3 < |s| ==> !IsDigit(s[p3])
  {
    hide Span, SkipDigits;
    if n.negative { AtChar(s, pos, "-", 0); } else if n.whole != "" { AtChar(s, pos, n.whole, 0); }
    if n.frac.Some? { AtChar(s, p2, FracPart(n), 0); }
    if n.power.Some? { AtChar(s, p3, PowerPart(n), 0); }
    SpanAt(s, p1, n.whole);
  }

  lemma FracAt(n: Numeral, s: string, pos: nat, p1: nat, p2: nat, p3: nat, p4: nat)
    requires Laid(n, s, pos, p1, p2, p3, p4)
    ensures n.frac.Some? ==> At(s, p2 + 1, n.frac.value) && p3 == p2 + 1 + |n.frac.value|
    ensures n.power.None? ==> p4 == p3 && Stops(s, p3)
  {
    if n.frac.Some? { AtSplit(s, p2, ".", n.frac.value); }
  }

  lemma FracRead(n: Numeral, s: string, pos: nat, p1: nat, p2: nat, p3: nat, p4: nat)
    requires NumeralOk(n) && Laid(n, s, pos, p1, p2, p3, p4)
    ensures FracEnd(s, pos) == p3 && FracText(s, pos) == if n.frac.Some? then n.frac.value else ""
    ensures HasExp(s, pos) == n.power.Some?
  {
    hide At, Laid, Span, SkipDigits, IntEnd, AllDigits, IsDigit;
    WholeRead(n, s, pos, p1, p2, p3, p4);
    FracAt(n, s, pos, p1, p2, p3, p4);
    if n.frac.Some? { SpanAt(s, p2 + 1, n.frac.value); }
  }

  lemma PowerAt(n: Numeral, s: string, pos: nat, p1: nat, p2: nat, p3: nat, p4: nat)
    requires NumeralOk(n) && Laid(n, s, pos, p1, p2, p3, p4) && n.power.Some?
    ensures var p := n.power.value; var start := p3 + 1 + |p.sign|;
      && start < |s| && s[p3] == p.mark && (p.sign != "" ==> s[p3 + 1] == p.sign[0]) && IsDigit(s[start])
      && At(s, start, p.digits) && p4 == start + |p.digits| && (p4 < |s| ==> !IsDigit(s[p4]))
  {
    hide At, FracPart, SignPart, AllDigits;
    PowerLaid(n.power.value, s, p3);
  }

  lemma PowerLaid(p: Power, s: string, at: nat)
    requires PowerOk(p) && At(s, at, [p.mark] + p.sign + p.digits)
    ensures var start := at + 1 + |p.sign|;
      && start < |s| && s[at] == p.mark && (p.sign != "" ==> s[at + 1] == p.sign[0]) && IsDigit(s[start])
      && At(s, start, p.digits)
  {
    hide At;
    AtSplit(s, at, [p.mark] + p.sign, p.digits);
    AtSplit(s, at, [p.mark], p.sign);
    AtChar(s, at, [p.mark], 0);
    if p.sign != "" { AtChar(s, at + 1, p.sign, 0); }
    AtChar(s, at + 1 + |p.sign|, p.digits, 0);
  }

  lemma PowerRead(n: Numeral, s: string, pos: nat, p1: nat, p2: nat, p3: nat, p4: nat)
    requires NumeralOk(n) && Laid(n, s, pos, p1, p2, p3, p4)
    ensures NumberEnd(s, pos) == p4
    ensures n.power.None? ==> Scale(s, pos) == 1.0
    ensures n.power.Some? ==>
      Scale(s, pos) == (if n.power.value.sign == "-" then 1.0 / Tens(Decimal(n.power.value.digits)) as real
                        else Tens(Decimal(n.power.value.digits)) as real)
  {
    hide At, Laid, Span, SkipDigits, FracEnd, DigitsValue, Pow10, Decimal, Tens, AllDigits;
    FracRead(n, s, pos, p1, p2, p3, p4);
    FracAt(n, s, pos, p1, p2, p3, p4);
    if n.power.Some? {
      var p := n.power.value;
      PowerAt(n, s, pos, p1, p2, p3, p4);
      var start := p3 + 1 + |p.sign|;
      assert ExpStart(s, pos) == start;
      assert (Peek(s, start - 1) == '-') == (p.sign == "-");
      hide ExpStart, HasExp, IsDigit;
      SpanAt(s, start, p.digits);
      DigitsDenote(p.digits);
      TensIsPow10(Decimal(p.digits));
    }
  }

  /** A number token, however written, is read to its end with its exact value. */
  lemma NumeralRead(n: Numeral, s: string, pos: nat)
    requires NumeralOk(n) && At(s, pos, NumeralText(n)) && Stops(s, pos + |NumeralText(n)|)
    ensures NumberEnd(s, pos) == pos + |NumeralText(n)| && NumberAt(s, pos) == Ok(NumeralValue(n))
  {
    hide Span, SkipDigits, NumberEnd, FracText, Scale, Decimal, Tens, Laid, IntStart, Peek, DigitsValue, Pow10;
    var p1, p2, p3, p4 := LaidOut(n, s, pos);
    WholeRead(n, s, pos, p1, p2, p3, p4);
    FracRead(n, s, pos, p1, p2, p3, p4);
    PowerRead(n, s, pos, p1, p2, p3, p4);
    NumeralToken(n, FracText(s, pos), Scale(s, pos));
  }

  lemma NumeralToken(n: Numeral, frac: string, scale: real)
    requires NumeralOk(n) && frac == (if n.frac.Some? then n.frac.value else "")
    requires n.power.None? ==> scale == 1.0
    requires n.power.Some? ==>
      scale == (if n.power.value.sign == "-" then 1.0 / Tens(Decimal(n.power.value.digits)) as real
                else Tens(Decimal(n.power.value.digits)) as real)
    ensures (forall i :: 0 <= i < |n.whole| ==> IsDigit(n.whole[i])) && forall i :: 0 <= i < |frac| ==> IsDigit(frac[i])
    ensures TokenValue(n.negative, n.whole, frac, scale) == Ok(NumeralValue(n))
  {
    hide Mantissa, Powered, DigitsValue, Decimal, Pow10, TokenValue, Magnitude;
    DigitsDenote(n.whole);
    DigitsDenote(frac);
    MagnitudeIs(n, frac);
    PoweredIs(n, Mantissa(n), scale);
    TokenIs(n.negative, n.whole, frac, scale, Mantissa(n), Powered(n, Mantissa(n)));
  }

  lemma TokenIs(negative: bool, whole: string, frac: string, scale: real, m: real, x: real)
    requires (forall i :: 0 <= i < |whole| ==> IsDigit(whole[i])) && forall i :: 0 <= i < |frac| ==> IsDigit(frac[i])
    requires (whole != "" || frac != "") && Magnitude(whole, frac) == m && m * scale == x
    ensures TokenValue(negative, whole, frac, scale) == Ok(if negative then -x else x)
  {
    hide Magnitude, IsDigit;
    assert Scaled(m, scale) == x;
    hide Scaled;
  }

  lemma MagnitudeIs(n: Numeral, frac: string)
    requires NumeralOk(n) && frac == (if n.frac.Some? then n.frac.value else "")
    requires forall i :: 0 <= i < |n.whole| ==> IsDigit(n.whole[i])
    requires forall i :: 0 <= i < |frac| ==> IsDigit(frac[i])
    ensures Magnitude(n.whole, frac) == Mantissa(n)
  {
    hide Decimal, Tens, DigitsValue, Pow10, IsDigit, AllDigits;
    DigitsDenote(n.whole);
    DigitsDenote(frac);
    TensIsPow10(|frac|);
    if n.frac.None? { Nothing(); }
  }

  lemma PoweredIs(n: Numeral, m: real, scale: real)
    requires NumeralOk(n)
    requires n.power.None? ==> scale == 1.0
    requires n.power.Some? ==>
      scale == (if n.power.value.sign == "-" then 1.0 / Tens(Decimal(n.power.value.digits)) as real
                else Tens(Decimal(n.power.value.digits)) as real)
    ensures m * scale == Powered(n, m)
  {
    hide Decimal, Tens, AllDigits;
    if n.power.Some? { OverPower(m, Tens(Decimal(n.power.value.digits)) as real); } else { assert m * 1.0 == m; }
  }

  lemma Nothing()
    ensures Decimal("") == 0 && Tens(0) == 1
  {
  }

  lemma OverPower(m: real, p: real)
    requires p > 0.0
    ensures m * (1.0 / p) == m / p
  {
  }
}
