/**
 Conversion of a decimal to an IEEE 754 binary64 double, round to nearest with ties to even, as the
 library conversion does it: out of range when the result overflows or underflows inexactly.
 */
module Binary64 {
  import opened Wrappers
  import opened Json
  import opened JsonNumbers

  function Exp2(k: int): (p: real)
    ensures p > 0.0
    decreases if k < 0 then -k else k
  {
    if k == 0 then 1.0 else if k > 0 then 2.0 * Exp2(k - 1) else Exp2(k + 1) / 2.0
  }

  /** The exponent of the double just below or at x: at most k, at least that of the smallest normal. */
  function Binade(x: real, k: int): (r: int)
    requires k >= -1022
    ensures -1022 <= r <= k
    ensures r > -1022 ==> Exp2(r) <= x
    ensures r < k ==> x < Exp2(r + 1)
    decreases k + 1022
  {
    if k == -1022 || Exp2(k) <= x then k else Binade(x, k - 1)
  }

  /** The spacing of doubles around x. */
  function Ulp(x: real): (u: real)
    ensures u > 0.0
  {
    Exp2(Binade(x, 1023) - 52)
  }

  /** The nearest whole number of units u. */
  function RoundTo(x: real, u: real): real
    requires x >= 0.0 && u > 0.0
  {
    Nearest(x / u) as real * u
  }

  /** The nearest double to x, as if there were no largest one. */
  function Round(x: real): (r: real)
    requires x >= 0.0
  {
    RoundTo(x, Ulp(x))
  }

  predicate OutOfRange(x: real, r: real) {
    r >= Exp2(1024) || (r < Exp2(-1022) && r != x)
  }

  function Convert(x: real): Result<real> {
    var r := Round(Abs(x));
    if OutOfRange(Abs(x), r) then Err("out of range") else Ok(Signed(x < 0.0, r))
  }

  /** n units of size u. */
  function Times(n: nat, u: real): real {
    n as real * u
  }

  // ----- powers of two -----

  lemma Exp2Step(k: int)
    ensures Exp2(k + 1) == 2.0 * Exp2(k)
  {
  }

  lemma {:induction false} Exp2Grows(j: int, k: int)
    requires j <= k
    ensures Exp2(j) <= Exp2(k)
    decreases k - j
  {
    hide Exp2;
    if j < k {
      Exp2Grows(j, k - 1);
      Exp2Step(k - 1);
    }
  }

  /** 2^k is 2^n units of 2^(k - n). */
  lemma {:induction false} Exp2Units(k: int, n: nat)
    ensures Exp2(k) == Exp2(n) * Exp2(k - n)
    decreases n
  {
    hide Exp2;
    if n == 0 {
      assert Exp2(0) == 1.0 by { Exp2Zero(); }
    } else {
      Exp2Units(k, n - 1);
      Exp2Step(k - n);
      Exp2Step(n - 1);
      Product(Exp2(n - 1), Exp2(k - n));
    }
  }

  lemma Exp2Zero()
    ensures Exp2(0) == 1.0
  {
  }

  lemma Product(a: real, b: real)
    ensures (2.0 * a) * b == a * (2.0 * b)
  {
  }

  lemma {:induction false} Exp2Whole(n: nat)
    ensures Whole(Exp2(n)) && Exp2(n).Floor >= 1
  {
    if n > 0 {
      Exp2Whole(n - 1);
      var f := Exp2(n - 1).Floor;
      FloorIs(Exp2(n), 2 * f);
    }
  }

  // ----- rounding to whole units -----

  lemma NearestMonotone(x: real, z: real)
    requires 0.0 <= x <= z
    ensures Nearest(x) <= Nearest(z)
  {
    assert x.Floor <= z.Floor;
    if x.Floor == z.Floor {
    } else {
      assert Nearest(x) <= x.Floor + 1;
    }
  }

  lemma NearestWhole(x: real)
    requires x >= 0.0 && Whole(x)
    ensures Nearest(x) as real == x
  {
  }

  lemma NearestClose(x: real)
    requires x >= 0.0
    ensures Abs(Nearest(x) as real - x) <= 0.5
  {
  }

  lemma QuotientTimes(x: real, u: real)
    requires u > 0.0
    ensures x / u * u == x
  {
  }

  lemma TimesQuotient(a: real, u: real)
    requires u > 0.0
    ensures a * u / u == a
  {
  }

  lemma TimesOrder(a: real, b: real, u: real)
    requires a <= b && u > 0.0
    ensures a * u <= b * u
  {
  }

  lemma QuotientOrder(x: real, z: real, u: real)
    requires x <= z && u > 0.0
    ensures x / u <= z / u
  {
    QuotientTimes(x, u);
    QuotientTimes(z, u);
  }

  lemma QuotientPositive(x: real, u: real)
    requires x >= 0.0 && u > 0.0
    ensures x / u >= 0.0
  {
  }

  lemma RoundToOrder(x: real, z: real, u: real)
    requires 0.0 <= x <= z && u > 0.0
    ensures RoundTo(x, u) <= RoundTo(z, u)
  {
    hide Nearest;
    QuotientPositive(x, u);
    QuotientOrder(x, z, u);
    NearestMonotone(x / u, z / u);
    TimesOrder(Nearest(x / u) as real, Nearest(z / u) as real, u);
  }

  lemma RoundToWhole(n: nat, u: real)
    requires u > 0.0
    ensures Times(n, u) >= 0.0 && RoundTo(Times(n, u), u) == Times(n, u)
  {
    hide Nearest;
    TimesOrder(0.0, n as real, u);
    TimesQuotient(n as real, u);
    FloorIs(n as real, n);
    NearestWhole(n as real);
    var x := Times(n, u);
    var q := x / u;
    assert q == n as real;
    assert RoundTo(x, u) == Times(Nearest(q), u);
  }

  lemma RoundToClose(x: real, u: real)
    requires x >= 0.0 && u > 0.0
    ensures Abs(RoundTo(x, u) - x) <= u / 2.0
  {
    hide Nearest;
    QuotientPositive(x, u);
    NearestClose(x / u);
    var d := Nearest(x / u) as real - x / u;
    QuotientTimes(x, u);
    assert RoundTo(x, u) - x == d * u;
    TimesOrder(d, 0.5, u);
    TimesOrder(-0.5, d, u);
  }

  // ----- binades -----

  /** The exponent of x. */
  function Exponent(x: real): (k: int)
    ensures -1022 <= k <= 1023
  {
    Binade(x, 1023)
  }

  lemma ExponentOrder(x: real, z: real)
    requires x <= z
    ensures Exponent(x) <= Exponent(z)
  {
    hide Exp2, Binade;
    if Exponent(x) > Exponent(z) { Exp2Grows(Exponent(z) + 1, Exponent(x)); }
  }

  lemma ExponentIs(x: real, k: int)
    requires -1022 <= k <= 1023 && Exp2(k) <= x < Exp2(k + 1)
    ensures Exponent(x) == k
  {
    hide Exp2, Binade;
    if Exponent(x) > k { Exp2Grows(k + 1, Exponent(x)); }
    if Exponent(x) < k { Exp2Grows(Exponent(x) + 1, k); }
  }

  /** 2^(k + 1) and 2^k are whole numbers of the units of binade k. */
  lemma PowersAreUnits(k: int) returns (n: nat)
    ensures n >= 1 && Exp2(52) == n as real
    ensures Exp2(k) == Times(n, Exp2(k - 52)) && Exp2(k + 1) == Times(2 * n, Exp2(k - 52))
  {
    hide Exp2;
    Exp2Whole(52);
    n := Exp2(52).Floor;
    Exp2Units(k, 52);
    Exp2Step(k);
  }

  /** Rounding does not leave the closed binade. */
  lemma RoundStays(x: real)
    requires x >= 0.0
    ensures var k := Exponent(x);
      && (k > -1022 ==> Exp2(k) <= Round(x)) && (k < 1023 ==> Round(x) <= Exp2(k + 1))
  {
    hide Exp2, Binade, RoundTo, Round, Times;
    var k := Exponent(x);
    RoundIs(x);
    var n := PowersAreUnits(k);
    var u := Exp2(k - 52);
    RoundToWhole(n, u);
    RoundToWhole(2 * n, u);
    if k > -1022 { RoundToOrder(Exp2(k), x, u); }
    if k < 1023 { RoundToOrder(x, Exp2(k + 1), u); }
  }

  lemma RoundOrder(x: real, z: real)
    requires 0.0 <= x <= z
    ensures Round(x) <= Round(z)
  {
    hide Exp2, Binade, RoundTo;
    ExponentOrder(x, z);
    if Exponent(x) == Exponent(z) {
      RoundToOrder(x, z, Ulp(x));
    } else {
      RoundStays(x);
      RoundStays(z);
      Exp2Grows(Exponent(x) + 1, Exponent(z));
    }
  }

  lemma PowerRounds(k: int)
    requires -1022 <= k <= 1023
    ensures Round(Exp2(k)) == Exp2(k) && Exponent(Exp2(k)) == k
  {
    hide Exp2, Binade, RoundTo, Times;
    Exp2Step(k);
    ExponentIs(Exp2(k), k);
    var n := PowersAreUnits(k);
    RoundToWhole(n, Exp2(k - 52));
  }

  lemma RoundIsWholeUnits(x: real) returns (m: nat)
    requires x >= 0.0
    ensures Round(x) == Times(m, Ulp(x))
  {
    hide Exp2, Binade, Nearest;
    m := Nearest(x / Ulp(x));
  }

  /** A rounded number is a double: rounding it again changes nothing. */
  lemma RoundTwice(x: real)
    requires x >= 0.0
    ensures Round(x) >= 0.0 && Round(Round(x)) == Round(x)
  {
    hide Exp2, Binade, RoundTo, Round, Exponent, Times;
    RoundStays(x);
    var m := RoundIsWholeUnits(x);
    RoundToWhole(m, Ulp(x));
    var r, k := Round(x), Exponent(x);
    if k < 1023 && r == Exp2(k + 1) {
      PowerRounds(k + 1);
    } else {
      SameExponent(x, r);
      RoundIs(r);
      RoundIs(x);
    }
  }

  lemma RoundIs(x: real)
    requires x >= 0.0
    ensures Ulp(x) == Exp2(Exponent(x) - 52) && Round(x) == RoundTo(x, Ulp(x))
  {
    hide Exp2, Binade, RoundTo;
  }

  lemma SameExponent(x: real, r: real)
    requires x >= 0.0 && r >= 0.0
    requires var k := Exponent(x); (k > -1022 ==> Exp2(k) <= r) && (k < 1023 ==> r < Exp2(k + 1))
    ensures Exponent(r) == Exponent(x)
  {
    hide Exp2, Binade;
    var k := Exponent(x);
    if Exponent(r) > k { Exp2Grows(k + 1, Exponent(r)); }
    if Exponent(r) < k { Exp2Grows(Exponent(r) + 1, k); }
  }

  // ----- the conversion rounds -----

  /** Sign and magnitude of a converted number. */
  lemma ConvertedSign(x: real)
    requires Convert(x).Ok?
    ensures var v, r := Convert(x).value, Round(Abs(x));
      && r >= 0.0 && v == Signed(x < 0.0, r) && Abs(v) == r && !OutOfRange(Abs(x), r)
      && (x == 0.0 || r > 0.0)
  {
    RoundTwice(Abs(x));
    hide Round, Exp2;
  }

  lemma ConvertIsConvex(x: real, z: real)
    requires Convert(x).Ok? && Between(z, Convert(x).value, x)
    ensures Convert(z) == Convert(x)
  {
    hide Round, Exp2;
    ConvertedSign(x);
    var r := Round(Abs(x));
    assert (z < 0.0) == (x < 0.0);
    RoundTwice(Abs(x));
    if r <= Abs(x) {
      RoundOrder(r, Abs(z));
      RoundOrder(Abs(z), Abs(x));
    } else {
      RoundOrder(Abs(x), Abs(z));
      RoundOrder(Abs(z), r);
    }
  }

  lemma NearestMirror(m: nat, q: real)
    requires 0.0 <= q <= 2.0 * m as real && Nearest(q) == m
    ensures Nearest(2.0 * m as real - q) == m
  {
    var p := 2.0 * m as real - q;
    assert m as real - 0.5 <= q <= m as real + 0.5;
    if q <= m as real {
      assert p.Floor == m;
    } else {
      FloorBelow(p, m);
    }
  }

  lemma FloorBelow(p: real, m: nat)
    requires m as real - 0.5 <= p < m as real
    ensures p.Floor == m - 1
  {
  }

  /** Exponent and unit of a double with a fraction, beyond 1. */
  lemma FractionBinade(a: real)
    requires a >= 1.0 && Round(a) == a && !Whole(a)
    ensures var k := Exponent(a); 0 <= k < 52 && Exp2(k) < a < Exp2(k + 1)
  {
    hide Exp2, Binade, RoundTo, Round, Exponent, Whole;
    var k := Exponent(a);
    ExponentBounds(a);
    Exp2Zero();
    if k < 0 { Exp2Grows(k + 1, 0); }
    if k >= 52 { LargeIsWhole(a); }
    Exp2Whole(k);
    RoundStays(a);
  }

  lemma ExponentBounds(x: real)
    ensures var k := Exponent(x); (k > -1022 ==> Exp2(k) <= x) && (k < 1023 ==> x < Exp2(k + 1))
  {
  }

  lemma LargeIsWhole(a: real)
    requires a >= 0.0 && Round(a) == a && Exponent(a) >= 52
    ensures Whole(a)
  {
    hide Exp2, Binade, RoundTo, Round, Exponent;
    var m := RoundIsWholeUnits(a);
    RoundIs(a);
    var u := Ulp(a);
    Exp2Whole(Exponent(a) - 52);
    WholeProduct(m, u);
  }

  lemma WholeProduct(m: nat, u: real)
    requires Whole(u)
    ensures Whole(Times(m, u))
  {
    var f := u.Floor;
    assert Times(m, u) == (m * f) as real;
    FloorIs(Times(m, u), m * f);
  }

  /** What rounds to a number strictly inside a binade lies in that binade. */
  lemma RoundsInside(y: real, a: real)
    requires y >= 0.0 && a >= 0.0 && Round(y) == a
    requires var k := Exponent(a); -1022 < k < 1023 && Exp2(k) < a < Exp2(k + 1)
    ensures Exponent(y) == Exponent(a)
  {
    hide Exp2, Binade, RoundTo, Round, Exponent;
    RoundStays(y);
    if Exponent(y) < Exponent(a) { Exp2Grows(Exponent(y) + 1, Exponent(a)); }
    if Exponent(y) > Exponent(a) { Exp2Grows(Exponent(a) + 1, Exponent(y)); }
  }

  /** Half a unit around a double strictly inside a binade stays inside. */
  lemma HalfUnitInside(a: real, w: real)
    requires a >= 0.0 && Round(a) == a
    requires var k := Exponent(a); -1022 < k < 1023 && Exp2(k) < a < Exp2(k + 1)
    requires Abs(w - a) <= Ulp(a) / 2.0
    ensures Exponent(w) == Exponent(a) && w >= 0.0
  {
    hide Exp2, Binade, RoundTo, Round, Times;
    var k, u := Exponent(a), Ulp(a);
    RoundIs(a);
    var m := RoundIsWholeUnits(a);
    var n := PowersAreUnits(k);
    StrictUnits(n, m, u);
    StrictUnits(m, 2 * n, u);
    hide Exponent;
    ExponentIs(w, k);
  }

  lemma StrictUnits(m: nat, n: nat, u: real)
    requires u > 0.0 && Times(m, u) < Times(n, u)
    ensures Times(m, u) + u <= Times(n, u)
  {
    if m >= n { TimesOrder(n as real, m as real, u); }
    TimesOrder((m + 1) as real, n as real, u);
  }

  lemma MirrorQuotient(m: nat, y: real, u: real)
    requires u > 0.0
    ensures (2.0 * Times(m, u) - y) / u == 2.0 * m as real - y / u
  {
    QuotientTimes(y, u);
    TimesQuotient(2.0 * m as real - y / u, u);
  }

  /** Rounding to units is symmetric around every whole number of units. */
  lemma RoundToMirror(m: nat, y: real, u: real)
    requires u > 0.0 && 0.0 <= y <= 2.0 * Times(m, u) && RoundTo(y, u) == Times(m, u)
    ensures RoundTo(2.0 * Times(m, u) - y, u) == Times(m, u)
  {
    hide Nearest;
    var q := y / u;
    QuotientPositive(y, u);
    SameUnits(Nearest(q), m, u);
    MirrorQuotient(m, y, u);
    QuotientPositive(2.0 * Times(m, u) - y, u);
    NearestMirror(m, q);
  }

  lemma SameUnits(m: nat, n: nat, u: real)
    requires u > 0.0 && Times(m, u) == Times(n, u)
    ensures m == n
  {
    TimesQuotient(m as real, u);
    TimesQuotient(n as real, u);
  }

  lemma RoundMirrors(a: real, y: real)
    requires a >= 1.0 && Round(a) == a && !Whole(a) && y >= 0.0 && Round(y) == a
    ensures 2.0 * a - y >= 0.0 && Round(2.0 * a - y) == a
  {
    hide Exp2, Binade, RoundTo, Round, Exponent, Times, Ulp;
    FractionBinade(a);
    RoundsInside(y, a);
    RoundIs(a);
    RoundIs(y);
    var u, w := Ulp(a), 2.0 * a - y;
    RoundToClose(y, u);
    HalfUnitInside(a, w);
    RoundIs(w);
    var m := RoundIsWholeUnits(a);
    RoundToMirror(m, y, u);
  }

  lemma ConvertIsSymmetric(v: real, x: real, z: real)
    requires Mirrored(v, x, z) && IsDouble(Convert, v) && Abs(v) >= 1.0 && !Whole(v) && Convert(x) == Ok(v)
    ensures Convert(z) == Ok(v)
  {
    hide Round, Exp2, Whole;
    ConvertedSign(x);
    ConvertedSign(v);
    WholeAbs(v);
    var a, y := Abs(v), Abs(x);
    RoundMirrors(a, y);
    assert Abs(z) == 2.0 * a - y;
    RoundZero();
    assert (z < 0.0) == (v < 0.0);
    Exp2Zero();
    Exp2Grows(-1022, 0);
  }

  lemma RoundZero()
    ensures Round(0.0) == 0.0
  {
    hide Exp2, Binade, RoundTo, Round;
    RoundIs(0.0);
    RoundToWhole(0, Ulp(0.0));
  }

  lemma WholeAbs(v: real)
    requires !Whole(v)
    ensures !Whole(Abs(v))
  {
    if Whole(-v) { FloorIs(v, 0 - (-v).Floor); }
  }

  lemma TinyUnit()
    ensures Exp2(-53) < 0.0000005
  {
    assert Exp2(7) == 128.0;
    hide Exp2;
    Exp2Units(14, 7);
    Exp2Units(21, 7);
    Exp2Units(0, 21);
    Exp2Zero();
    Exp2Grows(-53, -21);
  }

  lemma ConvertIsFine(x: real)
    requires Convert(x).Ok? && Abs(Convert(x).value) < 1.0
    ensures Abs(Convert(x).value - x) < 0.00000025
  {
    hide Exp2, Binade, RoundTo, Round, Exponent, Ulp;
    ConvertedSign(x);
    var y := Abs(x);
    RoundIs(y);
    RoundStays(y);
    Exp2Zero();
    if Exponent(y) >= 0 { Exp2Grows(0, Exponent(y)); }
    RoundToClose(y, Ulp(y));
    Exp2Grows(Exponent(y) - 52, -53);
    TinyUnit();
  }

  /** Conversion to the nearest double satisfies everything the round trip needs. */
  lemma ConvertRounds()
    ensures Rounding(Convert)
  {
    hide Convert, Whole, Between, Mirrored;
    forall x: real, z: real | Convert(x).Ok? && Between(z, Convert(x).value, x) ensures Convert(z) == Convert(x) {
      ConvertIsConvex(x, z);
    }
    forall v: real, x: real, z: real
      | Mirrored(v, x, z) && IsDouble(Convert, v) && Abs(v) >= 1.0 && !Whole(v) && Convert(x) == Ok(v)
      ensures Convert(z) == Ok(v)
    {
      ConvertIsSymmetric(v, x, z);
    }
    forall x: real | Convert(x).Ok? && Abs(Convert(x).value) < 1.0
      ensures Abs(Convert(x).value - x) < 0.00000025
    {
      ConvertIsFine(x);
    }
  }

  // ----- the round trip of doubles -----

  /** A value whose numbers are doubles is printed and read back exactly when each is nearest to some millionth. */
  lemma DoublesRoundTripIff(j: Json)
    requires AllNumbers(Doubles(Convert), j)
    ensures ParseValue(Convert, Serialize(j), 0) == Ok((j, |Serialize(j)|))
       <==> AllNumbers(NearMillionths(Convert), j)
  {
    hide ParseValue, Serialize, AllNumbers, Rounding, Doubles, NearMillionths, Convert;
    ConvertRounds();
    RoundTripIff(Convert, j);
  }

  /** 0.1 as a double. */
  const TENTH: real := 7205759403792794.0 / 72057594037927936.0

  lemma Exp2Values()
    ensures Exp2(-4) == 0.0625 && Exp2(-3) == 0.125 && Exp2(-10) == 1.0 / 1024.0
    ensures Exp2(-56) == 1.0 / 72057594037927936.0
  {
    assert Exp2(7) == 128.0;
    assert Exp2(-4) == 0.0625 && Exp2(-3) == 0.125;
    assert Exp2(-7) == 1.0 / 128.0;
    hide Exp2;
    Exp2Step(-8);
    Exp2Step(-9);
    Exp2Step(-10);
    Exp2Units(14, 7);
    Exp2Units(28, 14);
    Exp2Units(56, 28);
    Exp2Units(0, 56);
    Exp2Zero();
  }

  lemma TenthConverts()
    ensures Convert(0.1) == Ok(TENTH)
  {
    hide Exp2, Binade, Round, RoundTo;
    Exp2Values();
    ExponentIs(0.1, -4);
    RoundIs(0.1);
    assert Ulp(0.1) == 1.0 / 72057594037927936.0;
    TenthUnits();
    Exp2Grows(-1022, -4);
    Exp2Zero();
    Exp2Grows(0, 1024);
  }

  lemma TenthUnits()
    ensures RoundTo(0.1, 1.0 / 72057594037927936.0) == TENTH
  {
    var q := 0.1 / (1.0 / 72057594037927936.0);
    assert q == 7205759403792793.6;
    assert q.Floor == 7205759403792793;
    assert Nearest(q) == 7205759403792794;
  }

  /** 0.1 is not a whole number of millionths as a double, and survives. */
  lemma TenthSurvives()
    ensures ParseValue(Convert, Serialize(Number(TENTH)), 0) == Ok((Number(TENTH), |Serialize(Number(TENTH))|))
    ensures forall m: int :: Millionths(m) != TENTH
  {
    hide ParseValue, Serialize, Convert;
    TenthConverts();
    assert IsDouble(Convert, TENTH) by { ConvertIsConvex(0.1, TENTH); }
    assert Millionths(100000) == 0.1;
    assert NearMillionth(Convert, TENTH);
    DoublesRoundTripIff(Number(TENTH));
    assert forall m: int :: Millionths(m) != TENTH;
  }

  /** 1/1024 is a double and does not. */
  lemma SmallBinaryFractionIsLost()
    ensures IsDouble(Convert, 1.0 / 1024.0)
    ensures var j := Number(1.0 / 1024.0); ParseValue(Convert, Serialize(j), 0) != Ok((j, |Serialize(j)|))
  {
    hide ParseValue, Serialize, Exp2, Round, NearMillionth;
    Exp2Values();
    PowerRounds(-10);
    Exp2Grows(-1022, -10);
    Exp2Zero();
    Exp2Grows(0, 1024);
    var v := 1.0 / 1024.0;
    assert IsDouble(Convert, v);
    hide Convert;
    NotNear();
    DoublesRoundTripIff(Number(v));
  }

  lemma NotNear()
    ensures !NearMillionth(Convert, 1.0 / 1024.0)
  {
    hide Convert;
    var v := 1.0 / 1024.0;
    forall m: int ensures Convert(Millionths(m)) != Ok(v) {
      if Convert(Millionths(m)) == Ok(v) {
        ConvertIsFine(Millionths(m));
        MillionthsAroundLost(m);
      }
    }
  }

  lemma MillionthsAroundLost(m: int)
    ensures Abs(1.0 / 1024.0 - Millionths(m)) >= 0.00000025
  {
    if m <= 976 { assert Millionths(m) <= 0.000976; } else { assert Millionths(m) >= 0.000977; }
  }
}
