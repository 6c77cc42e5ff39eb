/** Division, remainder and products of variables: the few facts the proofs elsewhere need. */
module Arithmetic {

  lemma Distribute(d: int, a: int, b: int)
    ensures d * (a + b) == d * a + d * b && d * (a - b) == d * a - d * b
  {
  }

  lemma MulOrder(d: nat, a: int, b: int)
    requires a <= b
    ensures d * a <= d * b
  {
    var e: nat := b - a;
    Distribute(d, a, e);
    assert d * e >= 0;
  }

  /** A multiple of d strictly between -d and d is zero, and the only one in (0, 2d) is d. */
  lemma SmallMultiple(d: nat, e: int)
    requires d > 0
    ensures 0 < d * e + d && d * e < d ==> e == 0
    ensures 0 < d * e < 2 * d ==> e == 1
  {
    if e >= 2 { MulOrder(d, 2, e); }
    if e >= 1 { MulOrder(d, 1, e); }
    if e <= 0 { MulOrder(d, e, 0); }
    if e <= -1 { MulOrder(d, e, -1); }
  }

  lemma DivModUnique(x: nat, d: nat, q: nat, r: nat)
    requires d > 0 && r < d && x == d * q + r
    ensures x / d == q && x % d == r
  {
    Distribute(d, q, x / d);
    SmallMultiple(d, q - x / d);
  }

  lemma MultipleMod(d: nat, k: nat)
    requires d > 0
    ensures (d * k) % d == 0 && (d * k) / d == k
  {
    DivModUnique(d * k, d, k, 0);
  }

  lemma QuotientOf(n: nat, d: nat, k: nat, r: nat)
    requires d > 0 && n == d * k + r
    ensures n / d == k + r / d && n % d == r % d
  {
    Distribute(d, k, r / d);
    DivModUnique(n, d, k + r / d, r % d);
  }

  /** Numbers of equal remainder differ by a multiple. */
  lemma SameRemainder(x: nat, y: nat, d: nat)
    requires d > 0 && x % d == y % d
    ensures y - x == d * (y / d - x / d)
  {
    Distribute(d, y / d, x / d);
  }

  // ----- divisors -----

  predicate Divides(d: nat, n: nat) {
    d > 0 && n % d == 0
  }

  function Gcd(a: nat, b: nat): (g: nat)
    requires a > 0 && b > 0
    ensures 0 < g <= a && g <= b
    decreases a + b
  {
    if a == b then a else if a < b then Gcd(a, b - a) else Gcd(a - b, b)
  }

  lemma DividesSum(g: nat, a: nat, b: nat)
    requires Divides(g, a) && Divides(g, b)
    ensures Divides(g, a + b)
  {
    assert a == g * (a / g) && b == g * (b / g);
    assert a + b == g * (a / g + b / g);
    MultipleMod(g, a / g + b / g);
  }

  lemma MulAtLeast(a: nat, b: nat)
    requires a >= 1
    ensures a * b >= b
  {
    assert a * b == b + (a - 1) * b;
    assert (a - 1) * b >= 0;
  }

  lemma {:induction false} GcdDivides(a: nat, b: nat)
    requires a > 0 && b > 0
    ensures Divides(Gcd(a, b), a) && Divides(Gcd(a, b), b)
    decreases a + b
  {
    if a == b {
      MultipleMod(a, 1);
    } else if a < b {
      GcdDivides(a, b - a);
      DividesSum(Gcd(a, b), a, b - a);
    } else {
      GcdDivides(a - b, b);
      DividesSum(Gcd(a, b), a - b, b);
    }
  }

  lemma {:induction false} DividesTransitive(a: nat, b: nat, c: nat)
    requires Divides(a, b) && Divides(b, c)
    ensures Divides(a, c)
  {
    assert b == a * (b / a) && c == b * (c / b);
    assert c == a * (b / a * (c / b));
    MultipleMod(a, b / a * (c / b));
  }

  /** A proper divisor is at most half. */
  lemma ProperDivisor(d: nat, n: nat)
    requires Divides(d, n) && d < n
    ensures 2 * d <= n
  {
    assert n == d * (n / d);
    assert n / d >= 2 ==> d * (n / d) >= d * 2;
  }

  /** Cancelling a common factor. */
  lemma CancelFactor(g: nat, s: nat, t: nat)
    requires g > 0 && s > 0 && Divides(g * s, g * t)
    ensures Divides(s, t)
  {
    var q := g * t / (g * s);
    assert g * t == g * s * q;
    assert g * s * q == g * (s * q);
    Distribute(g, t, s * q);
    SmallMultiple(g, t - s * q);
    MultipleMod(s, q);
  }

  /** d divides the multiples of a gcd when it divides those of both numbers. */
  lemma {:induction false} DividesGcdMultiple(d: nat, a: nat, b: nat, t: nat)
    requires a > 0 && b > 0 && Divides(d, a * t) && Divides(d, b * t)
    ensures Divides(d, Gcd(a, b) * t)
    decreases a + b
  {
    if a < b {
      MulMonotone(a, b, t);
      assert (b - a) * t == b * t - a * t;
      DividesDifference(d, b * t, a * t);
      DividesGcdMultiple(d, a, b - a, t);
    } else if b < a {
      MulMonotone(b, a, t);
      assert (a - b) * t == a * t - b * t;
      DividesDifference(d, a * t, b * t);
      DividesGcdMultiple(d, a - b, b, t);
    }
  }

  lemma MulMonotone(a: nat, b: nat, t: nat)
    requires a <= b
    ensures a * t <= b * t
  {
    MulOrder(t, a, b);
    assert t * a == a * t && t * b == b * t;
  }

  lemma DividesDifference(d: nat, x: nat, y: nat)
    requires Divides(d, x) && Divides(d, y) && y <= x
    ensures Divides(d, x - y)
  {
    Distribute(d, x / d, y / d);
    assert x - y == d * (x / d - y / d);
    if x / d < y / d { MulOrder(d, x / d + 1, y / d); Distribute(d, x / d, 1); }
    MultipleMod(d, x / d - y / d);
  }
}
