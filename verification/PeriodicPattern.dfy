/**
 Factoring a sorted index list into nested strides: what the greedy search returns, that it
 succeeds exactly on the lists some nested shape generates, and that it uses as few levels as any.
 */
module PeriodicPattern {
  import opened Arithmetic

  /** One nesting level: length copies, stride apart. */
  datatype Level = Level(stride: nat, length: nat)

  function Shifted(p: seq<nat>, s: nat): (r: seq<nat>)
    ensures |r| == |p|
  {
    seq(|p|, i requires 0 <= i < |p| => p[i] + s)
  }

  /** n copies of p, each stride apart. */
  function Copies(p: seq<nat>, stride: nat, n: nat): (r: seq<nat>)
    ensures |r| == n * |p|
  {
    if n == 0 then [] else
      assert n * |p| == (n - 1) * |p| + |p|;
      Copies(p, stride, n - 1) + Shifted(p, (n - 1) * stride)
  }

  /** The index list of a shape, innermost level first. */
  function Expand(shape: seq<Level>): seq<nat> {
    if shape == [] then [0]
    else
      var last := shape[|shape| - 1];
      Copies(Expand(shape[..|shape| - 1]), last.stride, last.length)
  }

  /** d is a period of p: shifting by d positions adds p[d] everywhere it stays inside p. */
  ghost predicate Period(p: seq<nat>, d: nat) {
    0 < d < |p| && forall i :: 0 <= i < |p| - d ==> p[i + d] == p[i] + p[d]
  }

  ghost predicate Good(p: seq<nat>, d: nat) {
    Period(p, d) && Divides(d, |p|)
  }

  ghost predicate ZeroRooted(p: seq<nat>) {
    |p| > 0 && p[0] == 0
  }

  // ----- Fine and Wilf: two periods with room for both have their gcd as a period -----

  /** One subtraction step of Euclid's algorithm on periods. */
  lemma PeriodDifference(p: seq<nat>, d: nat, e: nat)
    requires ZeroRooted(p) && Period(p, d) && Period(p, e) && d < e && d + e <= |p|
    ensures Period(p, e - d)
  {
    assert p[(e - d) + d] == p[e - d] + p[d];
    forall i | 0 <= i < |p| - (e - d) ensures p[i + (e - d)] == p[i] + p[e - d] {
      if i >= d {
        assert p[(i - d) + d] == p[i - d] + p[d];
        assert p[(i - d) + e] == p[i - d] + p[e];
      } else {
        assert p[(i + (e - d)) + d] == p[i + (e - d)] + p[d];
        assert p[i + e] == p[i] + p[e];
      }
    }
  }

  lemma {:induction false} GcdPeriod(p: seq<nat>, d: nat, e: nat)
    requires ZeroRooted(p) && Period(p, d) && Period(p, e) && d + e <= |p|
    ensures Period(p, Gcd(d, e))
    decreases d + e
  {
    if d < e {
      PeriodDifference(p, d, e);
      GcdPeriod(p, d, e - d);
    } else if e < d {
      PeriodDifference(p, e, d);
      GcdPeriod(p, d - e, e);
    }
  }

  /** The gcd of two dividing periods is a dividing period: the key to every greedy choice. */
  lemma GcdGood(p: seq<nat>, d: nat, e: nat)
    requires ZeroRooted(p) && Good(p, d) && Good(p, e)
    ensures Good(p, Gcd(d, e)) && Divides(Gcd(d, e), d) && Divides(Gcd(d, e), e)
  {
    ProperDivisor(d, |p|);
    ProperDivisor(e, |p|);
    GcdPeriod(p, d, e);
    GcdDivides(d, e);
    DividesTransitive(Gcd(d, e), d, |p|);
  }

  // ----- copies and periods -----

  lemma {:induction false} CopiesAt(p: seq<nat>, stride: nat, n: nat, k: nat, j: nat)
    requires k < n && j < |p|
    ensures k * |p| + j < |Copies(p, stride, n)|
    ensures Copies(p, stride, n)[k * |p| + j] == p[j] + k * stride
    decreases n
  {
    MulSplit(n, |p|);
    if k < n - 1 {
      CopiesAt(p, stride, n - 1, k, j);
    }
  }

  lemma MulSplit(n: nat, m: nat)
    requires n > 0
    ensures n * m == (n - 1) * m + m
  {
  }

  /** Position i of a list of blocks of e. */
  lemma BlockPosition(i: nat, e: nat, n: nat) returns (k: nat, j: nat)
    requires e > 0 && i < n * e
    ensures i == k * e + j && j < e && k < n
  {
    k, j := i / e, i % e;
    assert k * e == e * k;
    assert k >= n ==> k * e >= n * e;
  }

  lemma CopiesFirst(q: seq<nat>, stride: nat, n: nat, i: nat)
    requires n > 0 && i < |q|
    ensures i < |Copies(q, stride, n)| && Copies(q, stride, n)[i] == q[i]
  {
    hide Copies;
    CopiesAt(q, stride, n, 0, i);
  }

  lemma CopiesNext(q: seq<nat>, stride: nat, n: nat, i: nat)
    requires |q| > 0 && i + |q| < |Copies(q, stride, n)|
    ensures Copies(q, stride, n)[i + |q|] == Copies(q, stride, n)[i] + stride
  {
    hide Copies;
    var e := |q|;
    MulSplit(n, e);
    var k, j := BlockPosition(i, e, n - 1);
    CopiesAt(q, stride, n, k, j);
    MulSplit(k + 1, e);
    CopiesAt(q, stride, n, k + 1, j);
    MulSplit(k + 1, stride);
  }

  lemma CopiesLength(q: seq<nat>, stride: nat, n: nat)
    requires q != [] && n >= 2
    ensures |q| < |Copies(q, stride, n)| && Divides(|q|, |Copies(q, stride, n)|)
  {
    hide Copies;
    MulMore(n, |q|);
    MultipleMod(|q|, n);
  }

  lemma MulMore(n: nat, e: nat)
    requires n >= 2 && e > 0
    ensures n * e > e && n * e == e * n
  {
  }

  /** A copied list has its block length as a dividing period and its first block as prefix. */
  lemma CopiesGood(q: seq<nat>, stride: nat, n: nat)
    requires ZeroRooted(q) && n >= 2
    ensures var p := Copies(q, stride, n);
      ZeroRooted(p) && Good(p, |q|) && p[|q|] == stride && p[..|q|] == q
  {
    CopiesLength(q, stride, n);
    hide Copies, Divides;
    var p, e := Copies(q, stride, n), |q|;
    forall i: nat | i < e ensures p[i] == q[i] {
      CopiesFirst(q, stride, n, i);
    }
    CopiesNext(q, stride, n, 0);
    forall i: nat | i < |p| - e ensures p[i + e] == p[i] + p[e] {
      CopiesNext(q, stride, n, i);
    }
  }

  lemma {:induction false} PeriodIterate(p: seq<nat>, d: nat, k: nat, j: nat)
    requires ZeroRooted(p) && Period(p, d) && j < d && k * d + j < |p|
    ensures p[k * d + j] == p[j] + k * p[d]
    decreases k
  {
    if k > 0 {
      MulSplit(k, d);
      MulSplit(k, p[d]);
      PeriodIterate(p, d, k - 1, j);
      assert p[((k - 1) * d + j) + d] == p[(k - 1) * d + j] + p[d];
    }
  }

  lemma CopyOfPrefix(p: seq<nat>, d: nat, n: nat, i: nat)
    requires ZeroRooted(p) && Period(p, d) && |p| == n * d && i < |p|
    ensures var r := Copies(p[..d], p[d], n); i < |r| && p[i] == r[i]
  {
    hide Copies;
    var k, j := BlockPosition(i, d, n);
    PeriodIterate(p, d, k, j);
    CopiesAt(p[..d], p[d], n, k, j);
  }

  lemma ExactQuotient(a: nat, d: nat)
    requires Divides(d, a)
    ensures a == a / d * d
  {
  }

  /** A dividing period writes the list as copies of its prefix. */
  lemma GoodIsCopies(p: seq<nat>, d: nat)
    requires ZeroRooted(p) && Good(p, d)
    ensures p == Copies(p[..d], p[d], |p| / d)
  {
    var n, q := |p| / d, p[..d];
    ExactQuotient(|p|, d);
    hide Copies, Period, Divides;
    var r := Copies(q, p[d], n);
    forall i: nat | i < |p| ensures i < |r| && p[i] == r[i] {
      CopyOfPrefix(p, d, n, i);
    }
  }

  lemma GoodPrefix(p: seq<nat>, g: nat, e: nat)
    requires Period(p, g) && Divides(g, e) && g < e <= |p|
    ensures Good(p[..e], g)
  {
    var q := p[..e];
    forall i | 0 <= i < |q| - g ensures q[i + g] == q[i] + q[g] {
      assert p[i + g] == p[i] + p[g];
    }
  }

  lemma {:induction false} ExpandZeroRooted(shape: seq<Level>)
    requires Expand(shape) != []
    ensures ZeroRooted(Expand(shape))
    decreases |shape|
  {
    if shape != [] {
      var inner, last := shape[..|shape| - 1], shape[|shape| - 1];
      var q := Expand(inner);
      assert last.length > 0 && q != [] by {
        assert last.length == 0 ==> last.length * |q| == 0;
        assert |q| == 0 ==> last.length * |q| == 0;
      }
      ExpandZeroRooted(inner);
      CopiesAt(q, last.stride, last.length, 0, 0);
    }
  }

  lemma ExpandSnoc(inner: seq<Level>, last: Level)
    ensures Expand(inner + [last]) == Copies(Expand(inner), last.stride, last.length)
  {
    assert (inner + [last])[..|inner|] == inner;
  }

  lemma OneCopy(p: seq<nat>, stride: nat)
    ensures Copies(p, stride, 1) == p
  {
    assert Copies(p, stride, 1) == Copies(p, stride, 0) + Shifted(p, 0 * stride);
    assert Shifted(p, 0) == p;
  }

  // ----- any dividing period may be chosen -----

  ghost predicate Least(p: seq<nat>, d: nat) {
    Good(p, d) && forall g :: Good(p, g) ==> d <= g
  }

  /**
   Cutting a generated list at any dividing period leaves a generated list with no more levels;
   cutting at the least one removes a level.
   */
  lemma {:induction false} PrefixShape(shape: seq<Level>, d: nat) returns (t: seq<Level>)
    requires Good(Expand(shape), d)
    ensures Expand(t) == Expand(shape)[..d] && |t| <= |shape|
    ensures Least(Expand(shape), d) ==> |t| < |shape|
    decreases |shape|
  {
    var p := Expand(shape);
    ExpandZeroRooted(shape);
    var inner, last := shape[..|shape| - 1], shape[|shape| - 1];
    var q := Expand(inner);
    if last.length == 1 {
      OneCopy(q, last.stride);
      t := PrefixShape(inner, d);
    } else {
      InnerNonempty(inner, last);
      CopiesGood(q, last.stride, last.length);
      var e := |q|;
      GcdGood(p, d, e);
      var g := Gcd(d, e);
      var u := inner;
      if g < e {
        GoodPrefix(p, g, e);
        u := PrefixShape(inner, g);
        assert q[..g] == p[..g];
      }
      t := ExtendShape(p, g, d, u);
    }
  }

  lemma InnerNonempty(inner: seq<Level>, last: Level)
    requires Copies(Expand(inner), last.stride, last.length) != []
    ensures ZeroRooted(Expand(inner)) && last.length > 0
  {
    var q := Expand(inner);
    assert last.length == 0 ==> last.length * |q| == 0;
    assert |q| == 0 ==> last.length * |q| == 0;
    ExpandZeroRooted(inner);
  }

  /** From a shape of p[..g] to one of p[..d], where g divides d. */
  lemma ExtendShape(p: seq<nat>, g: nat, d: nat, u: seq<Level>) returns (t: seq<Level>)
    requires ZeroRooted(p) && Period(p, g) && Divides(g, d) && g <= d <= |p| && Expand(u) == p[..g]
    ensures Expand(t) == p[..d] && |t| <= |u| + 1 && (g == d ==> |t| == |u|)
  {
    hide Expand, Copies;
    if g == d {
      t := u;
    } else {
      GoodPrefix(p, g, d);
      GoodIsCopies(p[..d], g);
      assert p[..d][..g] == p[..g];
      t := u + [Level(p[g], d / g)];
      ExpandSnoc(u, Level(p[g], d / g));
    }
  }

  /** A generated list with more than one element has a dividing period. */
  lemma {:induction false} GeneratedHasGood(shape: seq<Level>) returns (d: nat)
    requires |Expand(shape)| > 1
    ensures Good(Expand(shape), d)
    decreases |shape|
  {
    var inner, last := shape[..|shape| - 1], shape[|shape| - 1];
    if last.length == 1 {
      OneCopy(Expand(inner), last.stride);
      d := GeneratedHasGood(inner);
    } else {
      InnerNonempty(inner, last);
      CopiesGood(Expand(inner), last.stride, last.length);
      d := |Expand(inner)|;
    }
  }
}
