/** Choosing the matrix width so that the tile grid fills whole waves of 170 multiprocessors. */
module WaveAlign {
  import opened Arithmetic

  /** Thread blocks of one product: 128 by 256 tiles. */
  function Tiles(m: nat, n: nat): nat {
    m / 128 * (n / 256)
  }

  predicate WaveAligned(m: nat, n: nat) {
    Divides(170, Tiles(m, n))
  }

  /** gcd(g, 170), with gcd(0, 170) = 170. */
  function GcdWave(g: nat): (d: nat)
    ensures d > 0
  {
    if g == 0 then 170 else Gcd(g, 170)
  }

  function Stride(g: nat): (s: nat)
    ensures s > 0 && GcdWave(g) * s == 170
  {
    StrideExact(g);
    170 / GcdWave(g)
  }

  lemma StrideExact(g: nat)
    ensures 170 / GcdWave(g) > 0 && GcdWave(g) * (170 / GcdWave(g)) == 170
  {
    if g > 0 { GcdDivides(g, 170); }
    var d := GcdWave(g);
    hide GcdWave;
    assert 170 == d * (170 / d) + 170 % d;
  }

  /** g * t blocks fill whole waves exactly when t is a multiple of 170 / gcd(g, 170). */
  lemma WholeWavesIff(g: nat, t: nat)
    ensures Divides(170, g * t) <==> Divides(Stride(g), t)
  {
    var d, s := GcdWave(g), Stride(g);
    if g == 0 {
      MultipleMod(1, t);
      assert 0 * t == 0;
    } else {
      if Divides(170, g * t) {
        MultipleMod(170, t);
        DividesGcdMultiple(170, g, 170, t);
        CancelFactor(d, s, t);
      }
      if Divides(s, t) {
        GcdDivides(g, 170);
        Rejoin(g, t, d, s);
      }
    }
  }

  lemma Rejoin(g: nat, t: nat, d: nat, s: nat)
    requires Divides(d, g) && Divides(s, t) && d * s == 170
    ensures Divides(170, g * t)
  {
    var a, b := g / d, t / s;
    assert g == d * a && t == s * b;
    assert d * a * (s * b) == d * s * (a * b);
    MultipleMod(170, a * b);
  }

  lemma RoundUp(t: nat, s: nat)
    requires s > 0
    ensures var r := (t + s - 1) / s * s;
      r >= t && Divides(s, r) && forall u: nat :: u >= t && Divides(s, u) ==> u >= r
  {
    var q := (t + s - 1) / s;
    assert t + s - 1 == s * q + (t + s - 1) % s;
    assert q * s == s * q;
    MultipleMod(s, q);
    forall u: nat | u >= t && Divides(s, u) ensures u >= q * s {
      var k := u / s;
      assert u == s * k;
      if k < q { MulOrder(s, k + 1, q); Distribute(s, k, 1); }
      MulOrder(s, 0, k);
      if k >= q { MulOrder(s, q, k); }
    }
  }

  /** The least tile-aligned width at or above a positive bound that leaves no partial wave. */
  method WaveAlignedWidth(m: nat, minN: nat) returns (n: nat)
    requires minN > 0
    ensures n % 256 == 0 && n >= minN && WaveAligned(m, n)
    ensures forall w: nat :: w % 256 == 0 && w >= minN && WaveAligned(m, w) ==> w >= n
  {
    hide Stride, Divides;
    var gridX := m / 128;
    var step := Stride(gridX);
    var t := (minN + 255) / 256;
    ghost var least := t;
    WholeWavesIff(gridX, t);
    var full := gridX * t % 170 == 0;
    assert full == Divides(170, gridX * t) by { DividesIs(gridX * t); }
    if !full {
      RoundUp(t, step);
      t := (t + step - 1) / step * step;
      WholeWavesIff(gridX, t);
    }
    n := t * 256;
    TileCount(m, n, t);
    forall w: nat | w % 256 == 0 && w >= minN && WaveAligned(m, w) ensures w >= n {
      var u := w / 256;
      TileCount(m, w, u);
      assert u >= least;
      WholeWavesIff(gridX, u);
    }
  }

  lemma DividesIs(x: nat)
    ensures Divides(170, x) <==> x % 170 == 0
  {
  }

  lemma TileCount(m: nat, n: nat, t: nat)
    requires n == t * 256
    ensures Tiles(m, n) == m / 128 * t
  {
    assert n / 256 == t;
  }
}
