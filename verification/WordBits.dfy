/** What the word operations do, bit by bit. */
module WordBits {
  import opened Arithmetic
  import opened Words

  /** Bit i, in two's complement for negative numbers. */
  function Bit(x: int, i: nat): (b: nat)
    ensures b < 2
    decreases i
  {
    if i == 0 then x % 2 else Bit(x / 2, i - 1)
  }

  /** The bits of a low part of e bits below y. */
  lemma {:induction false} BitJoin(low: nat, y: int, e: nat, i: nat)
    requires low < Pow2(e)
    ensures Bit(low + y * Pow2(e), i) == if i < e then Bit(low, i) else Bit(y, i - e)
    decreases e
  {
    if e == 0 {
      assert low + y * Pow2(e) == y;
    } else {
      var half := y * Pow2(e - 1);
      assert y * Pow2(e) == 2 * half;
      assert (low + 2 * half) % 2 == low % 2 && (low + 2 * half) / 2 == low / 2 + half;
      if i > 0 { BitJoin(low / 2, y, e - 1, i - 1); }
    }
  }

  /** Cutting a number at bit e. */
  lemma BitCut(x: int, e: nat, i: nat)
    ensures Bit(x, i) == if i < e then Bit(x % Pow2(e), i) else Bit(x / Pow2(e), i - e)
  {
    hide Pow2, Bit;
    var p := Pow2(e);
    BitJoin(x % p, x / p, e, i);
    assert x == x % p + x / p * p;
  }

  /** Numbers of k bits are determined by them. */
  lemma {:induction false} BitsDetermine(x: nat, y: nat, k: nat)
    requires x < Pow2(k) && y < Pow2(k) && forall i: nat :: i < k ==> Bit(x, i) == Bit(y, i)
    ensures x == y
    decreases k
  {
    if k > 0 {
      assert Bit(x, 0) == Bit(y, 0);
      forall i: nat | i < k - 1 ensures Bit(x / 2, i) == Bit(y / 2, i) { assert Bit(x, i + 1) == Bit(y, i + 1); }
      BitsDetermine(x / 2, y / 2, k - 1);
    }
  }

  lemma {:induction false} XorBitsBit(x: nat, y: nat, k: nat, i: nat)
    requires i < k
    ensures Bit(XorBits(x, y, k), i) == (Bit(x, i) + Bit(y, i)) % 2
    decreases k
  {
    if i > 0 { XorBitsBit(x / 2, y / 2, k - 1, i - 1); }
  }

  lemma {:induction false} AndBitsBit(x: nat, y: nat, k: nat, i: nat)
    requires i < k
    ensures Bit(AndBits(x, y, k), i) == Bit(x, i) * Bit(y, i)
    decreases k
  {
    if i > 0 { AndBitsBit(x / 2, y / 2, k - 1, i - 1); }
  }

  /** Exclusive or: the bits that differ. */
  lemma XorBit(x: Word, y: Word, i: nat)
    requires i < 32
    ensures Bit(Xor(x, y), i) == (Bit(x, i) + Bit(y, i)) % 2
  {
    hide XorBits, Bit;
    XorBitsBit(x, y, 32, i);
  }

  /** Rotation to the right by n: every bit moves down n places, around the end. */
  lemma RotrBit(x: Word, n: nat, i: nat)
    requires n <= 32 && i < 32
    ensures Bit(Rotr(x, n), i) == Bit(x, (i + n) % 32)
  {
    hide Pow2, Bit;
    Pow2Values();
    Pow2Sum(n, 32 - n);
    var p, q := Pow2(n), Pow2(32 - n);
    QuotientBelow(x, p, q);
    BitJoin(x / p, x % p, 32 - n, i);
    BitCut(x, n, (i + n) % 32);
    if i < 32 - n { assert (i + n) % 32 == i + n; } else { assert (i + n) % 32 == i + n - 32; }
  }

  lemma QuotientBelow(x: nat, p: nat, q: nat)
    requires p > 0 && x < p * q
    ensures x / p < q
  {
    if x / p >= q { MulMonotone(q, x / p, p); }
  }

  /** Addition modulo 2^32. */
  lemma AddWraps(x: Word, y: Word)
    ensures Add(x, y) == (x + y) % 0x1_0000_0000
  {
  }
}
