/** Bytes, 32-bit words and their bit operations, on unbounded integers with explicit wrap-around. */
module Words {
  import opened Arithmetic

  type Byte = x: int | 0 <= x < 256
  type Word = x: int | 0 <= x < 0x1_0000_0000
  type U64 = x: int | 0 <= x < 0x1_0000_0000_0000_0000
  type Bytes32 = b: seq<Byte> | |b| == 32 witness seq(32, i => 0)

  function LeWord(a: Byte, b: Byte, c: Byte, d: Byte): Word {
    a + 0x100 * b + 0x1_0000 * c + 0x100_0000 * d
  }

  /** Byte b of a word, least significant first. */
  function ByteOfWord(w: Word, b: nat): Byte
    requires b < 4
  {
    if b == 0 then w % 0x100
    else if b == 1 then w / 0x100 % 0x100
    else if b == 2 then w / 0x1_0000 % 0x100
    else w / 0x100_0000
  }

  function Pow2(k: nat): (p: nat)
    ensures p > 0
  {
    if k == 0 then 1 else 2 * Pow2(k - 1)
  }

  lemma Pow2Values()
    ensures Pow2(7) == 0x80 && Pow2(8) == 0x100 && Pow2(16) == 0x1_0000 && Pow2(24) == 0x100_0000
    ensures Pow2(31) == 0x8000_0000 && Pow2(32) == 0x1_0000_0000
  {
    assert Pow2(8) == 0x100;
    assert Pow2(16) == 0x1_0000;
    assert Pow2(24) == 0x100_0000;
    assert Pow2(31) == 0x8000_0000;
  }

  // ----- bit operations -----

  /** Bitwise exclusive or of the k low bits. */
  function XorBits(x: nat, y: nat, k: nat): (r: nat)
    ensures r < Pow2(k)
  {
    if k == 0 then 0 else (if x % 2 == y % 2 then 0 else 1) + 2 * XorBits(x / 2, y / 2, k - 1)
  }

  function Xor(x: Word, y: Word): Word {
    Pow2Values();
    XorBits(x, y, 32)
  }

  /** Bitwise conjunction of the k low bits. */
  function AndBits(x: nat, y: nat, k: nat): nat {
    if k == 0 then 0 else (if x % 2 == 1 && y % 2 == 1 then 1 else 0) + 2 * AndBits(x / 2, y / 2, k - 1)
  }

  function Add(x: Word, y: Word): Word {
    if x + y < 0x1_0000_0000 then x + y else x + y - 0x1_0000_0000
  }

  /** Rotation to the right by n bits. */
  function Rotr(x: Word, n: nat): Word
    requires n <= 32
  {
    RotrBound(x, n);
    x / Pow2(n) + x % Pow2(n) * Pow2(32 - n)
  }

  lemma {:induction false} Pow2Sum(a: nat, b: nat)
    ensures Pow2(a + b) == Pow2(a) * Pow2(b)
    decreases a
  {
    if a > 0 {
      Pow2Sum(a - 1, b);
      TwiceProduct(Pow2(a - 1), Pow2(b));
    } else {
      assert 1 * Pow2(b) == Pow2(b);
    }
  }

  lemma TwiceProduct(x: nat, y: nat)
    ensures 2 * x * y == 2 * (x * y)
  {
  }

  lemma RotrBound(x: Word, n: nat)
    requires n <= 32
    ensures 0 <= x / Pow2(n) + x % Pow2(n) * Pow2(32 - n) < 0x1_0000_0000
  {
    hide Pow2;
    Pow2Values();
    Pow2Sum(n, 32 - n);
    RotatedBound(x, Pow2(n), Pow2(32 - n));
  }

  lemma RotatedBound(x: Word, p: nat, q: nat)
    requires p > 0 && p * q == 0x1_0000_0000
    ensures 0 <= x / p + x % p * q < 0x1_0000_0000
  {
    assert x / p < q by { if x / p >= q { MulMonotone(q, x / p, p); } }
    assert x % p <= p - 1;
    MulMonotone(x % p, p - 1, q);
    assert (p - 1) * q == p * q - q;
  }
}
