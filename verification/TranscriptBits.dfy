/** The transcript in closed form: which bits of which dot products a bit of the message sums up. */
module TranscriptBits {
  import opened Words
  import opened WordBits
  import opened Transcript

  /** Rotation to the left by 13: every bit moves up 13 places, around the end. */
  lemma Rotl13Bit(w: Word, i: nat)
    requires i < 32
    ensures Bit(Rotl13(w), i) == Bit(w, (i - 13) % 32)
  {
    hide Bit, Rotl13, Rotr;
    Rotl13IsRotr19(w);
    RotrBit(w, 19, i);
    assert (i + 19) % 32 == (i - 13) % 32;
  }

  lemma Rotl13IsRotr19(w: Word)
    ensures Rotl13(w) == Rotr(w, 19)
  {
    assert Pow2(8) == 0x100;
    assert Pow2(13) == 0x2000 && Pow2(19) == 0x8_0000;
    hide Pow2;
    var hi, lo := w / 0x8_0000, w % 0x8_0000;
    assert w * 0x2000 == hi * 0x1_0000_0000 + lo * 0x2000;
  }

  /** The cast to a word keeps the 32 low bits, also of a negative number. */
  lemma AsWordBit(t: int, i: nat)
    requires i < 32
    ensures Bit(AsWord(t), i) == Bit(t, i)
  {
    hide Pow2, Bit;
    Pow2Values();
    BitCut(t, 32, i);
  }

  // ----- one block -----

  /** How many of the first w dot products of a row have bit b set. */
  function RowOnes(x: seq<int>, y: seq<seq<int>>, n: nat, w: nat, b: nat): nat
    requires n <= |x| && w <= |y| && Rows(y, |x|)
  {
    if w == 0 then 0 else RowOnes(x, y, n, w - 1, b) + Bit(Dot(x, y[w - 1], n), b)
  }

  /** The same over the first h rows of the tile. */
  function TileOnes(x: seq<seq<int>>, y: seq<seq<int>>, k: nat, n: nat, h: nat, b: nat): nat
    requires Rows(x, k) && Rows(y, k) && n <= k && h <= |x|
  {
    if h == 0 then 0 else TileOnes(x, y, k, n, h - 1, b) + RowOnes(x[h - 1], y, n, |y|, b)
  }

  lemma {:induction false} XorRowBit(x: seq<int>, y: seq<seq<int>>, n: nat, w: nat, start: Word, b: nat)
    requires n <= |x| && w <= |y| && Rows(y, |x|) && b < 32
    ensures Bit(XorRow(x, y, n, w, start), b) == (Bit(start, b) + RowOnes(x, y, n, w, b)) % 2
    decreases w
  {
    hide Bit, Xor, AsWord, Dot;
    if w > 0 {
      XorRowBit(x, y, n, w - 1, start, b);
      XorBit(XorRow(x, y, n, w - 1, start), AsWord(Dot(x, y[w - 1], n)), b);
      AsWordBit(Dot(x, y[w - 1], n), b);
    }
  }

  lemma {:induction false} XorTileBit(x: seq<seq<int>>, y: seq<seq<int>>, k: nat, n: nat, h: nat, b: nat)
    requires Rows(x, k) && Rows(y, k) && n <= k && h <= |x| && b < 32
    ensures Bit(XorTile(x, y, k, n, h), b) == TileOnes(x, y, k, n, h, b) % 2
    decreases h
  {
    hide XorRow, RowOnes;
    if h == 0 {
      ZeroBit(b);
    } else {
      hide Bit;
      XorTileBit(x, y, k, n, h - 1, b);
      XorRowBit(x[h - 1], y, n, |y|, XorTile(x, y, k, n, h - 1), b);
    }
  }

  lemma {:induction false} ZeroBit(b: nat)
    ensures Bit(0, b) == 0
  {
    if b > 0 { ZeroBit(b - 1); }
  }

  /** The bits of the whole tile when block blk is folded in, after (blk + 1) * r columns. */
  function BlockOnes(x: seq<seq<int>>, y: seq<seq<int>>, k: nat, r: nat, blk: nat, b: nat): nat
    requires Rows(x, k) && Rows(y, k) && r > 0 && blk < k / r
  {
    BlockInside(blk, r, k);
    TileOnes(x, y, k, (blk + 1) * r, |x|, b)
  }

  lemma BlockXorBit(x: seq<seq<int>>, y: seq<seq<int>>, k: nat, r: nat, blk: nat, b: nat)
    requires Rows(x, k) && Rows(y, k) && r > 0 && blk < k / r && b < 32
    ensures (blk + 1) * r <= k && Bit(BlockXor(x, y, k, r, blk), b) == BlockOnes(x, y, k, r, blk, b) % 2
  {
    hide Bit, XorTile, TileOnes;
    BlockInside(blk, r, k);
    XorTileBit(x, y, k, (blk + 1) * r, |x|, b);
  }

  // ----- one word of the message -----

  /**
   Over the first m of n turns of word t: block t + 16 * i has been turned left by 13 bits in each
   of the n - 1 - i turns after its own, so bit b sees its bit 13 * (n - 1 - i) places lower.
   */
  function TurnedOnes(x: seq<seq<int>>, y: seq<seq<int>>, k: nat, r: nat, t: nat, n: nat, m: nat, b: int): nat
    requires Rows(x, k) && Rows(y, k) && r > 0 && t < 16 && m <= n <= Turns(t, k / r)
    decreases m
  {
    if m == 0 then 0
    else
      TurnsInside(t, k / r, m - 1);
      TurnedOnes(x, y, k, r, t, n, m - 1, b)
      + BlockOnes(x, y, k, r, t + 16 * (m - 1), (b - 13 * (n - m)) % 32)
  }

  lemma TurnedFurther(b: int, d: int)
    ensures ((b - 13) % 32 - d) % 32 == (b - 13 - d) % 32
  {
    var q := (b - 13) / 32;
    assert (b - 13) % 32 - d == b - 13 - d - 32 * q;
  }

  lemma {:induction false} TurnsAgain(x: seq<seq<int>>, y: seq<seq<int>>, k: nat, r: nat, t: nat, n: nat,
                                      m: nat, b: int)
    requires Rows(x, k) && Rows(y, k) && r > 0 && t < 16 && m < n <= Turns(t, k / r)
    ensures TurnedOnes(x, y, k, r, t, n - 1, m, (b - 13) % 32) == TurnedOnes(x, y, k, r, t, n, m, b)
    decreases m
  {
    hide BlockOnes, Turns, Rows;
    if m > 0 {
      TurnsAgain(x, y, k, r, t, n, m - 1, b);
      TurnedFurther(b, 13 * (n - 1 - m));
    }
  }

  lemma LastTurn(x: seq<seq<int>>, y: seq<seq<int>>, k: nat, r: nat, t: nat, n: nat, b: nat)
    requires Rows(x, k) && Rows(y, k) && r > 0 && t < 16 && 0 < n <= Turns(t, k / r) && b < 32
    ensures t + 16 * (n - 1) < k / r && (t + 16 * (n - 1) + 1) * r <= k
    ensures JackpotWord(x, y, k, r, t, n)
         == Xor(Rotl13(JackpotWord(x, y, k, r, t, n - 1)), BlockXor(x, y, k, r, t + 16 * (n - 1)))
    ensures TurnedOnes(x, y, k, r, t, n, n, b)
         == TurnedOnes(x, y, k, r, t, n, n - 1, b) + BlockOnes(x, y, k, r, t + 16 * (n - 1), b)
  {
    hide BlockOnes, Turns, BlockXor, Xor, Rotl13, Rows;
    TurnsInside(t, k / r, n - 1);
    BlockInside(t + 16 * (n - 1), r, k);
  }

  lemma Parity(bit: nat, a: nat, c: nat, d: nat)
    requires bit == (a % 2 + c) % 2 && c == d % 2
    ensures bit == (a + d) % 2
  {
  }

  lemma NextTurn(x: seq<seq<int>>, y: seq<seq<int>>, k: nat, r: nat, t: nat, n: nat, b: nat)
    requires Rows(x, k) && Rows(y, k) && r > 0 && t < 16 && 0 < n <= Turns(t, k / r) && b < 32
    requires Bit(JackpotWord(x, y, k, r, t, n - 1), (b - 13) % 32)
          == TurnedOnes(x, y, k, r, t, n - 1, n - 1, (b - 13) % 32) % 2
    ensures Bit(JackpotWord(x, y, k, r, t, n), b) == TurnedOnes(x, y, k, r, t, n, n, b) % 2
  {
    hide Bit, JackpotWord, TurnedOnes, BlockOnes, Turns, BlockXor, Xor, Rotl13, Rows;
    var blk, before := t + 16 * (n - 1), JackpotWord(x, y, k, r, t, n - 1);
    LastTurn(x, y, k, r, t, n, b);
    BlockXorBit(x, y, k, r, blk, b);
    var block := BlockXor(x, y, k, r, blk);
    XorBit(Rotl13(before), block, b);
    Rotl13Bit(before, b);
    TurnsAgain(x, y, k, r, t, n, n - 1, b);
    Parity(Bit(JackpotWord(x, y, k, r, t, n), b), TurnedOnes(x, y, k, r, t, n, n - 1, b),
           Bit(block, b), BlockOnes(x, y, k, r, blk, b));
  }

  /** Bit b of word t after n turns is the parity of those bits. */
  lemma {:induction false} JackpotWordBit(x: seq<seq<int>>, y: seq<seq<int>>, k: nat, r: nat, t: nat, n: nat, b: nat)
    requires Rows(x, k) && Rows(y, k) && r > 0 && t < 16 && n <= Turns(t, k / r) && b < 32
    ensures Bit(JackpotWord(x, y, k, r, t, n), b) == TurnedOnes(x, y, k, r, t, n, n, b) % 2
    decreases n
  {
    hide Bit, Turns, Rows, BlockXor, Xor, Rotl13, BlockOnes;
    if n == 0 {
      ZeroBit(b);
    } else {
      hide JackpotWord, TurnedOnes;
      JackpotWordBit(x, y, k, r, t, n - 1, (b - 13) % 32);
      NextTurn(x, y, k, r, t, n, b);
    }
  }
}
