/**
 The jackpot transcript: a tile of running dot products, hashed down block by block into sixteen
 rotating words.
 */
module Transcript {
  import opened Arithmetic
  import opened Words

  /** A row of the noised matrix: secret plus noise, entry by entry. */
  function Noised(secret: seq<int>, noise: seq<int>): (x: seq<int>)
    requires |secret| == |noise|
    ensures |x| == |secret|
  {
    seq(|secret|, l requires 0 <= l < |secret| => secret[l] + noise[l])
  }

  /** Dot product of the first n entries. */
  function Dot(x: seq<int>, y: seq<int>, n: nat): int
    requires n <= |x| && n <= |y|
  {
    if n == 0 then 0 else Dot(x, y, n - 1) + x[n - 1] * y[n - 1]
  }

  /** The cast from int to uint32_t. */
  function AsWord(t: int): Word {
    t % 0x1_0000_0000
  }

  /** Rotation to the left by 13 bits. */
  function Rotl13(w: Word): Word {
    Rotl13Bound(w);
    w * 0x2000 % 0x1_0000_0000 + w / 0x8_0000
  }

  lemma Rotl13Bound(w: int)
    requires 0 <= w < 0x1_0000_0000
    ensures 0 <= w * 0x2000 % 0x1_0000_0000 + w / 0x8_0000 < 0x1_0000_0000
  {
    var hi: nat, lo: nat := w / 0x8_0000, w % 0x8_0000;
    DivModUnique(w * 0x2000, 0x1_0000_0000, hi, lo * 0x2000);
  }

  /** Rows of equal length k. */
  predicate Rows(x: seq<seq<int>>, k: nat) {
    forall u :: 0 <= u < |x| ==> |x[u]| == k
  }

  /** Exclusive or of one row of cells, then of all rows, at prefix length n. */
  function XorRow(x: seq<int>, y: seq<seq<int>>, n: nat, w: nat, start: Word): Word
    requires n <= |x| && w <= |y| && Rows(y, |x|)
  {
    if w == 0 then start else Xor(XorRow(x, y, n, w - 1, start), AsWord(Dot(x, y[w - 1], n)))
  }

  function XorTile(x: seq<seq<int>>, y: seq<seq<int>>, k: nat, n: nat, h: nat): Word
    requires Rows(x, k) && Rows(y, k) && n <= k && h <= |x|
  {
    if h == 0 then 0 else XorRow(x[h - 1], y, n, |y|, XorTile(x, y, k, n, h - 1))
  }

  /** What block b contributes: the whole tile at prefix length (b + 1) * r. */
  function BlockXor(x: seq<seq<int>>, y: seq<seq<int>>, k: nat, r: nat, b: nat): Word
    requires Rows(x, k) && Rows(y, k) && r > 0 && (b + 1) * r <= k
  {
    XorTile(x, y, k, (b + 1) * r, |x|)
  }

  /** Blocks numbered t, t + 16, t + 32, ... below blocks. */
  function Turns(t: nat, blocks: nat): nat
    requires t < 16
  {
    (blocks + 15 - t) / 16
  }

  lemma TurnsInside(t: nat, blocks: nat, n: nat)
    requires t < 16 && n < Turns(t, blocks)
    ensures t + 16 * n < blocks
  {
  }

  lemma BlockInside(b: nat, r: nat, k: nat)
    requires r > 0 && b < k / r
    ensures (b + 1) * r <= k
  {
    assert k == r * (k / r) + k % r;
    MulOrder(r, b + 1, k / r);
    assert r * (b + 1) == (b + 1) * r;
  }

  /** Word t of the transcript after its first n turns, with no reference to the other words. */
  function JackpotWord(x: seq<seq<int>>, y: seq<seq<int>>, k: nat, r: nat, t: nat, n: nat): Word
    requires Rows(x, k) && Rows(y, k) && r > 0 && t < 16 && n <= Turns(t, k / r)
    decreases n
  {
    if n == 0 then 0
    else
      TurnsInside(t, k / r, n - 1);
      BlockInside(t + 16 * (n - 1), r, k);
      Xor(Rotl13(JackpotWord(x, y, k, r, t, n - 1)), BlockXor(x, y, k, r, t + 16 * (n - 1)))
  }

  // ----- the loops -----

  /** One cell: continue the dot product over one block. */
  method Accumulate(x: seq<int>, y: seq<int>, from: nat, to: nat, start: int) returns (acc: int)
    requires from <= to <= |x| && to <= |y| && start == Dot(x, y, from)
    ensures acc == Dot(x, y, to)
  {
    acc := start;
    var l := from;
    while l < to
      invariant from <= l <= to && acc == Dot(x, y, l)
    {
      acc := acc + x[l] * y[l];
      l := l + 1;
    }
  }

  ghost predicate TileAt(tile: array2<int>, x: seq<seq<int>>, y: seq<seq<int>>, k: nat, n: nat)
    reads tile
  {
    && tile.Length0 == |x| && tile.Length1 == |y| && Rows(x, k) && Rows(y, k) && n <= k
    && forall u, v :: 0 <= u < |x| && 0 <= v < |y| ==> tile[u, v] == Dot(x[u], y[v], n)
  }

  /** After a block every cell is the dot product of the longer prefix. */
  method AdvanceTile(tile: array2<int>, x: seq<seq<int>>, y: seq<seq<int>>, k: nat, from: nat, to: nat)
    requires from <= to <= k && TileAt(tile, x, y, k, from)
    modifies tile
    ensures TileAt(tile, x, y, k, to)
  {
    hide Dot;
    var u := 0;
    while u < |x|
      invariant 0 <= u <= |x|
      invariant forall i, j :: 0 <= i < u && 0 <= j < |y| ==> tile[i, j] == Dot(x[i], y[j], to)
      invariant forall i, j :: u <= i < |x| && 0 <= j < |y| ==> tile[i, j] == Dot(x[i], y[j], from)
    {
      var v := 0;
      while v < |y|
        invariant 0 <= v <= |y|
        invariant forall i, j :: 0 <= i < u && 0 <= j < |y| ==> tile[i, j] == Dot(x[i], y[j], to)
        invariant forall i, j :: u < i < |x| && 0 <= j < |y| ==> tile[i, j] == Dot(x[i], y[j], from)
        invariant forall j :: 0 <= j < v ==> tile[u, j] == Dot(x[u], y[j], to)
        invariant forall j :: v <= j < |y| ==> tile[u, j] == Dot(x[u], y[j], from)
      {
        var acc := Accumulate(x[u], y[v], from, to, tile[u, v]);
        tile[u, v] := acc;
        v := v + 1;
      }
      u := u + 1;
    }
  }

  method XorCells(tile: array2<int>, x: seq<seq<int>>, y: seq<seq<int>>, k: nat, n: nat) returns (xored: Word)
    requires TileAt(tile, x, y, k, n)
    ensures xored == XorTile(x, y, k, n, |x|)
  {
    hide Dot, Xor;
    xored := 0;
    var u := 0;
    while u < |x|
      invariant 0 <= u <= |x| && xored == XorTile(x, y, k, n, u)
    {
      var v := 0;
      while v < |y|
        invariant 0 <= v <= |y| && xored == XorRow(x[u], y, n, v, XorTile(x, y, k, n, u))
      {
        xored := Xor(xored, tile[u, v] % 0x1_0000_0000);
        v := v + 1;
      }
      u := u + 1;
    }
  }

  /** Every word is up to date after the given number of blocks. */
  ghost predicate WordsAt(msg: seq<Word>, x: seq<seq<int>>, y: seq<seq<int>>, k: nat, r: nat, blocks: nat) {
    && |msg| == 16 && r > 0 && blocks <= k / r && Rows(x, k) && Rows(y, k)
    && forall t: nat :: t < 16 ==>
         Turns(t, blocks) <= Turns(t, k / r) && msg[t] == JackpotWord(x, y, k, r, t, Turns(t, blocks))
  }

  lemma TurnsStep(t: nat, blocks: nat)
    requires t < 16
    ensures Turns(t, blocks + 1) == Turns(t, blocks) + if blocks % 16 == t then 1 else 0
    ensures blocks % 16 == t ==> t + 16 * Turns(t, blocks) == blocks
  {
  }

  lemma TurnsOrder(t: nat, a: nat, b: nat)
    requires t < 16 && a <= b
    ensures Turns(t, a) <= Turns(t, b)
  {
  }

  lemma WordsStep(msg: seq<Word>, after: seq<Word>, x: seq<seq<int>>, y: seq<seq<int>>, k: nat, r: nat, b: nat)
    requires WordsAt(msg, x, y, k, r, b) && b < k / r && (b + 1) * r <= k
    requires after == msg[b % 16 := Xor(Rotl13(msg[b % 16]), BlockXor(x, y, k, r, b))]
    ensures WordsAt(after, x, y, k, r, b + 1)
  {
    hide Xor, Rotl13, BlockXor;
    forall t: nat | t < 16
      ensures Turns(t, b + 1) <= Turns(t, k / r) && after[t] == JackpotWord(x, y, k, r, t, Turns(t, b + 1))
    {
      TurnsOrder(t, b + 1, k / r);
      TurnsStep(t, b);
      hide Turns;
    }
  }

  lemma NoTurns(t: nat)
    requires t < 16
    ensures Turns(t, 0) == 0
  {
  }

  /** The transcript: word t folds exactly the blocks congruent to t modulo sixteen. */
  method RunTranscript(x: seq<seq<int>>, y: seq<seq<int>>, k: nat, r: nat) returns (msg: seq<Word>)
    requires Rows(x, k) && Rows(y, k) && r > 0
    ensures |msg| == 16
    ensures forall t: nat :: t < 16 ==> msg[t] == JackpotWord(x, y, k, r, t, Turns(t, k / r))
  {
    hide Xor, XorTile, Dot, JackpotWord;
    var tile := new int[|x|, |y|]((i, j) => 0);
    assert TileAt(tile, x, y, k, 0) by { EmptyDots(x, y, k); }
    msg := seq(16, i => 0);
    assert WordsAt(msg, x, y, k, r, 0) by { EmptyWords(msg, x, y, k, r); }
    ghost var b := 0;
    var ll := r;
    hide WordsAt;
    while ll <= k
      invariant ll == (b + 1) * r && 0 <= b <= k / r
      invariant fresh(tile) && TileAt(tile, x, y, k, b * r) && WordsAt(msg, x, y, k, r, b)
      decreases k + r - ll
    {
      BlockCounts(b, r, k);
      AdvanceTile(tile, x, y, k, ll - r, ll);
      var xored := XorCells(tile, x, y, k, ll);
      var tid := (ll / r - 1) % 16;
      ghost var before := msg;
      msg := TurnWord(msg, tid, xored);
      WordsStep(before, msg, x, y, k, r, b);
      b := b + 1;
      ll := ll + r;
    }
    BlocksDone(b, r, k);
    WordsDone(msg, x, y, k, r);
  }

  /** The word of this block turned left by 13 bits, with the tile folded in. */
  method TurnWord(msg: seq<Word>, tid: nat, xored: Word) returns (after: seq<Word>)
    requires |msg| == 16 && tid < 16
    ensures after == msg[tid := Xor(Rotl13(msg[tid]), xored)]
  {
    hide Xor;
    var v: int := msg[tid];
    Rotl13Bound(v);
    var turned: int := v * 0x2000 % 0x1_0000_0000 + v / 0x8_0000;
    after := msg[tid := Xor(turned, xored)];
  }

  lemma EmptyDots(x: seq<seq<int>>, y: seq<seq<int>>, k: nat)
    requires Rows(x, k) && Rows(y, k)
    ensures forall u, v :: 0 <= u < |x| && 0 <= v < |y| ==> Dot(x[u], y[v], 0) == 0
  {
  }

  lemma EmptyWords(msg: seq<Word>, x: seq<seq<int>>, y: seq<seq<int>>, k: nat, r: nat)
    requires Rows(x, k) && Rows(y, k) && r > 0 && msg == seq(16, i => 0)
    ensures WordsAt(msg, x, y, k, r, 0)
  {
    forall t: nat | t < 16 ensures Turns(t, 0) == 0 { NoTurns(t); }
    hide Turns;
  }

  lemma WordsDone(msg: seq<Word>, x: seq<seq<int>>, y: seq<seq<int>>, k: nat, r: nat)
    requires r > 0 && WordsAt(msg, x, y, k, r, k / r)
    ensures |msg| == 16 && forall t: nat :: t < 16 ==> msg[t] == JackpotWord(x, y, k, r, t, Turns(t, k / r))
  {
  }

  lemma BlockCounts(b: nat, r: nat, k: nat)
    requires r > 0 && (b + 1) * r <= k
    ensures b < k / r && (b + 1) * r / r == b + 1 && (b + 1) * r - r == b * r
    ensures (b + 1) * r + r == (b + 2) * r
  {
    assert (b + 1) * r == r * (b + 1);
    MultipleMod(r, b + 1);
    if b >= k / r { MulOrder(r, k / r + 1, b + 1); Distribute(r, k / r, 1); }
    assert (b + 1) * r == b * r + r && (b + 2) * r == b * r + 2 * r;
  }

  lemma BlocksDone(b: nat, r: nat, k: nat)
    requires r > 0 && b <= k / r && (b + 1) * r > k
    ensures b == k / r
  {
    if b < k / r { BlockInside(b, r, k); }
  }

  // ----- no overflow -----

  /** A signed byte plus a noise difference. */
  predicate NoisedEntry(e: int) {
    -191 <= e <= 190
  }

  predicate NoisedRow(x: seq<int>) {
    forall l :: 0 <= l < |x| ==> NoisedEntry(x[l])
  }

  lemma NoisedFits(secret: seq<int>, noise: seq<int>)
    requires |secret| == |noise|
    requires forall l :: 0 <= l < |secret| ==> -128 <= secret[l] <= 127 && -63 <= noise[l] <= 63
    ensures NoisedRow(Noised(secret, noise))
  {
  }

  lemma ProductBound(a: int, b: int)
    requires NoisedEntry(a) && NoisedEntry(b)
    ensures -36481 <= a * b <= 36481
  {
    var x, y: nat := if a < 0 then -a else a, if b < 0 then -b else b;
    MulOrder(x, y, 191);
    MulOrder(191, x, 191);
    assert a * b == x * y || a * b == -(x * y);
  }

  lemma {:induction false} DotBound(x: seq<int>, y: seq<int>, n: nat)
    requires n <= |x| && n <= |y| && NoisedRow(x) && NoisedRow(y)
    ensures -36481 * n <= Dot(x, y, n) <= 36481 * n
  {
    if n > 0 {
      DotBound(x, y, n - 1);
      ProductBound(x[n - 1], y[n - 1]);
    }
  }

  lemma {:induction false} DotConstant(x: seq<int>, n: nat)
    requires n <= |x| && forall l :: 0 <= l < |x| ==> x[l] == -191
    ensures Dot(x, x, n) == 36481 * n
  {
    if n > 0 { DotConstant(x, n - 1); }
  }

  predicate FitsInt32(t: int) {
    -0x8000_0000 <= t <= 0x7FFF_FFFF
  }

  /** No cell of any tile leaves the int32 range precisely when at most 58865 columns are summed. */
  lemma TileFitsIff(n: nat)
    ensures (forall x: seq<int>, y: seq<int> :: |x| == n && |y| == n && NoisedRow(x) && NoisedRow(y) ==>
              FitsInt32(Dot(x, y, n)))
       <==> n <= 58865
  {
    if n <= 58865 {
      forall x: seq<int>, y: seq<int> | |x| == n && |y| == n && NoisedRow(x) && NoisedRow(y)
        ensures FitsInt32(Dot(x, y, n))
      {
        DotBound(x, y, n);
      }
    } else {
      var x := seq(n, l => -191);
      DotConstant(x, n);
      assert |x| == n && NoisedRow(x) && !FitsInt32(Dot(x, x, n));
    }
  }
}
