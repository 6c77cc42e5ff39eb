/**
 The noise behind a share: matrix rows cut out of one keyed hash stream, and the sparse +1/-1
 permutation that spreads them over the inner dimension.
 */
module Noise {
  import opened Arithmetic
  import opened Words
  import opened LeadingZeros
  import opened CompactTarget

  type Digest = Bytes32

  /** Block number to 32 hash bytes. */
  type Stream = nat -> Digest

  function StreamByte(hash: Stream, j: nat): Byte {
    hash(j / 32)[j % 32]
  }

  /** One noise entry, uniform on -32 .. 31. */
  function Entry(hash: Stream, j: nat): (e: int)
    ensures -32 <= e <= 31
  {
    Centered(StreamByte(hash, j))
  }

  function Centered(b: int): int {
    b % 64 - 32
  }

  /** Row number row of the infinite matrix with cols columns: a slice of the entry stream. */
  function UniformRow(hash: Stream, row: nat, cols: nat): (r: seq<int>)
    ensures |r| == cols && forall c :: 0 <= c < cols ==> -32 <= r[c] <= 31
  {
    var r := seq(cols, c requires 0 <= c < cols => Entry(hash, row * cols + c));
    assert forall c :: 0 <= c < cols ==> r[c] == Entry(hash, row * cols + c);
    r
  }

  /** How many of the entries below position end belong to a row starting at start. */
  function Written(start: nat, cols: nat, end: nat): (w: nat)
    ensures w <= cols
  {
    if end <= start then 0 else if end >= start + cols then cols else end - start
  }

  lemma StreamBlock(hash: Stream, block: nat, i: nat)
    requires i < 32
    ensures StreamByte(hash, 32 * block + i) == hash(block)[i]
  {
    DivModUnique(32 * block + i, 32, block, i);
  }

  /** The low six bits, less 32. */
  method CenterByte(b: Byte) returns (e: int)
    ensures e == Centered(b)
  {
    e := b % 64 - 32;
  }

  /** Block by block, keeping only the bytes inside the row. */
  method GenerateRow(hash: Stream, row: nat, cols: nat) returns (out: seq<int>)
    ensures out == UniformRow(hash, row, cols)
  {
    var start := row * cols;
    var end := start + cols;
    var startBlock, endBlock := start / 32, (end + 31) / 32;
    var buffer := new int[cols];
    var written, block := 0, startBlock;
    hide Entry;
    while block < endBlock
      invariant startBlock <= block && 32 * block <= end + 31
      invariant written == Written(start, cols, 32 * block)
      invariant forall c :: 0 <= c < written ==> buffer[c] == Entry(hash, start + c)
      decreases endBlock - block
    {
      var h := hash(block);
      var i := 0;
      while i < 32
        invariant 0 <= i <= 32 && written == Written(start, cols, 32 * block + i)
        invariant forall c :: 0 <= c < written ==> buffer[c] == Entry(hash, start + c)
      {
        var at := 32 * block + i;
        if start <= at < end {
          StreamBlock(hash, block, i);
          buffer[written] := CenterByte(h[i]);
          assert buffer[written] == Entry(hash, at) by { EntryAt(hash, at, h[i]); }
          written := written + 1;
        }
        i := i + 1;
      }
      block := block + 1;
    }
    out := buffer[..];
  }

  lemma EntryAt(hash: Stream, j: nat, b: Byte)
    requires StreamByte(hash, j) == b
    ensures Entry(hash, j) == Centered(b)
  {
  }

  method GenerateRows(hash: Stream, rows: seq<nat>, cols: nat) returns (out: seq<seq<int>>)
    ensures |out| == |rows| && forall i :: 0 <= i < |rows| ==> out[i] == UniformRow(hash, rows[i], cols)
  {
    out := [];
    var i := 0;
    while i < |rows|
      invariant 0 <= i <= |rows| && |out| == i
      invariant forall j :: 0 <= j < i ==> out[j] == UniformRow(hash, rows[j], cols)
    {
      var row := GenerateRow(hash, rows[i], cols);
      out := out + [row];
      i := i + 1;
    }
  }

  // ----- the permutation -----

  datatype Pair = Pair(first: Word, second: Word)

  /** High word of a 32 by 32 bit product. */
  function MulHigh(a: Word, b: Word): Word {
    MulHighBound(a, b);
    a * b / 0x1_0000_0000
  }

  lemma MulHighBound(a: Word, b: Word)
    ensures 0 <= a * b && a * b / 0x1_0000_0000 < 0x1_0000_0000
    ensures a > 0 ==> a * b / 0x1_0000_0000 < a
  {
    MulOrder(a, b, 0xFFFF_FFFF);
    MulOrder(0xFFFF_FFFF, a, 0xFFFF_FFFF);
    assert a * b >= 0;
    if a > 0 { DivBelow(a * b, 0x1_0000_0000, a); }
  }

  function PairOf(rank: nat, rand: Word): Pair
    requires 0 < rank < 0x1_0000_0000
  {
    AndBound(rand, rank - 1);
    var first: Word := AndBits(rand, rank - 1, 32);
    var shift := 1 + MulHigh(rank - 1, rand);
    ShiftFits(rank, rand);
    Pair(first, Xor(first, shift))
  }

  lemma ShiftFits(rank: nat, rand: Word)
    requires 0 < rank < 0x1_0000_0000
    ensures 1 <= 1 + MulHigh(rank - 1, rand) < 0x1_0000_0000
    ensures rank >= 2 ==> 1 + MulHigh(rank - 1, rand) < rank
  {
    MulHighBound(rank - 1, rand);
    if rank == 1 { assert 0 * rand == 0; }
  }

  // ----- bit facts -----

  lemma {:induction false} AndBelow(x: nat, y: nat, k: nat)
    ensures AndBits(x, y, k) <= y
    decreases k
  {
    if k > 0 { AndBelow(x / 2, y / 2, k - 1); }
  }

  lemma AndBound(x: nat, y: Word)
    ensures AndBits(x, y, 32) < 0x1_0000_0000
  {
    AndBelow(x, y, 32);
  }

  /** Masking with 2^e - 1 is the remainder. */
  lemma {:induction false} AndMask(x: nat, e: nat, k: nat)
    requires e <= k
    ensures AndBits(x, Pow2(e) - 1, k) == x % Pow2(e)
    decreases k
  {
    if e == 0 {
      AndZero(x, k);
    } else {
      AndMask(x / 2, e - 1, k - 1);
      var p := Pow2(e - 1);
      assert (2 * p - 1) / 2 == p - 1 && (2 * p - 1) % 2 == 1;
      hide Pow2;
      HalfRemainder(x, p);
    }
  }

  lemma {:induction false} AndZero(x: nat, k: nat)
    ensures AndBits(x, 0, k) == 0
  {
    if k > 0 { AndZero(x / 2, k - 1); }
  }

  lemma HalfRemainder(x: nat, p: nat)
    requires p > 0
    ensures x % (2 * p) == x % 2 + 2 * (x / 2 % p)
  {
    var h := x / 2;
    var q, r := h / p, h % p;
    assert h == p * q + r;
    assert 2 * (p * q) == 2 * p * q;
    DivModUnique(x, 2 * p, q, x % 2 + 2 * r);
  }

  lemma {:induction false} XorBelow(x: nat, y: nat, e: nat, k: nat)
    requires e <= k && x < Pow2(e) && y < Pow2(e)
    ensures XorBits(x, y, k) < Pow2(e)
    decreases k
  {
    if e == 0 {
      XorZero(0, k);
    } else {
      XorBelow(x / 2, y / 2, e - 1, k - 1);
    }
  }

  /** Flipping nothing changes nothing. */
  lemma {:induction false} XorZero(x: nat, k: nat)
    requires x < Pow2(k)
    ensures XorBits(x, 0, k) == x
    decreases k
  {
    if k > 0 { XorZero(x / 2, k - 1); }
  }

  /** Flipping some bit changes the number. */
  lemma {:induction false} XorChanges(x: nat, y: nat, k: nat)
    requires 0 < y < Pow2(k)
    ensures XorBits(x, y, k) != x
    decreases k
  {
    if y % 2 == 0 { XorChanges(x / 2, y / 2, k - 1); }
  }

  /** With a power-of-two rank of at least two every pair is two different indices below the rank. */
  lemma PairsAreProper(e: nat, rand: Word)
    requires 1 <= e <= 31
    ensures 2 <= Pow2(e) < 0x1_0000_0000
    ensures var p := PairOf(Pow2(e), rand);
      p.first == rand % Pow2(e) && p.first < Pow2(e) && p.second < Pow2(e) && p.first != p.second
  {
    hide Pow2, AndBits, XorBits, MulHigh;
    RankBound(e);
    var rank := Pow2(e);
    AndMask(rand, e, 32);
    ShiftFits(rank, rand);
    var first := rand % rank;
    assert first < rank;
    var shift := 1 + MulHigh(rank - 1, rand);
    Pow2Values();
    XorBelow(first, shift, e, 32);
    XorChanges(first, shift, 32);
  }

  lemma RankBound(e: nat)
    requires 1 <= e <= 31
    ensures 2 <= Pow2(e) < 0x1_0000_0000
  {
    Pow2Values();
    assert Pow2(1) == 2;
    hide Pow2;
    Pow2Order(1, e);
    Pow2Order(e, 31);
  }

  /** Rank one breaks the property: the second index is the rank itself. */
  lemma RankOneIsImproper(rand: Word)
    ensures PairOf(1, rand) == Pair(0, 1)
  {
    AndZero(rand, 32);
    assert MulHigh(0, rand) == 0 by { assert 0 * rand == 0; }
    assert XorBits(0, 1, 32) == 1 by { XorZero(0, 31); }
  }

  // ----- which ranks are safe -----

  /** A zero bit below the leading one of m, unless m is all ones. */
  lemma {:induction false} ClearBit(m: nat, l: nat) returns (z: nat)
    requires l > 0 && Pow2(l - 1) <= m < Pow2(l) - 1
    ensures z + 1 < l && m / Pow2(z) % 2 == 0 && Pow2(z) <= m
    decreases l
  {
    if m % 2 == 0 {
      z := 0;
      assert Pow2(1) == 2 && m / 1 == m;
    } else {
      assert l >= 2;
      z := ClearBit(m / 2, l - 1);
      var p := Pow2(z);
      assert Pow2(z + 1) == 2 * p;
      hide Pow2;
      HalfQuotient(m, p);
      z := z + 1;
    }
  }

  lemma HalfQuotient(m: nat, p: nat)
    requires p > 0
    ensures m / (2 * p) == m / 2 / p
  {
    var h := m / 2;
    var q, r := h / p, h % p;
    assert h == p * q + r;
    assert 2 * (p * q) == 2 * p * q;
    DivModUnique(m, 2 * p, q, m % 2 + 2 * r);
  }

  /** Setting a clear bit by exclusive or. */
  lemma {:induction false} XorSets(m: nat, z: nat, k: nat)
    requires z < k && m < Pow2(k) && m / Pow2(z) % 2 == 0
    ensures XorBits(m, Pow2(z), k) == m + Pow2(z)
    decreases k
  {
    var p := Pow2(z);
    if z == 0 {
      assert m / 1 == m;
      XorZero(m / 2, k - 1);
    } else {
      var half := Pow2(z - 1);
      assert p == 2 * half && p / 2 == half && p % 2 == 0;
      assert m / 2 / half % 2 == 0 by { HalfQuotient(m, half); }
      XorSets(m / 2, z - 1, k - 1);
    }
  }

  /** A number whose l low bits are all ones keeps every bit of m. */
  lemma {:induction false} AndOnes(x: nat, m: nat, l: nat, k: nat)
    requires l <= k && m < Pow2(l) && x % Pow2(l) == Pow2(l) - 1
    ensures AndBits(x, m, k) == m
    decreases k
  {
    if l == 0 {
      AndZero(x, k);
    } else {
      HalfRemainder(x, Pow2(l - 1));
      AndOnes(x / 2, m / 2, l - 1, k - 1);
    }
  }

  /** A random word with low bits all ones whose product with m has high word c - 1. */
  lemma RandFor(m: nat, t: nat, c: nat) returns (rand: Word)
    requires 1 <= c <= m && t > 0 && m * t <= 0x1_0000_0000
    ensures rand % t == t - 1 && m * rand / 0x1_0000_0000 == c - 1
  {
    var goal := (c - 1) * 0x1_0000_0000;
    var lo := CeilQuotient(goal, m);
    var r := OnesFrom(lo, t);
    MulOrder(m, lo, r);
    MulOrder(m, r, lo + (t - 1));
    Distribute(m, lo, t - 1);
    Distribute(m, t, 1);
    assert goal <= m * r < goal + 0x1_0000_0000;
    DivModUnique(m * r, 0x1_0000_0000, c - 1, m * r - goal);
    if r >= 0x1_0000_0000 { MulOrder(m, 0x1_0000_0000, r); }
    rand := r;
  }

  lemma CeilQuotient(goal: nat, m: nat) returns (lo: nat)
    requires m > 0
    ensures goal <= m * lo <= goal + m - 1
  {
    lo := (goal + m - 1) / m;
    assert goal + m - 1 == m * lo + (goal + m - 1) % m;
  }

  lemma OnesFrom(lo: nat, t: nat) returns (r: nat)
    requires t > 0
    ensures lo <= r <= lo + t - 1 && r % t == t - 1
  {
    r := t * (lo / t) + (t - 1);
    DivModUnique(r, t, lo / t, t - 1);
  }

  lemma ImproperRand(rank: nat) returns (rand: Word)
    requires 1 <= rank <= 0x1_0000 && forall e: nat :: 1 <= e ==> rank != Pow2(e)
    ensures PairOf(rank, rand).second >= rank
  {
    if rank == 1 {
      RankOneIsImproper(0);
      return 0;
    }
    hide Pow2, AndBits, XorBits, BitLength;
    var m := rank - 1;
    BitRange(m);
    var l := BitLength(m);
    var z := ClearBit(m, l);
    LengthFits(m);
    rand := RandFor(m, Pow2(l), Pow2(z));
    AndOnes(rand, m, l, 32);
    XorSets(m, z, 32);
    assert MulHigh(m, rand) == Pow2(z) - 1;
    hide MulHigh;
  }

  lemma LengthFits(m: nat)
    requires m < 0x1_0000
    ensures BitLength(m) <= 32 && m * Pow2(BitLength(m)) <= 0x1_0000_0000 && m < Pow2(32)
  {
    hide Pow2, BitLength;
    Pow2Values();
    BitLengthAtMost(m, 16);
    Pow2Order(BitLength(m), 16);
    MulOrder(m, Pow2(BitLength(m)), 0x1_0000);
    MulOrder(0x1_0000, m, 0x1_0000);
  }

  /** For ranks up to 2^16: every random word gives indices below the rank iff it is 2, 4, 8, ... */
  lemma RankIsSafeIff(rank: nat)
    requires 1 <= rank <= 0x1_0000
    ensures (forall rand: Word :: PairOf(rank, rand).second < rank)
       <==> exists e: nat :: 1 <= e && rank == Pow2(e)
  {
    hide Pow2, PairOf;
    if e: nat :| 1 <= e && rank == Pow2(e) {
      forall rand: Word ensures PairOf(rank, rand).second < rank { SafeRank(rank, e, rand); }
      assert exists e: nat :: 1 <= e && rank == Pow2(e);
    } else {
      var rand := ImproperRand(rank);
      assert PairOf(rank, rand).second >= rank;
    }
  }

  lemma SafeRank(rank: nat, e: nat, rand: Word)
    requires 1 <= e && rank == Pow2(e) && rank <= 0x1_0000
    ensures PairOf(rank, rand).second < rank
  {
    hide Pow2, PairOf;
    Pow2Values();
    if e > 31 { Pow2Order(31, e); }
    PairsAreProper(e, rand);
  }

  // ----- generating and applying it -----

  /** Little-endian word j of a digest. */
  function DigestWord(h: Digest, j: nat): Word
    requires j < 8
  {
    LeWord(h[4 * j], h[4 * j + 1], h[4 * j + 2], h[4 * j + 3])
  }

  /** Line l of the permutation comes from word l mod 8 of block l / 8. */
  function Line(hash: Stream, rank: nat, l: nat): Pair
    requires 0 < rank < 0x1_0000_0000
  {
    PairOf(rank, DigestWord(hash(l / 8), l % 8))
  }

  /** Two indices from word j of a hash, as the inner loop computes them. */
  method LinePair(h: Digest, j: nat, rank: nat) returns (p: Pair)
    requires j < 8 && 0 < rank < 0x1_0000_0000
    ensures p == PairOf(rank, DigestWord(h, j))
  {
    hide AndBits, Xor;
    var b0: nat, b1: nat, b2: nat, b3: nat := h[4 * j], h[4 * j + 1], h[4 * j + 2], h[4 * j + 3];
    var rand: Word := b0 + 0x100 * b1 + 0x1_0000 * b2 + 0x100_0000 * b3;
    AndBound(rand, rank - 1);
    ShiftFits(rank, rand);
    var first: Word := AndBits(rand, rank - 1, 32);
    var mask: nat := rank - 1;
    p := Pair(first, Xor(first, 1 + mask * rand / 0x1_0000_0000));
  }

  /** For a rank of 2^e the first index is the random word modulo the rank. */
  lemma PairForPower(e: nat, rand: Word)
    requires 1 <= e <= 31
    ensures 2 <= Pow2(e) < 0x1_0000_0000
    ensures PairOf(Pow2(e), rand).first == rand % Pow2(e)
  {
    PairsAreProper(e, rand);
    AndMask(rand, e, 32);
    hide AndBits;
  }

  method GeneratePermutation(hash: Stream, k: nat, rank: nat) returns (perm: seq<Pair>)
    requires 0 < rank < 0x1_0000_0000
    ensures |perm| == k && forall l :: 0 <= l < k ==> perm[l] == Line(hash, rank, l)
  {
    hide PairOf, DigestWord;
    var result := new Pair[k];
    var chunk := 0;
    while chunk * 8 < k
      invariant 0 <= chunk && chunk * 8 <= k + 7
      invariant forall l :: 0 <= l < k && l < 8 * chunk ==> result[l] == Line(hash, rank, l)
      decreases k - chunk * 8
    {
      var h := hash(chunk);
      var len := if k - chunk * 8 < 8 then k - chunk * 8 else 8;
      var j := 0;
      while j < len
        invariant 0 <= j <= len
        invariant forall l :: 0 <= l < 8 * chunk + j ==> result[l] == Line(hash, rank, l)
      {
        DivModUnique(8 * chunk + j, 8, chunk, j);
        result[chunk * 8 + j] := LinePair(h, j, rank);
        j := j + 1;
      }
      chunk := chunk + 1;
    }
    perm := result[..];
  }

  predicate Proper(perm: seq<Pair>, rank: nat) {
    forall l :: 0 <= l < |perm| ==> perm[l].first < rank && perm[l].second < rank && perm[l].first != perm[l].second
  }

  /** Difference of two entries: fits a signed byte, so the narrowing cast keeps it. */
  method ApplyPermutation(perm: seq<Pair>, row: seq<int>) returns (out: seq<int>)
    requires Proper(perm, |row|) && forall c :: 0 <= c < |row| ==> -32 <= row[c] <= 31
    ensures |out| == |perm|
    ensures forall l :: 0 <= l < |perm| ==> out[l] == row[perm[l].first] - row[perm[l].second]
    ensures forall l :: 0 <= l < |perm| ==> -63 <= out[l] <= 63
  {
    out := [];
    var i := 0;
    while i < |perm|
      invariant 0 <= i <= |perm| && |out| == i
      invariant forall l :: 0 <= l < i ==> out[l] == row[perm[l].first] - row[perm[l].second] && -63 <= out[l] <= 63
    {
      out := out + [SignedByte(row[perm[i].first] - row[perm[i].second])];
      i := i + 1;
    }
  }

  /** The int8_t cast. */
  function SignedByte(x: int): int {
    var low := x % 256;
    if low < 128 then low else low - 256
  }
}
