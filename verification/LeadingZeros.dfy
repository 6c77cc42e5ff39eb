/**
 Leading zero bits of a byte string, defined through the number the string denotes in big-endian
 order. The byte loop and the word loop of the challenge code are both proved to compute it.
 */
module LeadingZeros {
  import opened Words

  function BigEndian(h: seq<Byte>): nat {
    if h == [] then 0 else 256 * BigEndian(h[..|h| - 1]) + h[|h| - 1]
  }

  function BitLength(x: nat): nat {
    if x == 0 then 0 else 1 + BitLength(x / 2)
  }

  function Leading(h: seq<Byte>): int {
    8 * |h| - BitLength(BigEndian(h))
  }

  // ----- powers of two and bit lengths -----

  lemma {:induction false} BitLengthAtMost(x: nat, k: nat)
    ensures BitLength(x) <= k <==> x < Pow2(k)
    decreases k
  {
    if k > 0 { BitLengthAtMost(x / 2, k - 1); }
  }

  /** Appending k bits. */
  lemma {:induction false} BitLengthShift(x: nat, y: nat, k: nat)
    requires x > 0 && y < Pow2(k)
    ensures BitLength(x * Pow2(k) + y) == BitLength(x) + k
    decreases k
  {
    if k > 0 {
      var half := Pow2(k - 1);
      BitLengthShift(x, y / 2, k - 1);
      HalfOf(x, half, y);
    } else {
      assert x * Pow2(0) + y == x;
    }
  }

  lemma HalfOf(x: nat, half: nat, y: nat)
    requires x > 0 && half > 0
    ensures (x * (2 * half) + y) / 2 == x * half + y / 2 && x * (2 * half) + y > 0
  {
    assert x * (2 * half) == 2 * (x * half);
    assert x * half > 0;
  }

  lemma {:induction false} Pow2Bytes(n: nat)
    ensures Pow2(8 * (n + 1)) == 256 * Pow2(8 * n)
  {
    var k := 8 * n;
    assert Pow2(k + 8) == 2 * Pow2(k + 7);
    assert Pow2(k + 7) == 2 * Pow2(k + 6);
    assert Pow2(k + 6) == 2 * Pow2(k + 5);
    assert Pow2(k + 5) == 2 * Pow2(k + 4);
    assert Pow2(k + 4) == 2 * Pow2(k + 3);
    assert Pow2(k + 3) == 2 * Pow2(k + 2);
    assert Pow2(k + 2) == 2 * Pow2(k + 1);
    assert Pow2(k + 1) == 2 * Pow2(k);
  }

  // ----- byte strings -----

  lemma {:induction false} BigEndianBound(h: seq<Byte>)
    ensures BigEndian(h) < Pow2(8 * |h|)
  {
    hide Pow2;
    if h == [] {
      assert BigEndian(h) == 0;
    } else {
      BigEndianBound(h[..|h| - 1]);
      Pow2Bytes(|h| - 1);
    }
  }

  lemma {:induction false} BigEndianConcat(a: seq<Byte>, b: seq<Byte>)
    ensures BigEndian(a + b) == BigEndian(a) * Pow2(8 * |b|) + BigEndian(b)
    decreases |b|
  {
    if b == [] {
      assert a + b == a && Pow2(0) == 1;
    } else {
      hide Pow2;
      var n := |b| - 1;
      assert (a + b)[..|a + b| - 1] == a + b[..n];
      var va, p, vb := BigEndian(a), Pow2(8 * n), BigEndian(b[..n]);
      assert BigEndian(a + b) == 256 * BigEndian(a + b[..n]) + b[n] && BigEndian(b) == 256 * vb + b[n];
      hide BigEndian;
      BigEndianConcat(a, b[..n]);
      Pow2Bytes(n);
      Regroup(va, p, vb);
    }
  }

  lemma Regroup(x: nat, p: nat, y: nat)
    ensures 256 * (x * p + y) == x * (256 * p) + 256 * y
  {
  }

  /** The first nonzero part decides; zero parts count fully. */
  lemma LeadingConcat(a: seq<Byte>, b: seq<Byte>)
    ensures BigEndian(a) > 0 ==> Leading(a + b) == Leading(a)
    ensures BigEndian(a) == 0 ==> Leading(a + b) == 8 * |a| + Leading(b)
    ensures BigEndian(a) == 0 && BigEndian(b) == 0 ==> BigEndian(a + b) == 0
  {
    BigEndianConcat(a, b);
    BigEndianBound(b);
    hide Pow2, BitLength, BigEndian;
    if BigEndian(a) > 0 {
      BitLengthShift(BigEndian(a), BigEndian(b), 8 * |b|);
    } else {
      assert BigEndian(a) * Pow2(8 * |b|) == 0;
    }
  }

  /** At least d leading zero bits means below 2^(bits - d). */
  lemma LeadingAtLeast(h: seq<Byte>, d: nat)
    requires d <= 8 * |h|
    ensures Leading(h) >= d <==> BigEndian(h) < Pow2(8 * |h| - d)
  {
    hide Pow2, BitLength, BigEndian;
    BitLengthAtMost(BigEndian(h), 8 * |h| - d);
  }

  // ----- the two counting loops -----

  /** The portable loop of clz32. */
  method CountLeadingZeros32(word: Word) returns (n: nat)
    ensures n == 32 - BitLength(word)
  {
    var x: int := word;
    n := 0;
    Pow2Values();
    BitLengthAtMost(word, 32);
    BitLengthAtMost(word, 31);
    while x < 0x8000_0000 && n < 32
      invariant 0 <= x < 0x1_0000_0000 && n <= 32
      invariant word == 0 ==> x == 0
      invariant word > 0 ==> x > 0 && BitLength(x) == BitLength(word) + n
    {
      assert 2 * x / 2 == x;
      x := 2 * x;
      n := n + 1;
      assert word > 0 ==> BitLength(x) <= 32 by { if word > 0 { BitLengthAtMost(x, 32); } }
    }
    if word > 0 {
      BitLengthAtMost(x, 32);
      BitLengthAtMost(x, 31);
    }
  }

  /** The bytewise loop. */
  method CountLeadingZeros(h: seq<Byte>) returns (lz: nat)
    ensures lz == Leading(h)
  {
    lz := 0;
    var i := 0;
    assert h[..0] == [] && BigEndian([]) == 0;
    while i < |h|
      invariant 0 <= i <= |h| && lz == 8 * i && BigEndian(h[..i]) == 0
    {
      SplitAt(h, i);
      if h[i] == 0 {
        lz := lz + 8;
      } else {
        var n := CountLeadingZeros8(h[i]);
        return lz + n;
      }
      i := i + 1;
    }
    assert h[..i] == h;
  }

  lemma SplitAt(h: seq<Byte>, i: nat)
    requires i < |h| && BigEndian(h[..i]) == 0
    ensures h[i] == 0 ==> BigEndian(h[..i + 1]) == 0
    ensures h[i] > 0 ==> Leading(h) == 8 * i + 8 - BitLength(h[i])
  {
    var a, b, c := h[..i], [h[i]], h[i + 1..];
    assert BigEndian(b) == h[i] by { assert b[..0] == []; }
    assert h[..i + 1] == a + b && h == a + (b + c);
    hide BigEndian, BitLength;
    LeadingMiddle(a, b, c);
  }

  lemma LeadingMiddle(a: seq<Byte>, b: seq<Byte>, c: seq<Byte>)
    requires BigEndian(a) == 0
    ensures BigEndian(b) == 0 ==> BigEndian(a + b) == 0
    ensures BigEndian(b) > 0 ==> Leading(a + (b + c)) == 8 * |a| + 8 * |b| - BitLength(BigEndian(b))
  {
    hide BigEndian, BitLength;
    LeadingConcat(a, b);
    LeadingConcat(b, c);
    LeadingConcat(a, b + c);
  }

  method CountLeadingZeros8(byte: Byte) returns (n: nat)
    requires byte != 0
    ensures n == 8 - BitLength(byte)
  {
    var b: int := byte;
    n := 0;
    Pow2Values();
    BitLengthAtMost(byte, 8);
    while b < 0x80
      invariant 0 < b < 0x100 && BitLength(b) == BitLength(byte) + n && n <= 8
      decreases 0x80 - b
    {
      assert 2 * b / 2 == b;
      b := 2 * b;
      n := n + 1;
      BitLengthAtMost(b, 8);
    }
    BitLengthAtMost(b, 8);
    BitLengthAtMost(b, 7);
  }

  // ----- words written in little-endian order -----

  function WordBytes(w: Word): seq<Byte> {
    [ByteOfWord(w, 0), ByteOfWord(w, 1), ByteOfWord(w, 2), ByteOfWord(w, 3)]
  }

  function BytesOf(ws: seq<Word>): (h: seq<Byte>)
    ensures |h| == 4 * |ws|
  {
    if ws == [] then [] else BytesOf(ws[..|ws| - 1]) + WordBytes(ws[|ws| - 1])
  }

  /** bswap32 */
  function Reversed(w: Word): Word {
    w % 0x100 * 0x100_0000 + w / 0x100 % 0x100 * 0x1_0000 + w / 0x1_0000 % 0x100 * 0x100 + w / 0x100_0000
  }

  lemma ReversedIsBigEndian(w: Word)
    ensures BigEndian(WordBytes(w)) == Reversed(w) && (Reversed(w) == 0 <==> w == 0)
  {
    var a, b, c, d := ByteOfWord(w, 0), ByteOfWord(w, 1), ByteOfWord(w, 2), ByteOfWord(w, 3);
    FourBytes(a, b, c, d);
  }

  lemma FourBytes(a: Byte, b: Byte, c: Byte, d: Byte)
    ensures BigEndian([a, b, c, d]) == 0x100_0000 * a + 0x1_0000 * b + 0x100 * c + d
  {
    assert [a, b, c, d][..3] == [a, b, c];
    assert [a, b, c][..2] == [a, b];
    assert [a, b][..1] == [a];
    assert [a][..0] == [];
    assert BigEndian([a]) == a;
    assert BigEndian([a, b]) == 256 * a + b;
    assert BigEndian([a, b, c]) == 256 * (256 * a + b) + c;
  }

  lemma {:induction false} BytesOfConcat(a: seq<Word>, b: seq<Word>)
    ensures BytesOf(a + b) == BytesOf(a) + BytesOf(b)
    decreases |b|
  {
    hide WordBytes;
    if b == [] {
      assert a + b == a;
    } else {
      assert (a + b)[..|a + b| - 1] == a + b[..|b| - 1];
      BytesOfConcat(a, b[..|b| - 1]);
    }
  }

  lemma BytesOfOne(w: Word)
    ensures BytesOf([w]) == WordBytes(w)
  {
    hide WordBytes;
    assert [w][..0] == [];
  }

  /** The word loop: the first nonzero word decides. */
  lemma WordSplit(ws: seq<Word>, i: nat)
    requires i < |ws| && BigEndian(BytesOf(ws[..i])) == 0
    ensures ws[i] == 0 ==> BigEndian(BytesOf(ws[..i + 1])) == 0
    ensures ws[i] > 0 ==> Leading(BytesOf(ws)) == 32 * i + 32 - BitLength(Reversed(ws[i]))
  {
    hide BigEndian, BitLength, BytesOf, WordBytes, Reversed, Leading;
    ReversedIsBigEndian(ws[i]);
    BytesOfSplit(ws, i);
    LeadingMiddle(BytesOf(ws[..i]), WordBytes(ws[i]), BytesOf(ws[i + 1..]));
    assert |WordBytes(ws[i])| == 4 by { BytesOfOne(ws[i]); }
  }

  lemma BytesOfSplit(ws: seq<Word>, i: nat)
    requires i < |ws|
    ensures BytesOf(ws[..i + 1]) == BytesOf(ws[..i]) + WordBytes(ws[i])
    ensures BytesOf(ws) == BytesOf(ws[..i]) + (WordBytes(ws[i]) + BytesOf(ws[i + 1..]))
  {
    hide BytesOf, WordBytes;
    Rejoin(ws, i);
    BytesOfThree(ws[..i], ws[i], ws[i + 1..]);
  }

  lemma Rejoin(ws: seq<Word>, i: nat)
    requires i < |ws|
    ensures ws[..i + 1] == ws[..i] + [ws[i]] && ws == ws[..i] + ([ws[i]] + ws[i + 1..])
  {
  }

  lemma BytesOfThree(a: seq<Word>, w: Word, c: seq<Word>)
    ensures BytesOf(a + [w]) == BytesOf(a) + WordBytes(w)
    ensures BytesOf(a + ([w] + c)) == BytesOf(a) + (WordBytes(w) + BytesOf(c))
  {
    BytesOfOne(w);
    BytesOfConcat(a, [w]);
    BytesOfConcat([w], c);
    BytesOfConcat(a, [w] + c);
    hide BytesOf, WordBytes;
  }
}
