/**
 The challenge solver: one unrolled BLAKE3 compression per nonce, proved to accept a nonce exactly
 when the general BLAKE3 hash of seed and nonce starts with enough zero bits.
 */
module Challenge {
  import opened Arithmetic
  import opened Words
  import opened Blake3Tree
  import opened Blake3Compress
  import opened LeadingZeros

  type Nonce = U64

  type Seed = Bytes32

  function NonceByte(nonce: Nonce, i: nat): Byte
    requires i < 8
  {
    [nonce % 0x100, nonce / 0x100 % 0x100, nonce / 0x1_0000 % 0x100, nonce / 0x100_0000 % 0x100,
     nonce / 0x1_0000_0000 % 0x100, nonce / 0x100_0000_0000 % 0x100, nonce / 0x1_0000_0000_0000 % 0x100,
     nonce / 0x100_0000_0000_0000][i]
  }

  /** The 40 bytes that are hashed: the seed and the nonce in little-endian order. */
  function Preimage(seed: Seed, nonce: Nonce): (p: seq<Byte>)
    ensures |p| == 40
  {
    seed + seq(8, i requires 0 <= i < 8 => NonceByte(nonce, i))
  }

  /** What the challenge asks for, in terms of the general hash. */
  function ChallengeHash(seed: Seed, nonce: Nonce): (h: seq<Byte>)
    ensures |h| == 32
  {
    Hash(BLAKE3, Preimage(seed, nonce), 32)
  }

  predicate Solves(seed: Seed, nonce: Nonce, difficulty: int) {
    Leading(ChallengeHash(seed, nonce)) >= difficulty
  }

  // ----- one round, sixteen local variables -----

  method MixWords(a: Word, b: Word, c: Word, d: Word, x: Word, y: Word)
    returns (ra: Word, rb: Word, rc: Word, rd: Word)
    ensures Quad(ra, rb, rc, rd) == Mix(a, b, c, d, x, y)
  {
    hide Add, Xor, Rotr;
    ra, rb, rc, rd := a, b, c, d;
    AddAssociates(ra, rb, x);
    ra := Add(ra, Add(rb, x));
    rd := Rotr(Xor(rd, ra), 16);
    rc := Add(rc, rd);
    rb := Rotr(Xor(rb, rc), 12);
    AddAssociates(ra, rb, y);
    ra := Add(ra, Add(rb, y));
    rd := Rotr(Xor(rd, ra), 8);
    rc := Add(rc, rd);
    rb := Rotr(Xor(rb, rc), 7);
  }

  lemma AddAssociates(a: Word, b: Word, c: Word)
    ensures Add(a, Add(b, c)) == Add(Add(a, b), c)
  {
  }

  method UnrolledRound(v: Block, x: Block) returns (w: Block)
    ensures w == Round(v, x)
  {
    hide MixColumns, MixDiagonals;
    w := UnrolledColumns(v, x);
    w := UnrolledDiagonals(w, x);
  }

  method UnrolledColumns(v: Block, x: Block) returns (w: Block)
    ensures w == MixColumns(v, x)
  {
    hide Mix;
    var v0, v1, v2, v3, v4, v5, v6, v7 := v[0], v[1], v[2], v[3], v[4], v[5], v[6], v[7];
    var v8, v9, v10, v11, v12, v13, v14, v15 := v[8], v[9], v[10], v[11], v[12], v[13], v[14], v[15];
    v0, v4, v8, v12 := MixWords(v0, v4, v8, v12, x[0], x[1]);
    v1, v5, v9, v13 := MixWords(v1, v5, v9, v13, x[2], x[3]);
    v2, v6, v10, v14 := MixWords(v2, v6, v10, v14, x[4], x[5]);
    v3, v7, v11, v15 := MixWords(v3, v7, v11, v15, x[6], x[7]);
    w := [v0, v1, v2, v3, v4, v5, v6, v7, v8, v9, v10, v11, v12, v13, v14, v15];
  }

  method UnrolledDiagonals(v: Block, x: Block) returns (w: Block)
    ensures w == MixDiagonals(v, x)
  {
    hide Mix;
    var v0, v1, v2, v3, v4, v5, v6, v7 := v[0], v[1], v[2], v[3], v[4], v[5], v[6], v[7];
    var v8, v9, v10, v11, v12, v13, v14, v15 := v[8], v[9], v[10], v[11], v[12], v[13], v[14], v[15];
    v0, v5, v10, v15 := MixWords(v0, v5, v10, v15, x[8], x[9]);
    v1, v6, v11, v12 := MixWords(v1, v6, v11, v12, x[10], x[11]);
    v2, v7, v8, v13 := MixWords(v2, v7, v8, v13, x[12], x[13]);
    v3, v4, v9, v14 := MixWords(v3, v4, v9, v14, x[14], x[15]);
    w := [v0, v1, v2, v3, v4, v5, v6, v7, v8, v9, v10, v11, v12, v13, v14, v15];
  }

  // ----- the seven rounds -----

  lemma Rescheduled(m: Block, p: Block)
    requires p == [m[2], m[6], m[3], m[10], m[7], m[0], m[4], m[13], m[1], m[11], m[12], m[5], m[9], m[14], m[15], m[8]]
    ensures Permute(m) == p
  {
    forall i | 0 <= i < 16 ensures Permute(m)[i] == p[i] { }
  }

  function LowWord(nonce: Nonce): Word { nonce % 0x1_0000_0000 }

  function HighWord(nonce: Nonce): Word { nonce / 0x1_0000_0000 }

  function Message(s: Cv, nonce: Nonce): Block {
    s + [LowWord(nonce), HighWord(nonce), 0, 0, 0, 0, 0, 0]
  }

  /** The message words in the order round k uses them. */
  function RoundWords(s: Cv, n0: Word, n1: Word, k: nat): Block
    requires k < 7
  {
    if k == 0 then [s[0], s[1], s[2], s[3], s[4], s[5], s[6], s[7], n0, n1, 0, 0, 0, 0, 0, 0]
    else if k == 1 then [s[2], s[6], s[3], 0, s[7], s[0], s[4], 0, s[1], 0, 0, s[5], n1, 0, 0, n0]
    else if k == 2 then [s[3], s[4], 0, 0, 0, s[2], s[7], 0, s[6], s[5], n1, s[0], 0, 0, n0, s[1]]
    else if k == 3 then [0, s[7], 0, n1, 0, s[3], 0, 0, s[4], s[0], 0, s[2], s[5], n0, s[1], s[6]]
    else if k == 4 then [0, 0, n1, 0, 0, 0, 0, n0, s[7], s[2], s[5], s[3], s[0], s[1], s[6], s[4]]
    else if k == 5 then [n1, 0, 0, s[5], n0, 0, 0, s[1], 0, s[3], s[0], 0, s[2], s[6], s[4], s[7]]
    else [0, 0, s[5], s[0], s[1], n1, n0, s[6], 0, 0, s[2], 0, s[3], s[4], s[7], 0]
  }

  /** Each list is the message permutation of the one before. */
  lemma NextWords(s: Cv, n0: Word, n1: Word, k: nat)
    requires k < 6
    ensures Permute(RoundWords(s, n0, n1, k)) == RoundWords(s, n0, n1, k + 1)
  {
    hide Permute;
    if k == 0 { Rescheduled(RoundWords(s, n0, n1, 0), RoundWords(s, n0, n1, 1)); }
    else if k == 1 { Rescheduled(RoundWords(s, n0, n1, 1), RoundWords(s, n0, n1, 2)); }
    else if k == 2 { Rescheduled(RoundWords(s, n0, n1, 2), RoundWords(s, n0, n1, 3)); }
    else if k == 3 { Rescheduled(RoundWords(s, n0, n1, 3), RoundWords(s, n0, n1, 4)); }
    else if k == 4 { Rescheduled(RoundWords(s, n0, n1, 4), RoundWords(s, n0, n1, 5)); }
    else { Rescheduled(RoundWords(s, n0, n1, 5), RoundWords(s, n0, n1, 6)); }
  }

  /** The state after the unrolled rounds, the message words spelled out in every round. */
  method UnrolledRounds(s: Cv, nonce: Nonce) returns (v: Block)
    ensures v == Rounds(InitialState(IV, 0, 40, 11), Message(s, nonce), 7)
  {
    hide Round, Permute, Rounds;
    var n0, n1 := LowWord(nonce), HighWord(nonce);
    var v0: Block :=
         [0x6A09E667, 0xBB67AE85, 0x3C6EF372, 0xA54FF53A, 0x510E527F, 0x9B05688C, 0x1F83D9AB, 0x5BE0CD19,
          0x6A09E667, 0xBB67AE85, 0x3C6EF372, 0xA54FF53A, 0, 0, 40, 11];
    assert v0 == InitialState(IV, 0, 40, 11);
    hide InitialState;
    assert RoundWords(s, n0, n1, 0) == Message(s, nonce);
    hide Message, RoundWords;
    var v1 := UnrolledRound(v0, RoundWords(s, n0, n1, 0));
    var v2 := UnrolledRound(v1, RoundWords(s, n0, n1, 1));
    var v3 := UnrolledRound(v2, RoundWords(s, n0, n1, 2));
    var v4 := UnrolledRound(v3, RoundWords(s, n0, n1, 3));
    var v5 := UnrolledRound(v4, RoundWords(s, n0, n1, 4));
    var v6 := UnrolledRound(v5, RoundWords(s, n0, n1, 5));
    var v7 := UnrolledRound(v6, RoundWords(s, n0, n1, 6));
    NextWords(s, n0, n1, 0);
    RoundsStep(v0, v1, RoundWords(s, n0, n1, 0), RoundWords(s, n0, n1, 1), 6);
    NextWords(s, n0, n1, 1);
    RoundsStep(v1, v2, RoundWords(s, n0, n1, 1), RoundWords(s, n0, n1, 2), 5);
    NextWords(s, n0, n1, 2);
    RoundsStep(v2, v3, RoundWords(s, n0, n1, 2), RoundWords(s, n0, n1, 3), 4);
    NextWords(s, n0, n1, 3);
    RoundsStep(v3, v4, RoundWords(s, n0, n1, 3), RoundWords(s, n0, n1, 4), 3);
    NextWords(s, n0, n1, 4);
    RoundsStep(v4, v5, RoundWords(s, n0, n1, 4), RoundWords(s, n0, n1, 5), 2);
    NextWords(s, n0, n1, 5);
    RoundsStep(v5, v6, RoundWords(s, n0, n1, 5), RoundWords(s, n0, n1, 6), 1);
    LastRound(v6, v7, RoundWords(s, n0, n1, 6));
    v := v7;
  }

  lemma RoundsStep(v: Block, w: Block, m: Block, p: Block, k: nat)
    requires w == Round(v, m) && p == Permute(m)
    ensures Rounds(v, m, k + 1) == Rounds(w, p, k)
  {
    hide Round, Permute;
  }

  lemma LastRound(v: Block, w: Block, m: Block)
    requires w == Round(v, m)
    ensures Rounds(v, m, 1) == w
  {
    hide Round, Permute;
    RoundsStep(v, w, m, Permute(m), 0);
  }

  // ----- the 40-byte hash is one compression -----

  function SeedWords(seed: Seed): Cv {
    WordsOf(seed)
  }

  lemma NonceWords(nonce: Nonce)
    ensures LeWord(NonceByte(nonce, 0), NonceByte(nonce, 1), NonceByte(nonce, 2), NonceByte(nonce, 3)) == LowWord(nonce)
    ensures LeWord(NonceByte(nonce, 4), NonceByte(nonce, 5), NonceByte(nonce, 6), NonceByte(nonce, 7))
         == HighWord(nonce)
  {
    var lo, hi := LowWord(nonce), HighWord(nonce);
    LowBytes(nonce, lo, hi);
    HighBytes(nonce, hi);
    FourDigits(lo);
    FourDigits(hi);
  }

  lemma FourDigits(w: Word)
    ensures LeWord(w % 0x100, w / 0x100 % 0x100, w / 0x1_0000 % 0x100, w / 0x100_0000) == w
  {
    SecondQuotient(w);
    ThirdQuotient(w);
  }

  lemma SecondQuotient(w: Word)
    ensures w / 0x1_0000 == w / 0x100 / 0x100
  {
  }

  lemma ThirdQuotient(w: Word)
    ensures w / 0x100_0000 == w / 0x1_0000 / 0x100
  {
  }

  lemma LowBytes(nonce: Nonce, lo: Word, hi: Word)
    requires nonce == 0x1_0000_0000 * hi + lo
    ensures nonce % 0x100 == lo % 0x100 && nonce / 0x100 % 0x100 == lo / 0x100 % 0x100
    ensures nonce / 0x1_0000 % 0x100 == lo / 0x1_0000 % 0x100 && nonce / 0x100_0000 % 0x100 == lo / 0x100_0000
  {
    DropMultiple(0x100_0000 * hi, lo);
    QuotientOf(nonce, 0x100, 0x100_0000 * hi, lo);
    DropMultiple(0x1_0000 * hi, lo / 0x100);
    QuotientOf(nonce, 0x1_0000, 0x1_0000 * hi, lo);
    DropMultiple(0x100 * hi, lo / 0x1_0000);
    QuotientOf(nonce, 0x100_0000, 0x100 * hi, lo);
    DropMultiple(hi, lo / 0x100_0000);
  }

  lemma DropMultiple(k: nat, r: nat)
    ensures (0x100 * k + r) % 0x100 == r % 0x100
  {
  }

  lemma HighBytes(nonce: Nonce, hi: Word)
    requires hi == nonce / 0x1_0000_0000
    ensures nonce / 0x1_0000_0000 % 0x100 == hi % 0x100 && nonce / 0x100_0000_0000 % 0x100 == hi / 0x100 % 0x100
    ensures nonce / 0x1_0000_0000_0000 % 0x100 == hi / 0x1_0000 % 0x100
    ensures nonce / 0x100_0000_0000_0000 == hi / 0x100_0000
  {
    assert nonce / 0x100_0000_0000 == hi / 0x100;
    assert nonce / 0x1_0000_0000_0000 == hi / 0x1_0000;
    assert nonce / 0x100_0000_0000_0000 == hi / 0x100_0000;
  }

  lemma PreimageWord(seed: Seed, nonce: Nonce, p: seq<Byte>, i: nat)
    requires i < 16 && p == Preimage(seed, nonce) + Zeros(24)
    ensures WordsOf(p)[i] == Message(SeedWords(seed), nonce)[i]
  {
    NonceWords(nonce);
    hide LowWord, HighWord, NonceByte, LeWord;
    if i < 8 {
      assert WordsOf(p)[i] == SeedWords(seed)[i];
    } else if i >= 10 {
      hide Preimage;
      assert p[4 * i] == 0 && p[4 * i + 1] == 0 && p[4 * i + 2] == 0 && p[4 * i + 3] == 0;
      ZeroWord();
    }
  }

  lemma ZeroWord()
    ensures LeWord(0, 0, 0, 0) == 0
  {
  }

  lemma PreimageWords(seed: Seed, nonce: Nonce)
    ensures WordsOf(Preimage(seed, nonce) + Zeros(24)) == Message(SeedWords(seed), nonce)
  {
    var p := Preimage(seed, nonce) + Zeros(24);
    hide Preimage, SeedWords, Message;
    forall i: nat | i < 16 ensures WordsOf(p)[i] == Message(SeedWords(seed), nonce)[i] {
      PreimageWord(seed, nonce, p, i);
    }
    hide WordsOf;
  }

  /** The single compression behind the challenge hash. */
  function HashWords(s: Cv, nonce: Nonce): Block {
    CompressWords(IV, Message(s, nonce), 0, 40, 11)
  }

  lemma SingleBlock(input: seq<Byte>)
    requires |input| == 40
    ensures TreeOutput(BLAKE3, input, 0)
         == Output(IV, WordsOf(input + Zeros(24)), 0, 40, {ChunkStart, ChunkEnd})
  {
    hide WordsOf, IV, Compress;
    assert LastBlock(40) == 0 && input[0..] == input;
    assert {} + StartFlag(0) + {ChunkEnd} == {ChunkStart, ChunkEnd};
  }

  lemma RootFlags()
    ensures FlagWord({ChunkStart, ChunkEnd} + {Root}) == 11
  {
  }

  lemma HashByte(seed: Seed, nonce: Nonce, i: nat)
    requires i < 32
    ensures ChallengeHash(seed, nonce)[i] == ByteOfWord(HashWords(SeedWords(seed), nonce)[i / 4], i % 4)
  {
    hide CompressWords, ByteOfWord, FlagWord, WordsOf, TreeOutput, Preimage, Message, IV;
    SingleBlock(Preimage(seed, nonce));
    PreimageWords(seed, nonce);
    RootFlags();
    assert i / 64 == 0 && i % 64 == i;
  }

  lemma {:induction false} BytesOfAt(ws: seq<Word>, i: nat)
    requires i < 4 * |ws|
    ensures BytesOf(ws)[i] == ByteOfWord(ws[i / 4], i % 4)
  {
    hide ByteOfWord;
    var n := |ws| - 1;
    if i < 4 * n {
      BytesOfAt(ws[..n], i);
    } else {
      assert i / 4 == n && i == 4 * n + i % 4;
    }
  }

  lemma HashIsWords(seed: Seed, nonce: Nonce)
    ensures ChallengeHash(seed, nonce) == BytesOf(HashWords(SeedWords(seed), nonce)[..8])
  {
    hide ChallengeHash, HashWords, BytesOf, ByteOfWord, SeedWords;
    var ws := HashWords(SeedWords(seed), nonce)[..8];
    forall i: nat | i < 32 ensures ChallengeHash(seed, nonce)[i] == BytesOf(ws)[i] {
      HashByte(seed, nonce, i);
      BytesOfAt(ws, i);
    }
  }

  // ----- trying one nonce -----

  /** Accepts exactly the nonces whose hash starts with enough zero bits. */
  method TryNonce(seed: Seed, nonce: Nonce, difficulty: int) returns (ok: bool)
    ensures ok == Solves(seed, nonce, difficulty)
  {
    hide HashWords, ChallengeHash, SeedWords, BytesOf, Leading, Xor, Rounds, InitialState, Message, IV;
    var v := UnrolledRounds(SeedWords(seed), nonce);
    HashIsWords(seed, nonce);
    FirstWords(SeedWords(seed), nonce, v);
    ok := EnoughZeros(v, difficulty, HashWords(SeedWords(seed), nonce)[..8]);
  }

  method EnoughZeros(v: Block, difficulty: int, ghost ws: seq<Word>) returns (ok: bool)
    requires |ws| == 8 && forall i :: 0 <= i < 8 ==> ws[i] == Xor(v[i], v[i + 8])
    ensures ok == (Leading(BytesOf(ws)) >= difficulty)
  {
    hide BytesOf, BigEndian, BitLength, Leading, Reversed, Xor;
    NoWords(ws);
    WordSplit(ws, 0);
    ReversedIsBigEndian(ws[0]);
    var h0 := Reversed(Xor(v[0], v[8]));
    if h0 != 0 {
      var n := CountLeadingZeros32(h0);
      return n >= difficulty;
    }
    var lz := CountRest(v, ws);
    return lz >= difficulty;
  }

  /** The words after a zero first one: add 32 for each zero word, stop at the first other. */
  method CountRest(v: Block, ghost ws: seq<Word>) returns (lz: nat)
    requires |ws| == 8 && forall i :: 0 <= i < 8 ==> ws[i] == Xor(v[i], v[i + 8])
    requires BigEndian(BytesOf(ws[..1])) == 0
    ensures lz == Leading(BytesOf(ws))
  {
    hide BytesOf, BigEndian, BitLength, Leading, Reversed, Xor;
    lz := 32;
    var i := 1;
    while i < 8
      invariant 1 <= i <= 8 && lz == 32 * i && BigEndian(BytesOf(ws[..i])) == 0
    {
      var rev := Reversed(Xor(v[i], v[i + 8]));
      WordSplit(ws, i);
      ReversedIsBigEndian(ws[i]);
      if rev == 0 {
        lz := lz + 32;
      } else {
        var n := CountLeadingZeros32(rev);
        return lz + n;
      }
      i := i + 1;
    }
    AllZero(ws);
  }

  lemma FirstWords(s: Cv, nonce: Nonce, v: Block)
    requires v == Rounds(InitialState(IV, 0, 40, 11), Message(s, nonce), 7)
    ensures forall i :: 0 <= i < 8 ==> HashWords(s, nonce)[i] == Xor(v[i], v[i + 8])
  {
    hide Rounds, Xor, InitialState, Message;
  }

  lemma NoWords(ws: seq<Word>)
    ensures BigEndian(BytesOf(ws[..0])) == 0
  {
    assert ws[..0] == [];
  }

  lemma AllZero(ws: seq<Word>)
    requires |ws| == 8 && BigEndian(BytesOf(ws[..8])) == 0
    ensures Leading(BytesOf(ws)) == 256
  {
    assert ws[..8] == ws;
  }

  // ----- checking a nonce -----

  /** The independent check: hash the 40 bytes and count bytewise. */
  method Verify(seed: Seed, nonce: Nonce, difficulty: int) returns (ok: bool)
    ensures ok == Solves(seed, nonce, difficulty)
  {
    hide Hash, Leading, NonceByte;
    var input: seq<Byte> := seed;
    var i := 0;
    while i < 8
      invariant 0 <= i <= 8 && |input| == 32 + i
      invariant input[..32] == seed && forall k :: 32 <= k < 32 + i ==> input[k] == NonceByte(nonce, k - 32)
    {
      input := input + [NonceByte(nonce, i)];
      i := i + 1;
    }
    assert input == Preimage(seed, nonce);
    hide Preimage;
    var hash := Hash(BLAKE3, input, 32);
    var n := CountLeadingZeros(hash);
    ok := n >= difficulty;
  }

  /** For the difficulties the solver takes, solving means a hash below 2^(256 - difficulty). */
  lemma SolvesIsBelow(seed: Seed, nonce: Nonce, difficulty: nat)
    requires difficulty <= 256
    ensures Solves(seed, nonce, difficulty) <==> BigEndian(ChallengeHash(seed, nonce)) < Pow2(256 - difficulty)
  {
    hide ChallengeHash;
    LeadingAtLeast(ChallengeHash(seed, nonce), difficulty);
  }
}
