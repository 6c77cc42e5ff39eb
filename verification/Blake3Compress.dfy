/**
 The BLAKE3 compression function (section 2.2 of the BLAKE3 specification): the mixing function,
 seven rounds with a message permutation between them, and the final feed-forward.
 */
module Blake3Compress {
  import opened Words
  import opened Blake3Tree

  /** IV words (the first eight words of SHA-256). */
  const IV: Cv := [0x6A09E667, 0xBB67AE85, 0x3C6EF372, 0xA54FF53A, 0x510E527F, 0x9B05688C, 0x1F83D9AB, 0x5BE0CD19]

  function Schedule(i: nat): (k: nat)
    requires i < 16
    ensures k < 16
  {
    [2, 6, 3, 10, 7, 0, 4, 13, 1, 11, 12, 5, 9, 14, 15, 8][i]
  }

  /** The message permutation reuses every word exactly once. */
  lemma ScheduleIsPermutation(k: nat) returns (i: nat)
    requires k < 16
    ensures i < 16 && Schedule(i) == k && forall j: nat :: j < 16 && Schedule(j) == k ==> j == i
  {
    i := [5, 8, 0, 2, 6, 11, 1, 4, 15, 12, 3, 9, 10, 7, 13, 14][k];
  }

  datatype Quad = Quad(a: Word, b: Word, c: Word, d: Word)

  /** G: mix one column or diagonal with two message words. */
  function Mix(a: Word, b: Word, c: Word, d: Word, x: Word, y: Word): Quad {
    var a1 := Add(Add(a, b), x);
    var d1 := Rotr(Xor(d, a1), 16);
    var c1 := Add(c, d1);
    var b1 := Rotr(Xor(b, c1), 12);
    var a2 := Add(Add(a1, b1), y);
    var d2 := Rotr(Xor(d1, a2), 8);
    var c2 := Add(c1, d2);
    var b2 := Rotr(Xor(b1, c2), 7);
    Quad(a2, b2, c2, d2)
  }

  /** G on four entries of the state. */
  function MixAt(s: Block, a: nat, b: nat, c: nat, d: nat, x: Word, y: Word): Block
    requires a < 16 && b < 16 && c < 16 && d < 16
  {
    var q := Mix(s[a], s[b], s[c], s[d], x, y);
    s[a := q.a][b := q.b][c := q.c][d := q.d]
  }

  function MixColumns(s: Block, m: Block): Block {
    var s1 := MixAt(s, 0, 4, 8, 12, m[0], m[1]);
    var s2 := MixAt(s1, 1, 5, 9, 13, m[2], m[3]);
    var s3 := MixAt(s2, 2, 6, 10, 14, m[4], m[5]);
    MixAt(s3, 3, 7, 11, 15, m[6], m[7])
  }

  function MixDiagonals(s: Block, m: Block): Block {
    var s1 := MixAt(s, 0, 5, 10, 15, m[8], m[9]);
    var s2 := MixAt(s1, 1, 6, 11, 12, m[10], m[11]);
    var s3 := MixAt(s2, 2, 7, 8, 13, m[12], m[13]);
    MixAt(s3, 3, 4, 9, 14, m[14], m[15])
  }

  function Round(s: Block, m: Block): Block {
    MixDiagonals(MixColumns(s, m), m)
  }

  function Permute(m: Block): Block {
    seq(16, i requires 0 <= i < 16 => m[Schedule(i)])
  }

  /** k rounds, the message permuted after each. */
  function Rounds(s: Block, m: Block, k: nat): Block
    decreases k
  {
    if k == 0 then s else Rounds(Round(s, m), Permute(m), k - 1)
  }

  function FlagBit(flags: set<Flag>, f: Flag, bit: Word): Word {
    if f in flags then bit else 0
  }

  /** The flags word. */
  function FlagWord(flags: set<Flag>): Word {
    FlagBit(flags, ChunkStart, 1) + FlagBit(flags, ChunkEnd, 2) + FlagBit(flags, Parent, 4)
    + FlagBit(flags, Root, 8) + FlagBit(flags, KeyedHash, 16) + FlagBit(flags, DeriveKeyContext, 32)
    + FlagBit(flags, DeriveKeyMaterial, 64)
  }

  /** Each flag contributes its own power of two, in the order of the flags, so the word determines the set. */
  lemma FlagWordAdds(flags: set<Flag>, f: Flag)
    requires f !in flags
    ensures FlagWord({}) == 0
    ensures FlagWord(flags + {f}) - FlagWord(flags)
         == match f
            case ChunkStart => 1
            case ChunkEnd => 2
            case Parent => 4
            case Root => 8
            case KeyedHash => 16
            case DeriveKeyContext => 32
            case DeriveKeyMaterial => 64
  {
  }

  function InitialState(cv: Cv, counter: nat, blockLen: nat, flags: Word): Block {
    cv + IV[..4] + [counter % 0x1_0000_0000, counter / 0x1_0000_0000 % 0x1_0000_0000, blockLen % 0x1_0000_0000, flags]
  }

  function FeedForward(cv: Cv, s: Block): Block {
    seq(8, i requires 0 <= i < 8 => Xor(s[i], s[i + 8])) + seq(8, i requires 0 <= i < 8 => Xor(s[i + 8], cv[i]))
  }

  function CompressWords(cv: Cv, m: Block, counter: nat, blockLen: nat, flags: Word): Block {
    FeedForward(cv, Rounds(InitialState(cv, counter, blockLen, flags), m, 7))
  }

  /** The compression function as an argument of the tree hash. */
  function Compress(cv: Cv, m: Block, counter: nat, blockLen: nat, flags: set<Flag>): Block {
    CompressWords(cv, m, counter, blockLen, FlagWord(flags))
  }

  /** Plain BLAKE3. */
  const BLAKE3: Mode := Mode(IV, {}, Compress)

  // ----- the in-place implementation -----

  method MixInPlace(state: array<Word>, a: nat, b: nat, c: nat, d: nat, x: Word, y: Word)
    requires state.Length == 16 && a < 16 && b < 16 && c < 16 && d < 16
    requires a != b && a != c && a != d && b != c && b != d && c != d
    modifies state
    ensures state[..] == MixAt(old(state[..]), a, b, c, d, x, y)
  {
    hide Add, Xor, Rotr;
    state[a] := Add(Add(state[a], state[b]), x);
    state[d] := Rotr(Xor(state[d], state[a]), 16);
    state[c] := Add(state[c], state[d]);
    state[b] := Rotr(Xor(state[b], state[c]), 12);
    state[a] := Add(Add(state[a], state[b]), y);
    state[d] := Rotr(Xor(state[d], state[a]), 8);
    state[c] := Add(state[c], state[d]);
    state[b] := Rotr(Xor(state[b], state[c]), 7);
  }

  method RoundInPlace(state: array<Word>, m: array<Word>)
    requires state.Length == 16 && m.Length == 16 && state != m
    modifies state
    ensures state[..] == Round(old(state[..]), m[..])
  {
    hide MixAt;
    MixInPlace(state, 0, 4, 8, 12, m[0], m[1]);
    MixInPlace(state, 1, 5, 9, 13, m[2], m[3]);
    MixInPlace(state, 2, 6, 10, 14, m[4], m[5]);
    MixInPlace(state, 3, 7, 11, 15, m[6], m[7]);
    MixInPlace(state, 0, 5, 10, 15, m[8], m[9]);
    MixInPlace(state, 1, 6, 11, 12, m[10], m[11]);
    MixInPlace(state, 2, 7, 8, 13, m[12], m[13]);
    MixInPlace(state, 3, 4, 9, 14, m[14], m[15]);
  }

  method PermuteInPlace(m: array<Word>)
    requires m.Length == 16
    modifies m
    ensures m[..] == Permute(old(m[..]))
  {
    hide Schedule;
    var permuted := new Word[16];
    var i := 0;
    while i < 16
      invariant 0 <= i <= 16 && m[..] == old(m[..])
      invariant forall k :: 0 <= k < i ==> permuted[k] == old(m[..])[Schedule(k)]
    {
      permuted[i] := m[Schedule(i)];
      i := i + 1;
    }
    forall k | 0 <= k < 16 { m[k] := permuted[k]; }
  }

  method RoundsInPlace(state: array<Word>, m: array<Word>)
    requires state.Length == 16 && m.Length == 16 && state != m
    modifies state, m
    ensures state[..] == Rounds(old(state[..]), old(m[..]), 7)
  {
    hide Round, Permute;
    RoundInPlace(state, m);
    PermuteInPlace(m);
    assert Rounds(state[..], m[..], 6) == Rounds(old(state[..]), old(m[..]), 7);
    RoundInPlace(state, m);
    PermuteInPlace(m);
    assert Rounds(state[..], m[..], 5) == Rounds(old(state[..]), old(m[..]), 7);
    RoundInPlace(state, m);
    PermuteInPlace(m);
    assert Rounds(state[..], m[..], 4) == Rounds(old(state[..]), old(m[..]), 7);
    RoundInPlace(state, m);
    PermuteInPlace(m);
    assert Rounds(state[..], m[..], 3) == Rounds(old(state[..]), old(m[..]), 7);
    RoundInPlace(state, m);
    PermuteInPlace(m);
    assert Rounds(state[..], m[..], 2) == Rounds(old(state[..]), old(m[..]), 7);
    RoundInPlace(state, m);
    PermuteInPlace(m);
    assert Rounds(state[..], m[..], 1) == Rounds(old(state[..]), old(m[..]), 7);
    assert Rounds(state[..], m[..], 1) == Round(state[..], m[..]);
    RoundInPlace(state, m);
  }

  method FeedForwardInPlace(state: array<Word>, cv: Cv)
    requires state.Length == 16
    modifies state
    ensures state[..] == FeedForward(cv, old(state[..]))
  {
    hide Xor;
    ghost var s := state[..];
    var i := 0;
    while i < 8
      invariant 0 <= i <= 8
      invariant forall j :: 0 <= j < i ==> state[j] == Xor(s[j], s[j + 8])
      invariant forall j :: 8 <= j < i + 8 ==> state[j] == Xor(s[j], cv[j - 8])
      invariant forall j :: i <= j < 8 ==> state[j] == s[j]
      invariant forall j :: i + 8 <= j < 16 ==> state[j] == s[j]
    {
      state[i] := Xor(state[i], state[i + 8]);
      state[i + 8] := Xor(state[i + 8], cv[i]);
      i := i + 1;
    }
  }

  method CompressBlock(cv: Cv, words: Block, counter: nat, blockLen: nat, flags: Word) returns (out: Block)
    ensures out == CompressWords(cv, words, counter, blockLen, flags)
  {
    hide Rounds, FeedForward;
    var start: Block := [cv[0], cv[1], cv[2], cv[3], cv[4], cv[5], cv[6], cv[7], IV[0], IV[1], IV[2], IV[3],
                         counter % 0x1_0000_0000, counter / 0x1_0000_0000 % 0x1_0000_0000,
                         blockLen % 0x1_0000_0000, flags];
    assert start == InitialState(cv, counter, blockLen, flags);
    hide InitialState;
    var state, m := new Word[16](i requires 0 <= i < 16 => start[i]), new Word[16](i requires 0 <= i < 16 => words[i]);
    assert state[..] == start && m[..] == words;
    RoundsInPlace(state, m);
    FeedForwardInPlace(state, cv);
    out := state[..];
  }
}
