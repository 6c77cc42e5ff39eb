/**
 The claimed hash of a share, end to end: seeds from the job key and the two matrix roots, noise
 rows and permutations from keyed hash streams, the transcript, and a final keyed hash.
 */
module ClaimedHash {
  import opened Arithmetic
  import opened Words
  import opened Blake3Tree
  import opened Blake3Compress
  import opened LeadingZeros
  import opened Noise
  import opened Transcript

  function Keyed(key: Digest): Mode {
    Mode(WordsOf(key), {KeyedHash}, Compress)
  }

  function HashOf(m: Mode, input: seq<Byte>): Digest {
    Hash(m, input, 32)
  }

  /** "A_tensor" or "B_tensor", padded with zeros. */
  function Label(first: Byte): Digest {
    [first, 0x5F, 0x74, 0x65, 0x6E, 0x73, 0x6F, 0x72] + Zeros(24)
  }

  /** Counter word at the given position, then the seed label. */
  function RandomMessage(index: nat, seed: Digest, position: nat): seq<Byte>
    requires position < 8
  {
    Zeros(4 * position) + WordBytes((index + 1) % 0x1_0000_0000) + Zeros(28 - 4 * position) + seed
  }

  function RandomStream(seed: Digest, key: Digest, position: nat): Stream
    requires position < 8
  {
    (index: nat) => HashOf(Keyed(key), RandomMessage(index, seed, position))
  }

  /** get_random_hash: one keyed hash of a 64-byte message with the index, one-based, at the given word. */
  method GetRandomHash(index: nat, seed: Digest, key: Digest, position: nat) returns (out: Digest)
    requires position < 8
    ensures out == RandomStream(seed, key, position)(index)
  {
    hide HashOf, Keyed;
    var msg := new Byte[64](_ => 0);
    var n := (index + 1) % 0x1_0000_0000;
    msg[4 * position] := n % 0x100;
    msg[4 * position + 1] := n / 0x100 % 0x100;
    msg[4 * position + 2] := n / 0x1_0000 % 0x100;
    msg[4 * position + 3] := n / 0x100_0000;
    forall i | 0 <= i < 32 { msg[32 + i] := seed[i]; }
    assert msg[..] == RandomMessage(index, seed, position);
    out := HashOf(Keyed(key), msg[..]);
  }

  /**
   A keyed hash of one whole block is a single compression under the key's words, with counter 0,
   length 64 and the flags of a keyed, single-block, root chunk.
   */
  lemma KeyedHashOfBlock(key: Digest, msg: seq<Byte>, i: nat)
    requires |msg| == 64 && i < 32
    ensures |WordsOf(key)| == 8 && |WordsOf(msg)| == 16
    ensures HashOf(Keyed(key), msg)[i] == ByteOfWord(CompressWords(WordsOf(key), WordsOf(msg), 0, 64, 27)[i / 4], i % 4)
  {
    hide WordsOf, CompressWords, ByteOfWord;
    var m := Keyed(key);
    ChunkOfBlocks(m, msg, 0, 0);
    assert msg[0..] + Zeros(0) == msg;
    var o := TreeOutput(m, msg, 0);
    assert o.block == WordsOf(msg) && o.flags + {Root} == {KeyedHash, ChunkStart, ChunkEnd, Root};
    hide TreeOutput;
    assert FlagWord({KeyedHash, ChunkStart, ChunkEnd, Root}) == 27;
  }

  /** Both labels are the ASCII text padded with zeros. */
  lemma LabelText(i: nat)
    requires i < 32
    ensures Label(0x41)[i] == if i < 8 then "A_tensor"[i] as int else 0
    ensures Label(0x42)[i] == if i < 8 then "B_tensor"[i] as int else 0
  {
  }

  /**
   A share: opened rows of A and columns of B, the job key, both roots, and the infinite stream of
   signed bytes that the B seed expands to. k is the inner dimension, 2^e the noise rank.
   */
  datatype Opening = Opening(aRows: seq<nat>, bCols: seq<nat>, secretA: seq<seq<int>>, b: nat -> int,
                             k: nat, n: nat, e: nat, jobKey: Digest, rootA: Digest, rootB: Digest)

  predicate Valid(o: Opening) {
    |o.secretA| == |o.aRows| && Rows(o.secretA, o.k) && 1 <= o.e <= 31
  }

  /** The opened columns exist; only the path that slices the whole expansion needs them to. */
  predicate ColumnsInside(o: Opening) {
    forall j :: 0 <= j < |o.bCols| ==> o.bCols[j] < o.n
  }

  function SeedB(o: Opening): Digest {
    HashOf(BLAKE3, o.jobKey + o.rootB)
  }

  function SeedA(o: Opening): Digest {
    HashOf(BLAKE3, SeedB(o) + o.rootA)
  }

  function Rank(o: Opening): (r: nat)
    requires Valid(o)
    ensures 2 <= r < 0x1_0000_0000
  {
    RankBound(o.e);
    Pow2(o.e)
  }

  /** Column col of B: a slice of the expanded seed. */
  function Column(o: Opening, col: nat): (c: seq<int>)
    ensures |c| == o.k
  {
    seq(o.k, l requires 0 <= l < o.k => o.b(col * o.k + l))
  }

  /** Noise of one opened line: differences of pairs of entries of its uniform row. */
  function NoiseLine(seed: Digest, key: Digest, line: nat, k: nat, e: nat): (x: seq<int>)
    requires 1 <= e <= 31
    ensures |x| == k
  {
    RankBound(e);
    var row := UniformRow(RandomStream(seed, key, 0), line, Pow2(e));
    var stream := RandomStream(seed, key, 1);
    seq(k, l requires 0 <= l < k =>
      LineProper(stream, e, l);
      row[Line(stream, Pow2(e), l).first] - row[Line(stream, Pow2(e), l).second])
  }

  lemma LineProper(stream: Stream, e: nat, l: nat)
    requires 1 <= e <= 31
    ensures 2 <= Pow2(e) < 0x1_0000_0000
    ensures var p := Line(stream, Pow2(e), l);
      p.first < Pow2(e) && p.second < Pow2(e) && p.first != p.second
  {
    hide Pow2, PairOf, DigestWord;
    PairsAreProper(e, DigestWord(stream(l / 8), l % 8));
  }

  function NoisedA(o: Opening): (x: seq<seq<int>>)
    requires Valid(o)
    ensures |x| == |o.aRows| && Rows(x, o.k)
  {
    seq(|o.aRows|, u requires 0 <= u < |o.aRows| =>
      Noised(o.secretA[u], NoiseLine(Label(0x41), SeedA(o), o.aRows[u], o.k, o.e)))
  }

  function NoisedB(o: Opening): (y: seq<seq<int>>)
    requires Valid(o)
    ensures |y| == |o.bCols| && Rows(y, o.k)
  {
    seq(|o.bCols|, v requires 0 <= v < |o.bCols| =>
      Noised(Column(o, o.bCols[v]), NoiseLine(Label(0x42), SeedB(o), o.bCols[v], o.k, o.e)))
  }

  /** The sixteen words of the transcript of two noised operands. */
  function JackpotWords(x: seq<seq<int>>, y: seq<seq<int>>, k: nat, r: nat): (msg: seq<Word>)
    requires Rows(x, k) && Rows(y, k) && r > 0
    ensures |msg| == 16
  {
    seq(16, t requires 0 <= t < 16 => JackpotWord(x, y, k, r, t, Turns(t, k / r)))
  }

  function Jackpot(o: Opening): (msg: seq<Word>)
    requires Valid(o)
    ensures |msg| == 16
  {
    JackpotWords(NoisedA(o), NoisedB(o), o.k, Rank(o))
  }

  function Claimed(o: Opening): Digest
    requires Valid(o)
  {
    HashOf(Keyed(SeedA(o)), BytesOf(Jackpot(o)))
  }

  // ----- the computation -----

  /** A range of the expanded seed. */
  function ExpandRange(o: Opening, offset: nat, len: nat): (s: seq<int>)
    ensures |s| == len
  {
    seq(len, i requires 0 <= i < len => o.b(offset + i))
  }

  lemma ColumnInside(col: nat, n: nat, k: nat)
    requires col < n
    ensures col * k + k <= n * k
  {
    MulOrder(k, col + 1, n);
    assert k * (col + 1) == col * k + k && k * n == n * k;
  }

  function Offset(col: nat, k: nat): nat {
    col * k
  }

  lemma SeekColumn(o: Opening, col: nat)
    ensures ExpandRange(o, Offset(col, o.k), o.k) == Column(o, col)
  {
  }

  lemma SliceColumn(o: Opening, col: nat)
    requires col < o.n
    ensures Offset(col, o.k) + o.k <= Offset(o.n, o.k)
    ensures ExpandRange(o, 0, Offset(o.n, o.k))[Offset(col, o.k)..Offset(col, o.k) + o.k] == Column(o, col)
  {
    ColumnInside(col, o.n, o.k);
  }

  /** Seeking each opened column in the stream. */
  method SeekColumns(o: Opening) returns (cols: seq<seq<int>>)
    ensures |cols| == |o.bCols| && forall j :: 0 <= j < |cols| ==> cols[j] == Column(o, o.bCols[j])
  {
    hide Column, ExpandRange, Offset;
    cols := [];
    var j := 0;
    while j < |o.bCols|
      invariant 0 <= j <= |o.bCols| && |cols| == j
      invariant forall i :: 0 <= i < j ==> cols[i] == Column(o, o.bCols[i])
    {
      SeekColumn(o, o.bCols[j]);
      cols := cols + [ExpandRange(o, Offset(o.bCols[j], o.k), o.k)];
      j := j + 1;
    }
  }

  /** Cutting the opened columns out of the whole expansion. */
  method SliceColumns(o: Opening) returns (cols: seq<seq<int>>)
    requires ColumnsInside(o)
    ensures |cols| == |o.bCols| && forall j :: 0 <= j < |cols| ==> cols[j] == Column(o, o.bCols[j])
  {
    hide Column, ExpandRange, Offset;
    var all := ExpandRange(o, 0, Offset(o.n, o.k));
    cols := [];
    var j := 0;
    while j < |o.bCols|
      invariant 0 <= j <= |o.bCols| && |cols| == j
      invariant forall i :: 0 <= i < j ==> cols[i] == Column(o, o.bCols[i])
    {
      SliceColumn(o, o.bCols[j]);
      var from := Offset(o.bCols[j], o.k);
      cols := cols + [all[from..from + o.k]];
      j := j + 1;
    }
  }

  /** Both paths give the same bytes. */
  method ExpandColumns(o: Opening, targeted: bool) returns (cols: seq<seq<int>>)
    requires !targeted ==> ColumnsInside(o)
    ensures |cols| == |o.bCols| && forall j :: 0 <= j < |cols| ==> cols[j] == Column(o, o.bCols[j])
  {
    if targeted { cols := SeekColumns(o); } else { cols := SliceColumns(o); }
  }

  lemma PermProper(perm: seq<Pair>, stream: Stream, e: nat)
    requires 1 <= e <= 31 && 0 < Pow2(e) < 0x1_0000_0000
    requires forall l :: 0 <= l < |perm| ==> perm[l] == Line(stream, Pow2(e), l)
    ensures Proper(perm, Pow2(e))
  {
    hide Pow2, Line;
    forall l: nat | l < |perm|
      ensures perm[l].first < Pow2(e) && perm[l].second < Pow2(e) && perm[l].first != perm[l].second
    {
      LineProper(stream, e, l);
    }
  }

  /** The noise of one line, as the loops compute it. */
  method NoiseOf(seed: Digest, key: Digest, line: nat, perm: seq<Pair>, row: seq<int>, e: nat) returns (noise: seq<int>)
    requires 1 <= e <= 31 && 0 < Pow2(e) < 0x1_0000_0000 && Proper(perm, Pow2(e))
    requires forall l :: 0 <= l < |perm| ==> perm[l] == Line(RandomStream(seed, key, 1), Pow2(e), l)
    requires row == UniformRow(RandomStream(seed, key, 0), line, Pow2(e))
    ensures noise == NoiseLine(seed, key, line, |perm|, e)
  {
    hide Pow2, RandomStream, UniformRow, Line;
    noise := ApplyPermutation(perm, row);
  }

  /** Noised lines: uniform rows, the permutation applied, the secret added. */
  method NoiseLines(seed: Digest, key: Digest, lines: seq<nat>, secret: seq<seq<int>>, k: nat, e: nat)
    returns (x: seq<seq<int>>)
    requires |secret| == |lines| && Rows(secret, k) && 1 <= e <= 31
    ensures |x| == |lines|
    ensures forall u :: 0 <= u < |lines| ==> x[u] == Noised(secret[u], NoiseLine(seed, key, lines[u], k, e))
  {
    hide Pow2, RandomStream, UniformRow, Line, NoiseLine, Noised, Proper;
    RankBound(e);
    var rank := PowerOfTwo(e);
    var uniform := GenerateRows(RandomStream(seed, key, 0), lines, rank);
    var perm := GeneratePermutation(RandomStream(seed, key, 1), k, rank);
    PermProper(perm, RandomStream(seed, key, 1), e);
    x := [];
    var u := 0;
    while u < |lines|
      invariant 0 <= u <= |lines| && |x| == u
      invariant forall i :: 0 <= i < u ==> x[i] == Noised(secret[i], NoiseLine(seed, key, lines[i], k, e))
    {
      var noise := NoiseOf(seed, key, lines[u], perm, uniform[u], e);
      var line := AddNoise(secret[u], noise);
      x := x + [line];
      u := u + 1;
    }
  }

  method AddNoise(secret: seq<int>, noise: seq<int>) returns (line: seq<int>)
    requires |secret| == |noise|
    ensures line == Noised(secret, noise)
  {
    line := [];
    var l := 0;
    while l < |secret|
      invariant 0 <= l <= |secret| && |line| == l
      invariant forall i :: 0 <= i < l ==> line[i] == secret[i] + noise[i]
    {
      line := line + [secret[l] + noise[l]];
      l := l + 1;
    }
  }

  method PowerOfTwo(e: nat) returns (p: nat)
    ensures p == Pow2(e)
  {
    p := 1;
    var i := 0;
    while i < e
      invariant 0 <= i <= e && p == Pow2(i)
    {
      p := 2 * p;
      i := i + 1;
    }
  }

  /** Both ways of expanding B lead to the closed form. */
  method ComputeClaimedHash(o: Opening, targeted: bool) returns (hash: Digest)
    requires Valid(o) && (!targeted ==> ColumnsInside(o))
    ensures hash == Claimed(o)
  {
    hide HashOf, NoiseLine, Noised, JackpotWord, Turns, Keyed, Label, Column, Pow2, BytesOf;
    var seedB := HashOf(BLAKE3, o.jobKey + o.rootB);
    var seedA := HashOf(BLAKE3, seedB + o.rootA);
    var secretB := ExpandColumns(o, targeted);
    var x := NoiseLines(Label(0x41), seedA, o.aRows, o.secretA, o.k, o.e);
    var y := NoiseLines(Label(0x42), seedB, o.bCols, secretB, o.k, o.e);
    assert x == NoisedA(o) && y == NoisedB(o);
    hide NoisedA, NoisedB, SeedA, SeedB;
    var msg := RunTranscript(x, y, o.k, Rank(o));
    assert msg == Jackpot(o);
    hash := HashOf(Keyed(seedA), BytesOf(msg));
  }

  /** With secrets in signed-byte range no cell of the tile overflows while at most 58865 columns are summed. */
  lemma TranscriptFits(o: Opening, u: nat, v: nat, n: nat)
    requires Valid(o) && u < |o.aRows| && v < |o.bCols| && n <= o.k && n <= 58865
    requires forall l :: 0 <= l < o.k ==> -128 <= o.secretA[u][l] <= 127
    requires forall i: nat :: -128 <= o.b(i) <= 127
    ensures FitsInt32(Dot(NoisedA(o)[u], NoisedB(o)[v], n))
  {
    hide SeedA, SeedB, Label, RandomStream, Line, Pow2, UniformRow, NoiseLine, Dot;
    NoiseLineRange(Label(0x41), SeedA(o), o.aRows[u], o.k, o.e);
    NoiseLineRange(Label(0x42), SeedB(o), o.bCols[v], o.k, o.e);
    NoisedFits(o.secretA[u], NoiseLine(Label(0x41), SeedA(o), o.aRows[u], o.k, o.e));
    NoisedFits(Column(o, o.bCols[v]), NoiseLine(Label(0x42), SeedB(o), o.bCols[v], o.k, o.e));
    DotBound(NoisedA(o)[u], NoisedB(o)[v], n);
  }

  lemma NoiseLineRange(seed: Digest, key: Digest, line: nat, k: nat, e: nat)
    requires 1 <= e <= 31
    ensures forall l :: 0 <= l < k ==> -63 <= NoiseLine(seed, key, line, k, e)[l] <= 63
  {
    hide RandomStream, Line, Pow2, Entry;
    RankBound(e);
    var row := UniformRow(RandomStream(seed, key, 0), line, Pow2(e));
    forall l: nat | l < k ensures -63 <= NoiseLine(seed, key, line, k, e)[l] <= 63 {
      LineProper(RandomStream(seed, key, 1), e, l);
    }
  }
}
