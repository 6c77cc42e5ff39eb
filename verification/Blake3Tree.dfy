/**
 BLAKE3 as a recursive tree hash (sections 2.1 to 2.6 of the BLAKE3 specification), over an
 arbitrary compression function. This is the reference that the incremental hasher is proved
 against; nothing here mentions a stack, a buffer or an update call.
 */
module Blake3Tree {
  import opened Words

  type Cv = s: seq<Word> | |s| == 8 witness [0, 0, 0, 0, 0, 0, 0, 0]
  type Block = s: seq<Word> | |s| == 16 witness [0, 0, 0, 0, 0, 0, 0, 0, 0, 0, 0, 0, 0, 0, 0, 0]

  /** The single-bit domain flags; the flags word is the union of a set of them. */
  datatype Flag = ChunkStart | ChunkEnd | Parent | Root | KeyedHash | DeriveKeyContext | DeriveKeyMaterial

  /** compress(chaining value, block words, counter, block length, flags) */
  type Compression = (Cv, Block, nat, nat, set<Flag>) -> Block

  /** What a hash is parametrised by: key words, mode flags, compression function. */
  datatype Mode = Mode(key: Cv, flags: set<Flag>, f: Compression)

  /** The last compression of a node, before choosing between chaining value and root output. */
  datatype Output = Output(cv: Cv, block: Block, counter: nat, blockLen: nat, flags: set<Flag>)

  function WordsOf(bytes: seq<Byte>): (ws: seq<Word>)
    requires |bytes| % 4 == 0
    ensures |ws| == |bytes| / 4
  {
    seq(|bytes| / 4, i requires 0 <= i < |bytes| / 4 =>
      LeWord(bytes[4 * i], bytes[4 * i + 1], bytes[4 * i + 2], bytes[4 * i + 3]))
  }

  function Zeros(n: nat): (s: seq<Byte>)
    ensures |s| == n
  {
    seq(n, i => 0)
  }

  function ChainingValue(m: Mode, o: Output): Cv {
    m.f(o.cv, o.block, o.counter, o.blockLen, o.flags)[..8]
  }

  /** Byte i of the extendable output: ROOT is set and the counter is the output block number. */
  function RootByte(m: Mode, o: Output, i: nat): Byte {
    ByteOfWord(m.f(o.cv, o.block, i / 64, o.blockLen, o.flags + {Root})[i % 64 / 4], i % 4)
  }

  function RootBytes(m: Mode, o: Output, n: nat): (s: seq<Byte>)
    ensures |s| == n
  {
    seq(n, i requires 0 <= i < n => RootByte(m, o, i))
  }

  // ----- chunks -----

  function StartFlag(block: nat): set<Flag> {
    if block == 0 then {ChunkStart} else {}
  }

  /** Chaining value after the first b full blocks of a chunk. */
  function CvAfter(m: Mode, bytes: seq<Byte>, b: nat, index: nat): Cv
    requires 64 * b <= |bytes|
    decreases b
  {
    if b == 0 then m.key
    else m.f(CvAfter(m, bytes, b - 1, index),
             WordsOf(bytes[64 * (b - 1)..64 * b]),
             index, 64, m.flags + StartFlag(b - 1))[..8]
  }

  /** Number of blocks before the last one; the last block is empty only in an empty chunk. */
  function LastBlock(len: nat): (b: nat)
    ensures len == 0 ==> b == 0
    ensures len > 0 ==> 64 * b < len <= 64 * (b + 1)
  {
    if len == 0 then 0 else (len - 1) / 64
  }

  function ChunkOutput(m: Mode, bytes: seq<Byte>, index: nat): Output
    requires |bytes| <= 1024
  {
    var b := LastBlock(|bytes|);
    var last := bytes[64 * b..];
    Output(CvAfter(m, bytes, b, index),
           WordsOf(last + Zeros(64 - |last|)),
           index, |last|, m.flags + StartFlag(b) + {ChunkEnd})
  }

  // ----- the tree -----

  function ParentOutput(m: Mode, left: Cv, right: Cv): Output {
    Output(m.key, left + right, 0, 64, {Parent} + m.flags)
  }

  /** q is the byte length of a complete subtree: 1024 times a power of two. */
  predicate SubtreeLen(q: nat)
    decreases q
  {
    q == 1024 || (q > 1024 && q % 2 == 0 && SubtreeLen(q / 2))
  }

  /** Length of the left subtree: the largest subtree length strictly below len. */
  function LeftLen(len: nat): (r: nat)
    requires len > 1024
    ensures SubtreeLen(r) && r < len <= 2 * r
  {
    LeftLenFrom(len, 1024)
  }

  function LeftLenFrom(len: nat, p: nat): (r: nat)
    requires SubtreeLen(p) && 0 < p < len
    ensures SubtreeLen(r) && r < len <= 2 * r
    decreases len - p
  {
    if 2 * p < len then assert 2 * p / 2 == p; LeftLenFrom(len, 2 * p) else p
  }

  /** Number of whole chunks in a byte length. */
  function Chunks(bytes: nat): nat {
    bytes / 1024
  }

  function TreeOutput(m: Mode, input: seq<Byte>, firstChunk: nat): Output
    decreases |input|
  {
    if |input| <= 1024 then ChunkOutput(m, input, firstChunk)
    else
      var l := LeftLen(|input|);
      assert l > 0;
      ParentOutput(m,
                   ChainingValue(m, TreeOutput(m, input[..l], firstChunk)),
                   ChainingValue(m, TreeOutput(m, input[l..], firstChunk + Chunks(l))))
  }

  /** The BLAKE3 hash of input, extended to n bytes. */
  function Hash(m: Mode, input: seq<Byte>, n: nat): (s: seq<Byte>)
    ensures |s| == n
  {
    RootBytes(m, TreeOutput(m, input, 0), n)
  }

  // ----- the left subtree is determined by its size -----

  lemma {:induction false} SubtreeLenBounds(q: nat)
    requires SubtreeLen(q)
    ensures q >= 1024 && q % 1024 == 0
    decreases q
  {
    if q != 1024 {
      SubtreeLenBounds(q / 2);
      TwiceMultiple(q / 2);
    }
  }

  lemma TwiceMultiple(h: nat)
    requires h % 1024 == 0
    ensures 2 * h % 1024 == 0
  {
    var k := h / 1024;
    assert 2 * h == 1024 * (2 * k);
  }

  lemma {:induction false} SubtreeLensDouble(a: nat, b: nat)
    requires SubtreeLen(a) && SubtreeLen(b) && a < b
    ensures 2 * a <= b
    decreases b
  {
    SubtreeLenBounds(a);
    if a == 1024 {
      SubtreeLenBounds(b / 2);
    } else {
      SubtreeLensDouble(a / 2, b / 2);
    }
  }

  lemma LeftLenUnique(len: nat, r: nat)
    requires len > 1024 && SubtreeLen(r) && r < len <= 2 * r
    ensures LeftLen(len) == r
  {
    var l := LeftLen(len);
    if l < r { SubtreeLensDouble(l, r); }
    if r < l { SubtreeLensDouble(r, l); }
  }

  /** A left part of subtree length q joined with a nonempty right part no longer than q. */
  lemma TreeJoin(m: Mode, left: seq<Byte>, right: seq<Byte>, firstChunk: nat)
    requires SubtreeLen(|left|) && 0 < |right| <= |left|
    ensures TreeOutput(m, left + right, firstChunk)
         == ParentOutput(m, ChainingValue(m, TreeOutput(m, left, firstChunk)),
                         ChainingValue(m, TreeOutput(m, right, firstChunk + Chunks(|left|))))
  {
    hide ChunkOutput, ChainingValue, ParentOutput, Chunks;
    SubtreeLenBounds(|left|);
    LeftLenUnique(|left + right|, |left|);
    assert (left + right)[..|left|] == left && (left + right)[|left|..] == right;
  }

  // ----- what a node is -----

  /** The chaining value of a node, written out. */
  ghost predicate IsCvOf(m: Mode, o: Output, cv: seq<Word>) {
    cv == m.f(o.cv, o.block, o.counter, o.blockLen, o.flags)[..8]
  }

  /**
   A node above the chunks, word by word: the left child's chaining value in the first half of the
   block, the right child's in the second, the key as input chaining value, counter 0, length 64.
   */
  lemma NodeOfChildren(m: Mode, input: seq<Byte>, l: nat, c: nat)
    requires SubtreeLen(l) && l < |input| <= 2 * l
    ensures var o := TreeOutput(m, input, c);
      && IsCvOf(m, TreeOutput(m, input[..l], c), o.block[..8])
      && IsCvOf(m, TreeOutput(m, input[l..], c + l / 1024), o.block[8..])
      && o.cv == m.key && o.counter == 0 && o.blockLen == 64 && o.flags == m.flags + {Parent}
  {
    hide TreeOutput, SubtreeLen;
    TreeJoin(m, input[..l], input[l..], c);
    assert input[..l] + input[l..] == input;
  }

  /** Byte j of a message padded with zeros. */
  function PaddedByte(bytes: seq<Byte>, j: nat): int {
    if j < |bytes| then bytes[j] else 0
  }

  /** Block b of the bytes, little-endian, padded with zeros. */
  ghost predicate IsBlock(block: Block, bytes: seq<Byte>, b: nat) {
    forall i :: 0 <= i < 16 ==>
      var j := 64 * b + 4 * i;
      block[i] == PaddedByte(bytes, j) + 0x100 * PaddedByte(bytes, j + 1)
                  + 0x1_0000 * PaddedByte(bytes, j + 2) + 0x100_0000 * PaddedByte(bytes, j + 3)
  }

  /**
   A chunk, block by block: block b is compressed under the chunk's number with length 64 and, for
   b = 0 only, ChunkStart; the last block is padded with zeros, has its own length and ChunkEnd.
   */
  lemma ChunkOfBlocks(m: Mode, bytes: seq<Byte>, c: nat, b: nat)
    requires 64 * b < |bytes| <= 64 * (b + 1) <= 1024
    ensures var o := TreeOutput(m, bytes, c);
      && o.counter == c && o.blockLen == |bytes| - 64 * b && IsBlock(o.block, bytes, b)
      && o.flags == m.flags + (if b == 0 then {ChunkStart, ChunkEnd} else {ChunkEnd})
      && if b == 0 then o.cv == m.key
         else
           var before := TreeOutput(m, bytes[..64 * b], c);
           o.cv == m.f(before.cv, before.block, c, 64, m.flags + if b == 1 then {ChunkStart} else {})[..8]
  {
    hide WordsOf;
    LastBlockIs(|bytes|, b);
    LastIsBlock(bytes, b);
    if b > 0 {
      hide CvAfter;
      BlockBefore(m, bytes, c, b);
    }
  }

  lemma BlockBefore(m: Mode, bytes: seq<Byte>, c: nat, b: nat)
    requires 0 < b && 64 * b < |bytes| <= 1024
    ensures var before := TreeOutput(m, bytes[..64 * b], c);
      CvAfter(m, bytes, b, c)
      == m.f(before.cv, before.block, c, 64, m.flags + if b == 1 then {ChunkStart} else {})[..8]
  {
    hide WordsOf, CvAfter;
    var prefix := bytes[..64 * b];
    LastBlockIs(64 * b, b - 1);
    assert prefix + bytes[64 * b..] == bytes;
    CvAfterPrefix(m, prefix, bytes[64 * b..], b - 1, c);
    CvAfterStep(m, bytes, b - 1, c);
    assert prefix[64 * (b - 1)..] + Zeros(0) == bytes[64 * (b - 1)..64 * b];
  }

  /** The empty input is one empty block that both starts and ends its chunk. */
  lemma EmptyChunk(m: Mode, c: nat)
    ensures TreeOutput(m, [], c) == Output(m.key, seq(16, i => 0), c, 0, m.flags + {ChunkStart, ChunkEnd})
  {
    assert [] + Zeros(64) == Zeros(64);
    assert WordsOf(Zeros(64)) == seq(16, i => 0);
  }

  lemma LastBlockIs(len: nat, b: nat)
    requires 64 * b < len <= 64 * (b + 1)
    ensures LastBlock(len) == b
  {
  }

  lemma LastIsBlock(bytes: seq<Byte>, b: nat)
    requires 64 * b < |bytes| <= 64 * (b + 1)
    ensures var last := bytes[64 * b..]; IsBlock(WordsOf(last + Zeros(64 - |last|)), bytes, b)
  {
    var last := bytes[64 * b..];
    var full := last + Zeros(64 - |last|);
    assert forall j :: 0 <= j < 64 ==> full[j] == PaddedByte(bytes, 64 * b + j);
  }

  lemma CvAfterStep(m: Mode, bytes: seq<Byte>, b: nat, index: nat)
    requires 64 * (b + 1) <= |bytes|
    ensures CvAfter(m, bytes, b + 1, index)
         == m.f(CvAfter(m, bytes, b, index), WordsOf(bytes[64 * b..64 * (b + 1)]), index, 64,
                m.flags + StartFlag(b))[..8]
  {
  }

  /** Later bytes do not change the chaining value of earlier blocks. */
  lemma {:induction false} CvAfterPrefix(m: Mode, bytes: seq<Byte>, more: seq<Byte>, b: nat, index: nat)
    requires 64 * b <= |bytes|
    ensures CvAfter(m, bytes + more, b, index) == CvAfter(m, bytes, b, index)
    decreases b
  {
    if b > 0 {
      CvAfterPrefix(m, bytes, more, b - 1, index);
      assert (bytes + more)[64 * (b - 1)..64 * b] == bytes[64 * (b - 1)..64 * b];
    }
  }

  /** A compression that returns its block. */
  function Echo(cv: Cv, block: Block, counter: nat, blockLen: nat, flags: set<Flag>): Block {
    block
  }

  /** Two chunks with the echoing compression: the first halves of their last blocks, in order. */
  lemma EchoOfTwoChunks(key: Cv, flags: set<Flag>, input: seq<Byte>)
    requires |input| == 2048
    ensures Hash(Mode(key, flags, Echo), input, 64) == input[960..992] + input[1984..2016]
  {
    hide TreeOutput, WordsOf, ChunkOutput, Hash, RootByte;
    var m := Mode(key, flags, Echo);
    var left, right, o := input[..1024], input[1024..], TreeOutput(m, input, 0);
    NodeOfChildren(m, input, 1024, 0);
    ChunkOfBlocks(m, left, 0, 15);
    ChunkOfBlocks(m, right, 1, 15);
    forall i | 0 <= i < 64 ensures Hash(m, input, 64)[i] == (input[960..992] + input[1984..2016])[i] {
      EchoByte(m, input, i);
      if i < 32 {
        BlockByte(TreeOutput(m, left, 0).block, left, i);
      } else {
        BlockByte(TreeOutput(m, right, 1).block, right, i - 32);
      }
    }
  }

  lemma EchoByte(m: Mode, input: seq<Byte>, i: nat)
    requires m.f == Echo && i < 64
    ensures Hash(m, input, 64)[i] == ByteOfWord(TreeOutput(m, input, 0).block[i / 4], i % 4)
  {
    hide TreeOutput, ByteOfWord;
  }

  lemma BlockByte(block: Block, chunk: seq<Byte>, i: nat)
    requires |chunk| == 1024 && IsBlock(block, chunk, 15) && i < 32
    ensures ByteOfWord(block[i / 4], i % 4) == chunk[960 + i]
  {
    var j := 960 + i / 4 * 4;
    BytesOfWord(chunk[j], chunk[j + 1], chunk[j + 2], chunk[j + 3], i % 4);
  }

  lemma LowByte(low: Byte, rest: nat)
    ensures (low + 0x100 * rest) % 0x100 == low && (low + 0x100 * rest) / 0x100 == rest
  {
  }

  /** The bytes of a word put together little-endian. */
  lemma BytesOfWord(a: Byte, b: Byte, c: Byte, d: Byte, k: nat)
    requires k < 4
    ensures ByteOfWord(LeWord(a, b, c, d), k) == [a, b, c, d][k]
  {
    var cd: nat := c + 0x100 * d;
    var bcd: nat := b + 0x100 * cd;
    var w: nat := a + 0x100 * bcd;
    assert LeWord(a, b, c, d) == w;
    LowByte(a, bcd);
    LowByte(b, cd);
    LowByte(c, d);
    assert w / 0x1_0000 == w / 0x100 / 0x100 && w / 0x100_0000 == w / 0x1_0000 / 0x100;
  }
}
