/**
 The stack of subtree roots kept by the incremental hasher, as a function of the chunks seen.
 */
module Blake3Stack {
  import opened Words
  import opened Blake3Tree

  function SetBits(n: nat): nat {
    if n == 0 then 0 else n % 2 + SetBits(n / 2)
  }

  lemma {:induction false} SetBitsBound(n: nat, k: nat)
    requires n < Pow2(k)
    ensures SetBits(n) <= k
    decreases k
  {
    if n > 0 { SetBitsBound(n / 2, k - 1); }
  }

  /** Length of count pieces of q bytes. */
  function Extent(q: nat, count: nat): nat {
    q * count
  }

  /** Pairing up the pieces; the last of an odd number stays over. */
  lemma Halve(q: nat, count: nat)
    ensures count % 2 == 0 ==> Extent(q, count) == Extent(2 * q, count / 2)
    ensures count % 2 == 1 ==> Extent(q, count) == Extent(2 * q, count / 2) + q
  {
    var h := count / 2;
    assert count % 2 == 0 ==> count == 2 * h;
    assert count % 2 == 1 ==> count == 2 * h + 1;
    assert q * (2 * h) == 2 * q * h && q * (2 * h + 1) == 2 * q * h + q;
  }

  /**
   One subtree root per set bit of count, largest subtree first, where data is count pieces of
   q bytes. An odd last piece is a subtree of its own; the others pair up into pieces of 2q.
   */
  function Roots(m: Mode, data: seq<Byte>, q: nat, count: nat): (s: seq<Cv>)
    requires |data| == Extent(q, count)
    ensures |s| == SetBits(count)
    decreases count
  {
    Halve(q, count);
    if count == 0 then []
    else if count % 2 == 0 then Roots(m, data, 2 * q, count / 2)
    else
      var cut := |data| - q;
      Roots(m, data[..cut], 2 * q, count / 2)
      + [ChainingValue(m, TreeOutput(m, data[cut..], Chunks(cut)))]
  }

  lemma DoubleSubtreeLen(q: nat)
    requires SubtreeLen(q)
    ensures SubtreeLen(2 * q)
  {
    SubtreeLenBounds(q);
    assert 2 * q / 2 == q;
  }

  /** Fold the stack, top first, into the output of the last chunk. */
  function FoldRoots(m: Mode, stack: seq<Cv>, last: Output): Output
    decreases |stack|
  {
    if stack == [] then last
    else FoldRoots(m, stack[..|stack| - 1],
                   ParentOutput(m, stack[|stack| - 1], ChainingValue(m, last)))
  }

  lemma ChunkCount(cut: nat, q: nat)
    requires q % 1024 == 0
    ensures Chunks(cut + q) == Chunks(cut) + Chunks(q)
  {
  }

  /** An odd number of pieces: the roots are those of the pairs, then the last piece. */
  lemma RootsOdd(m: Mode, data: seq<Byte>, q: nat, count: nat)
    requires |data| == Extent(q, count) && count % 2 == 1
    ensures var cut := |data| - q;
      && cut == Extent(2 * q, count / 2)
      && Roots(m, data, q, count)
         == Roots(m, data[..cut], 2 * q, count / 2)
            + [ChainingValue(m, TreeOutput(m, data[cut..], Chunks(cut)))]
  {
    hide TreeOutput, ChainingValue, Extent, Chunks;
    Halve(q, count);
  }

  lemma RootsEven(m: Mode, data: seq<Byte>, q: nat, count: nat)
    requires SubtreeLen(q) && |data| == Extent(q, count) && count % 2 == 0
    ensures SubtreeLen(2 * q) && |data| == Extent(2 * q, count / 2)
    ensures Roots(m, data, q, count) == Roots(m, data, 2 * q, count / 2)
  {
    hide TreeOutput, ChainingValue, Extent, Chunks;
    Halve(q, count);
    DoubleSubtreeLen(q);
  }

  lemma FoldRootsLast(m: Mode, stack: seq<Cv>, top: Cv, last: Output)
    ensures FoldRoots(m, stack + [top], last) == FoldRoots(m, stack, ParentOutput(m, top, ChainingValue(m, last)))
  {
    hide ChainingValue, ParentOutput;
    assert (stack + [top])[..|stack|] == stack;
  }

  /** Folding the subtree roots of the prefix into the tree of the rest gives the whole tree. */
  lemma {:induction false} FoldRootsIsTree(m: Mode, data: seq<Byte>, rest: seq<Byte>, q: nat, count: nat)
    requires SubtreeLen(q) && |data| == Extent(q, count) && |rest| <= q && (count > 0 ==> |rest| > 0)
    ensures FoldRoots(m, Roots(m, data, q, count), TreeOutput(m, rest, Chunks(|data|)))
         == TreeOutput(m, data + rest, 0)
    decreases count
  {
    hide TreeOutput, Roots, FoldRoots, Extent, Chunks;
    if count == 0 {
      FoldRootsNone(m, data, rest, q);
    } else if count % 2 == 0 {
      RootsEven(m, data, q, count);
      FoldRootsIsTree(m, data, rest, 2 * q, count / 2);
    } else {
      FoldRootsOdd(m, data, rest, q, count);
      var cut := |data| - q;
      FoldRootsIsTree(m, data[..cut], data[cut..] + rest, 2 * q, count / 2);
      assert data[..cut] + (data[cut..] + rest) == data + rest;
    }
  }

  lemma FoldRootsNone(m: Mode, data: seq<Byte>, rest: seq<Byte>, q: nat)
    requires |data| == Extent(q, 0)
    ensures FoldRoots(m, Roots(m, data, q, 0), TreeOutput(m, rest, Chunks(|data|))) == TreeOutput(m, data + rest, 0)
  {
    hide TreeOutput;
    assert Extent(q, 0) == 0;
    assert data + rest == rest;
  }

  lemma FoldRootsOdd(m: Mode, data: seq<Byte>, rest: seq<Byte>, q: nat, count: nat)
    requires SubtreeLen(q) && |data| == Extent(q, count) && 0 < |rest| <= q && count % 2 == 1
    ensures var cut := |data| - q;
      && cut == Extent(2 * q, count / 2) && SubtreeLen(2 * q)
      && FoldRoots(m, Roots(m, data, q, count), TreeOutput(m, rest, Chunks(|data|)))
         == FoldRoots(m, Roots(m, data[..cut], 2 * q, count / 2), TreeOutput(m, data[cut..] + rest, Chunks(cut)))
  {
    hide TreeOutput, ChainingValue, ParentOutput, Roots, FoldRoots, Extent, Chunks;
    SubtreeLenBounds(q);
    DoubleSubtreeLen(q);
    RootsOdd(m, data, q, count);
    var cut := |data| - q;
    ChunkCount(cut, q);
    TreeJoin(m, data[cut..], rest, Chunks(cut));
    FoldRootsLast(m, Roots(m, data[..cut], 2 * q, count / 2),
                  ChainingValue(m, TreeOutput(m, data[cut..], Chunks(cut))), TreeOutput(m, rest, Chunks(|data|)));
  }
}

/** The merge loop on trailing zero bits, on values. */
module Blake3Merge {
  import opened Words
  import opened Blake3Tree
  import opened Blake3Stack

  /**
   Merging chunk totalChunks into the stack: total is the shifted chunk count, the stack holds
   the roots of lower, and cv is the root of piece, a subtree of q bytes.
   */
  ghost predicate Pending(m: Mode, all: seq<Byte>, totalChunks: nat,
                          lower: seq<Byte>, piece: seq<Byte>, q: nat, total: nat, stack: seq<Cv>, cv: Cv)
  {
    && total > 0 && SubtreeLen(q) && all == lower + piece
    && |lower| == Extent(q, total - 1) && |piece| == q && |all| == Extent(q, total) == 1024 * totalChunks
    && stack == Roots(m, lower, q, total - 1)
    && cv == ChainingValue(m, TreeOutput(m, piece, Chunks(|lower|)))
    && Roots(m, all, q, total) == Roots(m, all, 1024, totalChunks)
  }

  lemma PendingStart(m: Mode, done: seq<Byte>, last: seq<Byte>, totalChunks: nat, stack: seq<Cv>, cv: Cv)
    requires totalChunks > 0 && |done| == 1024 * (totalChunks - 1) && |last| == 1024
    requires stack == Roots(m, done, 1024, totalChunks - 1)
    requires cv == ChainingValue(m, TreeOutput(m, last, totalChunks - 1))
    ensures Pending(m, done + last, totalChunks, done, last, 1024, totalChunks, stack, cv)
  {
    hide TreeOutput, ChainingValue, Roots;
  }

  /** The odd last piece of the prefix and the new piece form one subtree of 2q bytes. */
  lemma PendingMerge(m: Mode, all: seq<Byte>, totalChunks: nat,
                     lower: seq<Byte>, piece: seq<Byte>, q: nat, total: nat, stack: seq<Cv>, cv: Cv)
    requires Pending(m, all, totalChunks, lower, piece, q, total, stack, cv) && total % 2 == 0
    ensures 0 < total / 2 < total && q <= |lower| && |stack| > 0
    ensures var cut := |lower| - q;
      Pending(m, all, totalChunks, lower[..cut], lower[cut..] + piece, 2 * q, total / 2,
              stack[..|stack| - 1], ChainingValue(m, ParentOutput(m, stack[|stack| - 1], cv)))
  {
    hide TreeOutput, ChainingValue, ParentOutput, Roots, SubtreeLen, SetBits, Extent, Chunks;
    SubtreeLenBounds(q);
    RootsOdd(m, lower, q, total - 1);
    RootsEven(m, all, q, total);
    assert (total - 1) / 2 == total / 2 - 1;
    var cut := |lower| - q;
    TreeJoin(m, lower[cut..], piece, Chunks(cut));
    ChunkCount(cut, q);
    assert all == lower[..cut] + (lower[cut..] + piece);
  }

  lemma PendingPush(m: Mode, all: seq<Byte>, totalChunks: nat,
                    lower: seq<Byte>, piece: seq<Byte>, q: nat, total: nat, stack: seq<Cv>, cv: Cv)
    requires Pending(m, all, totalChunks, lower, piece, q, total, stack, cv) && total % 2 == 1
    ensures stack + [cv] == Roots(m, all, 1024, totalChunks) && |stack| + 1 == SetBits(totalChunks)
  {
    hide TreeOutput, ChainingValue, Roots, Extent, Chunks;
    RootsOdd(m, all, q, total);
    RootsEven(m, lower, q, total - 1);
    assert (total - 1) / 2 == total / 2;
    assert all[..|lower|] == lower && all[|lower|..] == piece;
  }
}

/** The incremental hasher: chunk state, chaining-value stack, update and finalize. */
module Blake3Hasher {
  import opened Arithmetic
  import opened Words
  import opened Blake3Tree
  import opened Blake3Merge
  import opened Blake3Stack


  method WordsFromLittleEndianBytes(bytes: seq<Byte>) returns (out: seq<Word>)
    requires |bytes| % 4 == 0
    ensures out == WordsOf(bytes)
  {
    out := [];
    var i, count := 0, |bytes| / 4;
    assert 4 * count == |bytes|;
    while i < count
      invariant 0 <= i <= count && |out| == i
      invariant forall k :: 0 <= k < i ==> out[k] == WordsOf(bytes)[k]
    {
      var b0: nat, b1: nat, b2: nat, b3: nat := bytes[4 * i], bytes[4 * i + 1], bytes[4 * i + 2], bytes[4 * i + 3];
      out := out + [b0 + 0x100 * b1 + 0x1_0000 * b2 + 0x100_0000 * b3];
      i := i + 1;
    }
  }

  class ChunkState {
    const f: Compression
    const block: array<Byte>
    var chainingValue: Cv
    var chunkCounter: nat
    var blockLen: nat
    var blocksCompressed: nat
    var flags: set<Flag>

    /** This state has absorbed exactly bytes, keeping the last nonempty block uncompressed. */
    ghost predicate Holds(m: Mode, bytes: seq<Byte>)
      reads this, block
    {
      && block.Length == 64 && blockLen <= 64 && f == m.f && flags == m.flags
      && |bytes| == 64 * blocksCompressed + blockLen <= 1024
      && (blocksCompressed > 0 ==> blockLen > 0)
      && block[..] == bytes[64 * blocksCompressed..] + Zeros(64 - blockLen)
      && chainingValue == CvAfter(m, bytes, blocksCompressed, chunkCounter)
    }

    constructor (key: Cv, flags: set<Flag>, f: Compression)
      ensures Holds(Mode(key, flags, f), []) && chunkCounter == 0 && fresh(block)
    {
      this.f := f;
      this.flags := flags;
      chainingValue, chunkCounter, blockLen, blocksCompressed := key, 0, 0, 0;
      block := new Byte[64](_ => 0);
    }

    method Init(key: Cv, counter: nat, flags: set<Flag>)
      requires block.Length == 64
      modifies this, block
      ensures Holds(Mode(key, flags, f), []) && chunkCounter == counter
    {
      chainingValue, chunkCounter, blockLen, blocksCompressed := key, counter, 0, 0;
      this.flags := flags;
      ClearBlock();
    }

    function Len(): nat reads this {
      64 * blocksCompressed + blockLen
    }

    function StartFlagHere(): set<Flag> reads this {
      if blocksCompressed == 0 then {ChunkStart} else {}
    }

    /** Compress the full buffered block; the bytes absorbed are the same, the buffer is empty. */
    method CompressBlock(ghost m: Mode, ghost bytes: seq<Byte>)
      requires Holds(m, bytes) && blockLen == 64
      modifies this, block
      ensures blockLen == 0 && blocksCompressed == old(blocksCompressed) + 1
      ensures chunkCounter == old(chunkCounter) && flags == old(flags)
      ensures |bytes| == 64 * blocksCompressed
      ensures block[..] == Zeros(64)
      ensures chainingValue == CvAfter(m, bytes, blocksCompressed, chunkCounter)
    {
      hide CvAfter, StartFlag;
      chainingValue := NextCv(m, bytes);
      blocksCompressed := blocksCompressed + 1;
      ClearBlock();
    }

    method NextCv(ghost m: Mode, ghost bytes: seq<Byte>) returns (cv: Cv)
      requires Holds(m, bytes) && blockLen == 64
      ensures cv == CvAfter(m, bytes, blocksCompressed + 1, chunkCounter)
    {
      hide WordsOf, CvAfter;
      CvAfterStep(m, bytes, blocksCompressed, chunkCounter);
      var words := WordsFromLittleEndianBytes(block[..]);
      assert words == WordsOf(bytes[64 * blocksCompressed..64 * (blocksCompressed + 1)]) by {
        assert block[..] == bytes[64 * blocksCompressed..64 * (blocksCompressed + 1)];
      }
      var blockFlags := flags + StartFlagHere();
      assert blockFlags == m.flags + StartFlag(blocksCompressed);
      cv := f(chainingValue, words, chunkCounter, 64, blockFlags)[..8];
    }

    method ClearBlock()
      requires block.Length == 64
      modifies this`blockLen, block
      ensures blockLen == 0 && block[..] == Zeros(64)
    {
      forall k | 0 <= k < 64 { block[k] := 0; }
      blockLen := 0;
    }

    method Update(ghost m: Mode, ghost bytes: seq<Byte>, input: seq<Byte>)
      requires Holds(m, bytes) && |bytes| + |input| <= 1024
      modifies this, block
      ensures Holds(m, bytes + input) && chunkCounter == old(chunkCounter)
    {
      hide CvAfter, WordsOf;
      var i := 0;
      ghost var seen := bytes;
      assert bytes + input[..0] == bytes;
      while i < |input|
        invariant 0 <= i <= |input|
        invariant seen == bytes + input[..i]
        invariant Holds(m, seen) && chunkCounter == old(chunkCounter)
      {
        if blockLen == 64 { CompressBlock(m, seen); }
        var want := 64 - blockLen;
        var take := if |input| - i < want then |input| - i else want;
        Buffer(m, seen, input[i..i + take]);
        assert seen + input[i..i + take] == bytes + input[..i + take];
        i := i + take;
        seen := bytes + input[..i];
      }
      assert bytes + input[..i] == bytes + input;
    }

    /** Copy bytes that fit into the block buffer. */
    method Buffer(ghost m: Mode, ghost bytes: seq<Byte>, input: seq<Byte>)
      requires block.Length == 64 && blockLen + |input| <= 64 && f == m.f && flags == m.flags
      requires |bytes| == 64 * blocksCompressed + blockLen && |bytes| + |input| <= 1024
      requires blocksCompressed > 0 ==> blockLen + |input| > 0
      requires block[..] == bytes[64 * blocksCompressed..] + Zeros(64 - blockLen)
      requires chainingValue == CvAfter(m, bytes, blocksCompressed, chunkCounter)
      modifies this`blockLen, block
      ensures Holds(m, bytes + input)
    {
      hide CvAfter, WordsOf;
      CvAfterPrefix(m, bytes, input, blocksCompressed, chunkCounter);
      forall k | 0 <= k < |input| { block[blockLen + k] := input[k]; }
      blockLen := blockLen + |input|;
      assert block[..] == (bytes + input)[64 * blocksCompressed..] + Zeros(64 - blockLen);
    }

    /** The last compression of the chunk, whatever buffering led here. */
    method FinalOutput(ghost m: Mode, ghost bytes: seq<Byte>) returns (o: Output)
      requires Holds(m, bytes)
      ensures o == ChunkOutput(m, bytes, chunkCounter)
    {
      hide WordsOf, CvAfter;
      assert blocksCompressed == LastBlock(|bytes|);
      ghost var last := bytes[64 * blocksCompressed..];
      assert |last| == blockLen;
      assert block[..] == last + Zeros(64 - |last|);
      assert StartFlagHere() == StartFlag(blocksCompressed);
      var words := WordsFromLittleEndianBytes(block[..]);
      o := Output(chainingValue, words, chunkCounter, blockLen,
                  flags + StartFlagHere() + {ChunkEnd});
    }
  }

  /** The words of both children copied into one block. */
  method ParentNode(left: Cv, right: Cv, key: Cv, flags: set<Flag>) returns (o: Output)
    ensures o.cv == key && o.counter == 0 && o.blockLen == 64 && o.flags == flags + {Parent}
    ensures o.block[..8] == left && o.block[8..] == right
  {
    var words := new Word[16](_ => 0);
    var i := 0;
    while i < 8
      invariant 0 <= i <= 8
      invariant forall k :: 0 <= k < i ==> words[k] == left[k] && words[8 + k] == right[k]
    {
      words[i], words[8 + i] := left[i], right[i];
      i := i + 1;
    }
    o := Output(key, words[..], 0, 64, {Parent} + flags);
  }

  lemma ParentNodeIs(m: Mode, left: Cv, right: Cv, o: Output)
    requires o.cv == m.key && o.counter == 0 && o.blockLen == 64 && o.flags == m.flags + {Parent}
    requires o.block[..8] == left && o.block[8..] == right
    ensures o == ParentOutput(m, left, right)
  {
    assert o.block == o.block[..8] + o.block[8..];
  }

  class Hasher {
    const f: Compression
    const keyWords: Cv
    const flags: set<Flag>
    const chunk: ChunkState
    const cvStack: array<Cv>
    var cvStackLen: nat
    /** Everything passed to Update so far. */
    ghost var data: seq<Byte>

    ghost function M(): Mode { Mode(keyWords, flags, f) }

    /** The current chunk is a lazy tail: nonempty once an earlier chunk was completed. */
    ghost predicate Valid()
      reads this, chunk, chunk.block, cvStack
    {
      Between(chunk.chunkCounter) && chunk.Len() <= 1024 && (chunk.chunkCounter > 0 ==> chunk.Len() > 0)
    }

    /**
     n chunks are complete, the rest of the data is in the chunk state, and the stack holds one
     subtree root per set bit of n.
     */
    ghost predicate Between(n: nat)
      reads this, chunk, chunk.block, cvStack
    {
      && |data| < 0x1_0000_0000_0000_0000 && cvStack.Length == 54
      && n == chunk.chunkCounter && |data| == 1024 * n + chunk.Len()
      && chunk.Holds(M(), data[1024 * n..])
      && cvStackLen == SetBits(n) <= 54
      && cvStack[..cvStackLen] == Roots(M(), data[..1024 * n], 1024, n)
    }

    constructor (keyWords: Cv, flags: set<Flag>, f: Compression)
      ensures Valid() && data == [] && M() == Mode(keyWords, flags, f)
      ensures fresh(chunk) && fresh(chunk.block) && fresh(cvStack)
    {
      this.f := f;
      this.keyWords := keyWords;
      this.flags := flags;
      chunk := new ChunkState(keyWords, flags, f);
      cvStack := new Cv[54](_ => keyWords);
      cvStackLen := 0;
      data := [];
    }

    /**
     Add the chaining value of chunk number total - 1. The chunks so far are done + last; each
     trailing zero bit of total merges the top of the stack with the new value.
     */
    method AddChunkCv(newCv: Cv, totalChunks: nat, ghost done: seq<Byte>, ghost last: seq<Byte>)
      requires cvStack.Length == 54 && 0 < totalChunks < Pow2(54)
      requires |done| == 1024 * (totalChunks - 1) && |last| == 1024
      requires cvStackLen == SetBits(totalChunks - 1) <= 54
      requires cvStack[..cvStackLen] == Roots(M(), done, 1024, totalChunks - 1)
      requires newCv == ChainingValue(M(), TreeOutput(M(), last, totalChunks - 1))
      modifies this`cvStackLen, cvStack
      ensures cvStackLen == SetBits(totalChunks) <= 54
      ensures cvStack[..cvStackLen] == Roots(M(), done + last, 1024, totalChunks)
    {
      hide Pending, Roots, SetBits, ParentOutput, ChainingValue, TreeOutput;
      var cv, total := newCv, totalChunks;
      ghost var q: nat, lower, piece := 1024, done, last;
      SetBitsBound(totalChunks, 54);
      hide Pow2;
      PendingStart(M(), done, last, totalChunks, cvStack[..cvStackLen], cv);
      while total % 2 == 0
        invariant cvStackLen <= 54
        invariant Pending(M(), done + last, totalChunks, lower, piece, q, total, cvStack[..cvStackLen], cv)
        decreases total
      {
        PendingMerge(M(), done + last, totalChunks, lower, piece, q, total, cvStack[..cvStackLen], cv);
        cvStackLen := cvStackLen - 1;
        assert cvStack[..cvStackLen] == cvStack[..cvStackLen + 1][..cvStackLen];
        cv := ParentCv(cvStack[cvStackLen], cv);
        ghost var cut := |lower| - q;
        lower, piece, q, total := lower[..cut], lower[cut..] + piece, 2 * q, total / 2;
      }
      PendingPush(M(), done + last, totalChunks, lower, piece, q, total, cvStack[..cvStackLen], cv);
      cvStack[cvStackLen] := cv;
      cvStackLen := cvStackLen + 1;
      assert cvStack[..cvStackLen] == cvStack[..cvStackLen - 1] + [cv];
    }

    method ParentCv(left: Cv, right: Cv) returns (cv: Cv)
      ensures cv == ChainingValue(M(), ParentOutput(M(), left, right))
    {
      hide ParentOutput, ChainingValue;
      var node := ParentNode(left, right, keyWords, flags);
      ParentNodeIs(M(), left, right, node);
      cv := CvOf(node);
    }

    method Update(input: seq<Byte>)
      requires Valid() && |data| + |input| < 0x1_0000_0000_0000_0000
      modifies this, chunk, chunk.block, cvStack
      ensures Valid() && data == old(data) + input
    {
      hide Between;
      var i := 0;
      assert old(data) + input[..0] == old(data);
      while i < |input|
        invariant 0 <= i <= |input|
        invariant Valid() && data == old(data) + input[..i]
      {
        if chunk.Len() == 1024 { CompleteChunk(); }
        var want := 1024 - chunk.Len();
        var take := if |input| - i < want then |input| - i else want;
        Absorb(input[i..i + take]);
        assert old(data) + input[..i] + input[i..i + take] == old(data) + input[..i + take];
        i := i + take;
      }
      assert input[..i] == input;
    }

    /** Turn the full current chunk into a stack entry and start the next, still empty, one. */
    method CompleteChunk()
      requires Valid() && chunk.Len() == 1024
      modifies this`cvStackLen, chunk, chunk.block, cvStack
      ensures chunk.chunkCounter == old(chunk.chunkCounter) + 1 && chunk.Len() == 0
      ensures data == old(data) && Between(chunk.chunkCounter)
    {
      hide TreeOutput, ChainingValue, Roots, SetBits;
      ghost var n := chunk.chunkCounter;
      ghost var done, tail := data[..1024 * n], data[1024 * n..];
      assert done + tail == data && data[..1024 * (n + 1)] == data && data[1024 * (n + 1)..] == [];
      var output := chunk.FinalOutput(M(), tail);
      TreeOutputOfChunk(M(), tail, n);
      var chunkCv := CvOf(output);
      var totalChunks := chunk.chunkCounter + 1;
      PowerOfTwo54();
      hide Pow2, Extent;
      AddChunkCv(chunkCv, totalChunks, done, tail);
      chunk.Init(keyWords, totalChunks, flags);
    }

    method Absorb(input: seq<Byte>)
      requires Between(chunk.chunkCounter) && 0 < |input| <= 1024 - chunk.Len()
      requires |data| + |input| < 0x1_0000_0000_0000_0000
      modifies this`data, chunk, chunk.block
      ensures Valid() && data == old(data) + input
    {
      ghost var n, tail := chunk.chunkCounter, data[1024 * chunk.chunkCounter..];
      assert chunk.Len() == |tail|;
      hide Roots, SetBits, ChunkState.Holds;
      chunk.Update(M(), tail, input);
      AppendSlices(data, input, 1024 * n);
      assert cvStack[..cvStackLen] == old(cvStack[..cvStackLen]);
      data := data + input;
    }

    function CvOf(o: Output): (cv: Cv)
      ensures cv == ChainingValue(M(), o)
    {
      f(o.cv, o.block, o.counter, o.blockLen, o.flags)[..8]
    }

    method Finalize(out: array<Byte>)
      requires Valid() && out != chunk.block
      modifies out
      ensures out[..] == Hash(M(), data, out.Length)
    {
      hide TreeOutput, ChainingValue, Roots, SetBits, ParentOutput;
      ghost var n := chunk.chunkCounter;
      ghost var done, tail := data[..1024 * n], data[1024 * n..];
      TreeOutputOfChunk(M(), tail, n);
      var current := chunk.FinalOutput(M(), tail);
      FoldRootsIsTree(M(), done, tail, 1024, n);
      assert done + tail == data;
      var remaining := cvStackLen;
      while remaining > 0
        invariant 0 <= remaining <= cvStackLen
        invariant FoldRoots(M(), cvStack[..remaining], current) == TreeOutput(M(), data, 0)
      {
        remaining := remaining - 1;
        assert cvStack[..remaining + 1] == cvStack[..remaining] + [cvStack[remaining]];
        FoldRootsLast(M(), cvStack[..remaining], cvStack[remaining], current);
        var node := ParentNode(cvStack[remaining], CvOf(current), keyWords, flags);
        ParentNodeIs(M(), cvStack[remaining], CvOf(current), node);
        current := node;
      }
      WriteRootBytes(Mode(keyWords, flags, f), current, out);
    }
  }

  lemma AppendSlices(a: seq<Byte>, b: seq<Byte>, k: nat)
    requires k <= |a|
    ensures (a + b)[..k] == a[..k] && (a + b)[k..] == a[k..] + b
  {
  }

  lemma TreeOutputOfChunk(m: Mode, bytes: seq<Byte>, index: nat)
    requires |bytes| <= 1024
    ensures TreeOutput(m, bytes, index) == ChunkOutput(m, bytes, index)
  {
    hide ChunkOutput;
  }

  lemma RootByteAt(m: Mode, o: Output, counter: nat, word: nat, byte: nat)
    requires word < 16 && byte < 4
    ensures RootByte(m, o, 64 * counter + 4 * word + byte)
         == ByteOfWord(m.f(o.cv, o.block, counter, o.blockLen, o.flags + {Root})[word], byte)
  {
    hide ByteOfWord;
    BytePosition(counter, word, byte);
  }

  lemma BytePosition(counter: nat, word: nat, byte: nat)
    requires word < 16 && byte < 4
    ensures var i := 64 * counter + 4 * word + byte;
      i / 64 == counter && i % 64 / 4 == word && i % 4 == byte
  {
    var i := 64 * counter + 4 * word + byte;
    DivModUnique(i, 64, counter, 4 * word + byte);
    DivModUnique(4 * word + byte, 4, word, byte);
    DivModUnique(i, 4, 16 * counter + word, byte);
  }

  lemma PowerOfTwo54()
    ensures Pow2(54) == 0x40_0000_0000_0000
  {
    assert Pow2(10) == 1024;
    assert Pow2(20) == 1024 * 1024;
    assert Pow2(30) == 1024 * 1024 * 1024;
    assert Pow2(40) == 1024 * 1024 * 1024 * 1024;
    assert Pow2(50) == 1024 * 1024 * 1024 * 1024 * 1024;
  }

  /** Shifting the word right by eight bits per byte, as the copy loop does. */
  lemma ShiftedByte(w: Word, byte: nat)
    requires byte < 4
    ensures ByteOfWord(w, byte) == w / [1, 0x100, 0x1_0000, 0x100_0000][byte] % 0x100
  {
  }

  method WriteRootBytes(m: Mode, o: Output, out: array<Byte>)
    modifies out
    ensures out[..] == RootBytes(m, o, out.Length)
  {
    hide RootByte, ByteOfWord;
    var i, counter := 0, 0;
    while i < out.Length
      invariant 0 <= i <= out.Length
      invariant i == 64 * counter || i == out.Length
      invariant forall k :: 0 <= k < i ==> out[k] == RootByte(m, o, k)
    {
      var words := m.f(o.cv, o.block, counter, o.blockLen, o.flags + {Root});
      var word := 0;
      while word < 16 && i < out.Length
        invariant 0 <= word <= 16 && i <= out.Length
        invariant i == 64 * counter + 4 * word || (i == out.Length && 64 * counter < i)
        invariant forall k :: 0 <= k < i ==> out[k] == RootByte(m, o, k)
      {
        var byte := 0;
        while byte < 4 && i < out.Length
          invariant 0 <= byte <= 4 && i <= out.Length && i == 64 * counter + 4 * word + byte
          invariant forall k :: 0 <= k < i ==> out[k] == RootByte(m, o, k)
        {
          RootByteAt(m, o, counter, word, byte);
          ShiftedByte(words[word], byte);
          out[i] := words[word] / [1, 0x100, 0x1_0000, 0x100_0000][byte] % 0x100;
          i := i + 1;
          byte := byte + 1;
        }
        word := word + 1;
      }
      counter := counter + 1;
    }
  }

  // ----- whole runs -----

  function Flatten(pieces: seq<seq<Byte>>): seq<Byte> {
    if pieces == [] then [] else Flatten(pieces[..|pieces| - 1]) + pieces[|pieces| - 1]
  }

  /** Any way of cutting the input into update calls yields the tree hash of the whole. */
  method HashInPieces(m: Mode, pieces: seq<seq<Byte>>, outLen: nat) returns (out: seq<Byte>)
    requires |Flatten(pieces)| < 0x1_0000_0000_0000_0000
    ensures out == Hash(m, Flatten(pieces), outLen)
  {
    hide Hash, Hasher.Valid;
    var h := new Hasher(m.key, m.flags, m.f);
    var i := 0;
    assert pieces[..|pieces|] == pieces && Flatten(pieces[..0]) == [];
    hide Flatten;
    while i < |pieces|
      invariant 0 <= i <= |pieces| && h.Valid() && h.M() == m
      invariant h.data == Flatten(pieces[..i])
      invariant fresh(h) && fresh(h.chunk) && fresh(h.chunk.block) && fresh(h.cvStack)
    {
      FlattenNext(pieces, i);
      FlattenPrefix(pieces, i + 1);
      h.Update(pieces[i]);
      i := i + 1;
    }
    var buffer := new Byte[outLen];
    h.Finalize(buffer);
    out := buffer[..];
  }

  lemma FlattenNext(pieces: seq<seq<Byte>>, i: nat)
    requires i < |pieces|
    ensures Flatten(pieces[..i + 1]) == Flatten(pieces[..i]) + pieces[i]
  {
    assert pieces[..i + 1][..i] == pieces[..i];
  }

  lemma {:induction false} FlattenPrefix(pieces: seq<seq<Byte>>, i: nat)
    requires i <= |pieces|
    ensures |Flatten(pieces[..i])| <= |Flatten(pieces)|
    decreases |pieces|
  {
    if i == |pieces| {
      assert pieces[..i] == pieces;
    } else {
      assert pieces[..|pieces| - 1][..i] == pieces[..i];
      FlattenPrefix(pieces[..|pieces| - 1], i);
    }
  }
}
