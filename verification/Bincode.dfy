/** The bincode form of a plain proof, the reader that recovers it, and the text sent to the pool. */
module Bincode {
  import opened Wrappers
  import opened Words
  import opened TargetBytes
  import opened Slices
  import opened ShareProto
  import Base64

  type Root = Bytes32

  /** A value and the position after it. */
  datatype Read<+T> = Read(value: T, pos: nat)

  // ----- primitives -----

  function U64Bytes(v: nat): (s: seq<Byte>)
    ensures |s| == 8
  {
    ToLittleEndian(v, 8)
  }

  function ReadU64(s: seq<Byte>, pos: nat): Result<Read<nat>> {
    if pos + 8 > |s| then Err("truncated") else Ok(Read(LittleEndian(s[pos..pos + 8]), pos + 8))
  }

  function ReadBytes(s: seq<Byte>, pos: nat, n: nat): Result<Read<seq<Byte>>> {
    if pos + n > |s| then Err("truncated") else Ok(Read(s[pos..pos + n], pos + n))
  }

  lemma U64At(v: U64, s: seq<Byte>, pos: nat)
    requires At(s, pos, U64Bytes(v))
    ensures ReadU64(s, pos) == Ok(Read(v, pos + 8))
  {
    hide Pow2, LittleEndian, ToLittleEndian;
    SixtyFour();
    ToLittleEndianValue(v, 8);
  }

  lemma BytesAt(b: seq<Byte>, s: seq<Byte>, pos: nat)
    requires At(s, pos, b)
    ensures ReadBytes(s, pos, |b|) == Ok(Read(b, pos + |b|))
  {
  }

  // ----- lists -----

  /** Leaves, each behind its length. */
  function LeafBytes(data: seq<Byte>): seq<Byte>
    decreases |data|
  {
    if |data| < 1024 then [] else U64Bytes(1024) + (data[..1024] + LeafBytes(data[1024..]))
  }

  function ReadLeaves(s: seq<Byte>, pos: nat, count: nat): Result<Read<seq<Byte>>>
    decreases count
  {
    if count == 0 then Ok(Read([], pos))
    else
      match ReadU64(s, pos)
      case Err(e) => Err(e)
      case Ok(len) =>
        match ReadBytes(s, len.pos, len.value)
        case Err(e) => Err(e)
        case Ok(leaf) =>
          match ReadLeaves(s, leaf.pos, count - 1)
          case Err(e) => Err(e)
          case Ok(rest) => Ok(Read(leaf.value + rest.value, rest.pos))
  }

  function IndexBytes(xs: seq<Word>): seq<Byte> {
    if xs == [] then [] else U64Bytes(xs[0]) + IndexBytes(xs[1..])
  }

  function ReadIndices(s: seq<Byte>, pos: nat, count: nat): Result<Read<seq<nat>>>
    decreases count
  {
    if count == 0 then Ok(Read([], pos))
    else
      match ReadU64(s, pos)
      case Err(e) => Err(e)
      case Ok(x) =>
        match ReadIndices(s, x.pos, count - 1)
        case Err(e) => Err(e)
        case Ok(rest) => Ok(Read([x.value] + rest.value, rest.pos))
  }

  lemma LeafCount(data: seq<Byte>)
    requires |data| >= 1024
    ensures |data| / 1024 == |data[1024..]| / 1024 + 1
  {
  }

  lemma {:induction false} LeavesRoundTrip(data: seq<Byte>, s: seq<Byte>, pos: nat)
    requires At(s, pos, LeafBytes(data))
    ensures ReadLeaves(s, pos, |data| / 1024) == Ok(Read(Kept(data, 1024), pos + |LeafBytes(data)|))
    decreases |data|
  {
    hide At, U64Bytes, ReadU64, ReadBytes;
    if |data| >= 1024 {
      var leaf, rest := data[..1024], LeafBytes(data[1024..]);
      LeafCount(data);
      AtSplit(s, pos, U64Bytes(1024), leaf + rest);
      AtSplit(s, pos + 8, leaf, rest);
      U64At(1024, s, pos);
      BytesAt(leaf, s, pos + 8);
      LeavesRoundTrip(data[1024..], s, pos + 8 + 1024);
    }
  }

  lemma {:induction false} IndicesRoundTrip(xs: seq<Word>, s: seq<Byte>, pos: nat)
    requires At(s, pos, IndexBytes(xs))
    ensures ReadIndices(s, pos, |xs|) == Ok(Read(xs, pos + |IndexBytes(xs)|))
    decreases |xs|
  {
    hide At, U64Bytes, ReadU64;
    if xs != [] {
      AtSplit(s, pos, U64Bytes(xs[0]), IndexBytes(xs[1..]));
      U64At(xs[0], s, pos);
      IndicesRoundTrip(xs[1..], s, pos + 8);
      assert [xs[0]] + xs[1..] == xs;
    }
  }

  // ----- one matrix proof -----

  /** A Merkle proof with its root and the opened rows or columns. */
  datatype MatrixProof = MatrixProof(proof: Proof, root: Root, lines: seq<Word>)

  /** What the reader recovers: the whole leaves and siblings, and everything else. */
  datatype Seen = Seen(leafData: seq<Byte>, leafIndices: seq<nat>, totalLeaves: nat, root: seq<Byte>,
                       siblings: seq<Byte>, lines: seq<nat>)

  function SeenOf(p: MatrixProof): Seen {
    var kept := Trimmed(p.proof);
    Seen(kept.leafData, kept.leafIndices, kept.totalLeaves, p.root, kept.siblings, p.lines)
  }

  function LeafPart(p: MatrixProof): seq<Byte> {
    U64Bytes(|p.proof.leafData| / 1024) + LeafBytes(p.proof.leafData)
  }

  function IndexPart(xs: seq<Word>): seq<Byte> {
    U64Bytes(|xs|) + IndexBytes(xs)
  }

  /** Siblings are written without lengths, whole ones only. */
  function SiblingPart(siblings: seq<Byte>): seq<Byte> {
    U64Bytes(|siblings| / 32) + siblings[..|siblings| / 32 * 32]
  }

  function MatrixBytes(p: MatrixProof): seq<Byte> {
    LeafPart(p) + (IndexPart(p.proof.leafIndices) + (U64Bytes(p.proof.totalLeaves) + (p.root
    + (SiblingPart(p.proof.siblings) + IndexPart(p.lines)))))
  }

  predicate MatrixFits(p: MatrixProof) {
    && |p.proof.leafData| < 0x1_0000_0000_0000_0000 && |p.proof.siblings| < 0x1_0000_0000_0000_0000
    && |p.proof.leafIndices| < 0x1_0000_0000_0000_0000 && |p.lines| < 0x1_0000_0000_0000_0000
  }

  function ReadLeafPart(s: seq<Byte>, pos: nat): Result<Read<seq<Byte>>> {
    match ReadU64(s, pos)
    case Err(e) => Err(e)
    case Ok(n) => ReadLeaves(s, n.pos, n.value)
  }

  function ReadIndexPart(s: seq<Byte>, pos: nat): Result<Read<seq<nat>>> {
    match ReadU64(s, pos)
    case Err(e) => Err(e)
    case Ok(n) => ReadIndices(s, n.pos, n.value)
  }

  function ReadSiblingPart(s: seq<Byte>, pos: nat): Result<Read<seq<Byte>>> {
    match ReadU64(s, pos)
    case Err(e) => Err(e)
    case Ok(n) => ReadBytes(s, n.pos, n.value * 32)
  }

  function ReadMatrix(s: seq<Byte>, pos: nat): Result<Read<Seen>> {
    match ReadLeafPart(s, pos)
    case Err(e) => Err(e)
    case Ok(leaves) =>
      match ReadIndexPart(s, leaves.pos)
      case Err(e) => Err(e)
      case Ok(indices) =>
        match ReadU64(s, indices.pos)
        case Err(e) => Err(e)
        case Ok(total) =>
          match ReadBytes(s, total.pos, 32)
          case Err(e) => Err(e)
          case Ok(root) =>
            match ReadSiblingPart(s, root.pos)
            case Err(e) => Err(e)
            case Ok(siblings) =>
              match ReadIndexPart(s, siblings.pos)
              case Err(e) => Err(e)
              case Ok(lines) =>
                Ok(Read(Seen(leaves.value, indices.value, total.value, root.value, siblings.value, lines.value),
                        lines.pos))
  }

  lemma LeafPartAt(p: MatrixProof, s: seq<Byte>, pos: nat)
    requires MatrixFits(p) && At(s, pos, LeafPart(p))
    ensures ReadLeafPart(s, pos) == Ok(Read(Kept(p.proof.leafData, 1024), pos + |LeafPart(p)|))
  {
    hide At, U64Bytes, ReadU64, LeafBytes, ReadLeaves, Kept;
    AtSplit(s, pos, U64Bytes(|p.proof.leafData| / 1024), LeafBytes(p.proof.leafData));
    U64At(|p.proof.leafData| / 1024, s, pos);
    LeavesRoundTrip(p.proof.leafData, s, pos + 8);
  }

  lemma IndexPartAt(xs: seq<Word>, s: seq<Byte>, pos: nat)
    requires |xs| < 0x1_0000_0000_0000_0000 && At(s, pos, IndexPart(xs))
    ensures ReadIndexPart(s, pos) == Ok(Read(xs, pos + |IndexPart(xs)|))
  {
    hide At, U64Bytes, ReadU64, IndexBytes, ReadIndices;
    AtSplit(s, pos, U64Bytes(|xs|), IndexBytes(xs));
    U64At(|xs|, s, pos);
    IndicesRoundTrip(xs, s, pos + 8);
  }

  lemma SiblingPartAt(siblings: seq<Byte>, s: seq<Byte>, pos: nat)
    requires |siblings| < 0x1_0000_0000_0000_0000 && At(s, pos, SiblingPart(siblings))
    ensures ReadSiblingPart(s, pos) == Ok(Read(Kept(siblings, 32), pos + |SiblingPart(siblings)|))
  {
    hide At, U64Bytes, ReadU64, ReadBytes, Kept;
    var n := |siblings| / 32;
    KeptIs(siblings, 32);
    var kept := siblings[..n * 32];
    assert |siblings| - |siblings| % 32 == n * 32;
    AtSplit(s, pos, U64Bytes(n), kept);
    U64At(n, s, pos);
    BytesAt(kept, s, pos + 8);
  }

  lemma MatrixRoundTrip(p: MatrixProof, s: seq<Byte>, pos: nat)
    requires MatrixFits(p) && At(s, pos, MatrixBytes(p))
    ensures ReadMatrix(s, pos) == Ok(Read(SeenOf(p), pos + |MatrixBytes(p)|))
  {
    hide At, U64Bytes, ReadU64, ReadBytes, LeafPart, IndexPart, SiblingPart, ReadLeafPart, ReadIndexPart,
         ReadSiblingPart, Kept;
    var lines := IndexPart(p.lines);
    var siblings := SiblingPart(p.proof.siblings) + lines;
    var root := p.root + siblings;
    var total := U64Bytes(p.proof.totalLeaves) + root;
    var indices := IndexPart(p.proof.leafIndices) + total;
    AtSplit(s, pos, LeafPart(p), indices);
    LeafPartAt(p, s, pos);
    var at1 := pos + |LeafPart(p)|;
    AtSplit(s, at1, IndexPart(p.proof.leafIndices), total);
    IndexPartAt(p.proof.leafIndices, s, at1);
    var at2 := at1 + |IndexPart(p.proof.leafIndices)|;
    AtSplit(s, at2, U64Bytes(p.proof.totalLeaves), root);
    U64At(p.proof.totalLeaves, s, at2);
    AtSplit(s, at2 + 8, p.root, siblings);
    BytesAt(p.root, s, at2 + 8);
    AtSplit(s, at2 + 40, SiblingPart(p.proof.siblings), lines);
    SiblingPartAt(p.proof.siblings, s, at2 + 40);
    IndexPartAt(p.lines, s, at2 + 40 + |SiblingPart(p.proof.siblings)|);
  }

  // ----- the plain proof -----

  datatype PlainProof = PlainProof(m: U64, n: U64, k: U64, r: U64, a: MatrixProof, b: MatrixProof)

  datatype SeenProof = SeenProof(m: nat, n: nat, k: nat, r: nat, a: Seen, b: Seen)

  function Header(p: PlainProof): seq<Byte> {
    U64Bytes(p.m) + (U64Bytes(p.n) + (U64Bytes(p.k) + U64Bytes(p.r)))
  }

  function Suffix(version: int): seq<Byte> {
    if version >= 2 then [0] else []
  }

  function PlainBytes(p: PlainProof, version: int): seq<Byte> {
    Header(p) + (MatrixBytes(p.a) + (MatrixBytes(p.b) + Suffix(version)))
  }

  function ReadHeader(s: seq<Byte>): Result<(nat, nat, nat, nat)> {
    match ReadU64(s, 0)
    case Err(e) => Err(e)
    case Ok(m) =>
      match ReadU64(s, m.pos)
      case Err(e) => Err(e)
      case Ok(n) =>
        match ReadU64(s, n.pos)
        case Err(e) => Err(e)
        case Ok(k) =>
          match ReadU64(s, k.pos)
          case Err(e) => Err(e)
          case Ok(r) => Ok((m.value, n.value, k.value, r.value))
  }

  /** Dimensions, both matrix proofs, and whatever follows them. */
  function ReadPlain(s: seq<Byte>): Result<(SeenProof, seq<Byte>)> {
    match ReadHeader(s)
    case Err(e) => Err(e)
    case Ok(h) =>
      match ReadMatrix(s, 32)
      case Err(e) => Err(e)
      case Ok(a) =>
        match ReadMatrix(s, a.pos)
        case Err(e) => Err(e)
        case Ok(b) =>
          if b.pos > |s| then Err("truncated")
          else Ok((SeenProof(h.0, h.1, h.2, h.3, a.value, b.value), s[b.pos..]))
  }

  lemma HeaderAt(p: PlainProof, s: seq<Byte>)
    requires At(s, 0, Header(p))
    ensures ReadHeader(s) == Ok((p.m, p.n, p.k, p.r))
  {
    hide At, U64Bytes, ReadU64;
    AtSplit(s, 0, U64Bytes(p.m), U64Bytes(p.n) + (U64Bytes(p.k) + U64Bytes(p.r)));
    AtSplit(s, 8, U64Bytes(p.n), U64Bytes(p.k) + U64Bytes(p.r));
    AtSplit(s, 16, U64Bytes(p.k), U64Bytes(p.r));
    U64At(p.m, s, 0);
    U64At(p.n, s, 8);
    U64At(p.k, s, 16);
    U64At(p.r, s, 24);
  }

  lemma HeaderLength(p: PlainProof)
    ensures |Header(p)| == 32
  {
    hide U64Bytes;
  }

  lemma AtStart(s: seq<Byte>)
    ensures At(s, 0, s)
  {
  }

  lemma TailAt(s: seq<Byte>, pos: nat, t: seq<Byte>)
    requires At(s, pos, t) && pos + |t| == |s|
    ensures pos <= |s| && s[pos..] == t
  {
  }

  /** The reader recovers all the format carries, and what is left tells the certificate versions apart. */
  lemma PlainRoundTrip(p: PlainProof, version: int)
    requires MatrixFits(p.a) && MatrixFits(p.b)
    ensures ReadPlain(PlainBytes(p, version))
         == Ok((SeenProof(p.m, p.n, p.k, p.r, SeenOf(p.a), SeenOf(p.b)), Suffix(version)))
  {
    hide At, Header, MatrixBytes, ReadHeader, ReadMatrix, Suffix, MatrixFits;
    var s := PlainBytes(p, version);
    var a, b := MatrixBytes(p.a), MatrixBytes(p.b);
    AtStart(s);
    HeaderLength(p);
    AtSplit(s, 0, Header(p), a + (b + Suffix(version)));
    AtSplit(s, 32, a, b + Suffix(version));
    AtSplit(s, 32 + |a|, b, Suffix(version));
    HeaderAt(p, s);
    MatrixRoundTrip(p.a, s, 32);
    MatrixRoundTrip(p.b, s, 32 + |a|);
    TailAt(s, 32 + |a| + |b|, Suffix(version));
  }

  /** The submitted text is lossless: base64 of bincode. */
  lemma SubmittedTextRoundTrip(p: PlainProof, version: int)
    requires MatrixFits(p.a) && MatrixFits(p.b)
    ensures Base64.Decode(Base64.Encode(PlainBytes(p, version))) == Ok(PlainBytes(p, version))
    ensures ReadPlain(PlainBytes(p, version))
         == Ok((SeenProof(p.m, p.n, p.k, p.r, SeenOf(p.a), SeenOf(p.b)), Suffix(version)))
    ensures (version >= 2) == (Suffix(version) != [])
  {
    hide PlainBytes, ReadPlain, MatrixFits;
    Base64.TextRoundTrip(PlainBytes(p, version));
    PlainRoundTrip(p, version);
  }

  // ----- writing -----

  class Writer {
    var out: seq<Byte>

    constructor ()
      ensures out == []
    {
      out := [];
    }

    method WriteU64(v: nat)
      modifies this
      ensures out == old(out) + U64Bytes(v)
    {
      var i, x := 0, v;
      while i < 8
        invariant 0 <= i <= 8 && x >= 0 && old(out) + U64Bytes(v) == out + ToLittleEndian(x, 8 - i)
      {
        ghost var here := out;
        assert ToLittleEndian(x, 8 - i) == [x % 256] + ToLittleEndian(x / 256, 7 - i);
        out := out + [x % 256];
        assert here + ([x % 256] + ToLittleEndian(x / 256, 7 - i)) == out + ToLittleEndian(x / 256, 7 - i);
        x := x / 256;
        i := i + 1;
      }
      assert out + [] == out;
    }

    method WriteLeaves(data: seq<Byte>)
      modifies this
      ensures out == old(out) + LeafBytes(data)
    {
      hide U64Bytes;
      var rest := data;
      while |rest| >= 1024
        invariant out + LeafBytes(rest) == old(out) + LeafBytes(data)
        decreases |rest|
      {
        ghost var here := out;
        WriteU64(1024);
        out := out + rest[..1024];
        assert here + (U64Bytes(1024) + (rest[..1024] + LeafBytes(rest[1024..]))) == out + LeafBytes(rest[1024..]);
        rest := rest[1024..];
      }
      assert out + [] == out;
    }

    method WriteIndices(xs: seq<Word>)
      modifies this
      ensures out == old(out) + IndexPart(xs)
    {
      hide U64Bytes;
      WriteU64(|xs|);
      ghost var start := out;
      var i := 0;
      assert xs[0..] == xs;
      while i < |xs|
        invariant 0 <= i <= |xs| && out + IndexBytes(xs[i..]) == start + IndexBytes(xs)
      {
        ghost var here := out;
        WriteU64(xs[i]);
        assert xs[i..][1..] == xs[i + 1..];
        assert here + (U64Bytes(xs[i]) + IndexBytes(xs[i + 1..])) == out + IndexBytes(xs[i + 1..]);
        i := i + 1;
      }
      assert out + [] == out;
    }

    method WriteMatrix(p: MatrixProof)
      modifies this
      ensures out == old(out) + MatrixBytes(p)
    {
      hide U64Bytes, LeafBytes, IndexPart;
      WriteU64(|p.proof.leafData| / 1024);
      WriteLeaves(p.proof.leafData);
      WriteIndices(p.proof.leafIndices);
      WriteU64(p.proof.totalLeaves);
      out := out + p.root;
      ghost var front := LeafPart(p) + (IndexPart(p.proof.leafIndices) + (U64Bytes(p.proof.totalLeaves) + p.root));
      assert out == old(out) + front;
      WriteSiblings(p.proof.siblings);
      WriteIndices(p.lines);
      assert front + (SiblingPart(p.proof.siblings) + IndexPart(p.lines)) == MatrixBytes(p);
    }

    method WriteSiblings(siblings: seq<Byte>)
      modifies this
      ensures out == old(out) + SiblingPart(siblings)
    {
      hide U64Bytes;
      var count := |siblings| / 32;
      WriteU64(count);
      ghost var start := out;
      var i := 0;
      while i < count
        invariant 0 <= i <= count && out == start + siblings[..i * 32]
      {
        out := out + siblings[i * 32..i * 32 + 32];
        assert siblings[..i * 32] + siblings[i * 32..i * 32 + 32] == siblings[..(i + 1) * 32];
        i := i + 1;
      }
    }
  }

  method EncodePlain(p: PlainProof, version: int) returns (out: seq<Byte>)
    ensures out == PlainBytes(p, version)
  {
    hide U64Bytes, MatrixBytes;
    var w := new Writer();
    w.WriteU64(p.m);
    w.WriteU64(p.n);
    w.WriteU64(p.k);
    w.WriteU64(p.r);
    assert w.out == Header(p);
    hide Header;
    w.WriteMatrix(p.a);
    w.WriteMatrix(p.b);
    out := w.out;
    if version >= 2 { out := out + [0]; }
  }
}
