/** The protobuf share submission with its nested Merkle proofs, and a reader that recovers it. */
module ShareProto {
  import opened Arithmetic
  import opened Words
  import opened Wrappers
  import opened ProtoWire
  import opened ProtoMessages

  /** Leaves and siblings are stored back to back, 1024 and 32 bytes each. */
  datatype Proof = Proof(leafData: seq<Byte>, leafIndices: seq<Word>, totalLeaves: Word, siblings: seq<Byte>)

  const NO_PROOF := Proof([], [], 0, [])

  predicate Whole(p: Proof) {
    |p.leafData| % 1024 == 0 && |p.siblings| % 32 == 0
  }

  // ----- repeated fields -----

  /** data cut into pieces of the given size, one field each; an incomplete rest is dropped. */
  function Pieces(number: Word, data: seq<Byte>, size: nat): seq<Item>
    requires size > 0
    decreases |data|
  {
    if |data| < size then [] else [Bytes(number, data[..size])] + Pieces(number, data[size..], size)
  }

  /** The complete pieces of data. */
  function Kept(data: seq<Byte>, size: nat): seq<Byte>
    requires size > 0
    decreases |data|
  {
    if |data| < size then [] else data[..size] + Kept(data[size..], size)
  }

  /** What the wire format carries of a proof. */
  function Trimmed(p: Proof): Proof {
    p.(leafData := Kept(p.leafData, 1024), siblings := Kept(p.siblings, 32))
  }

  /** All but an incomplete rest is kept, in order. */
  lemma {:induction false} KeptIs(data: seq<Byte>, size: nat)
    requires size > 0
    ensures |data| - |data| % size >= 0 && Kept(data, size) == data[..|data| - |data| % size]
    decreases |data|
  {
    if |data| < size {
      DivModUnique(|data|, size, 0, |data|);
    } else {
      var rest := data[size..];
      QuotientOf(|data|, size, 1, |data| - size);
      KeptIs(rest, size);
      KeptMore(data, size, Kept(rest, size), |rest| % size);
    }
  }

  lemma KeptMore(data: seq<Byte>, size: nat, kept: seq<Byte>, r: nat)
    requires size <= |data| && r <= |data| - size && kept == data[size..][..|data| - size - r]
    ensures data[..size] + kept == data[..|data| - r]
  {
  }

  lemma TrimmedIff(p: Proof)
    ensures Trimmed(p) == p <==> Whole(p)
  {
    hide Kept;
    KeptIs(p.leafData, 1024);
    KeptIs(p.siblings, 32);
  }

  function Indices(number: Word, xs: seq<Word>): seq<Item> {
    if xs == [] then [] else [Fixed32(number, xs[0])] + Indices(number, xs[1..])
  }

  function ProofItems(p: Proof): seq<Item> {
    Pieces(1, p.leafData, 1024)
    + (Indices(2, p.leafIndices) + ([Fixed32(3, p.totalLeaves)] + Pieces(4, p.siblings, 32)))
  }

  function ApplyProof(p: Proof, f: Field): Result<Proof> {
    Ok(if f.number == 1 then p.(leafData := p.leafData + f.data)
       else if f.number == 2 then p.(leafIndices := p.leafIndices + [f.value % 0x1_0000_0000])
       else if f.number == 3 then p.(totalLeaves := f.value % 0x1_0000_0000)
       else if f.number == 4 then p.(siblings := p.siblings + f.data)
       else p)
  }

  lemma FoldStep<M>(apply: (M, Field) -> Result<M>, m: M, next: M, i: Item, rest: seq<Item>)
    requires apply(m, FieldOf(i)) == Ok(next)
    ensures Fold(apply, m, FieldsOf([i] + rest)) == Fold(apply, next, FieldsOf(rest))
  {
    hide Fold, FieldsOf, FieldOf;
    FoldOne(apply, m, i);
    FoldWritten(apply, m, next, [i], rest);
  }

  lemma NoItems<M>(apply: (M, Field) -> Result<M>, m: M)
    ensures Fold(apply, m, FieldsOf([])) == Ok(m)
  {
  }

  lemma {:induction false} LeavesFold(p: Proof, data: seq<Byte>)
    ensures Fold(ApplyProof, p, FieldsOf(Pieces(1, data, 1024)))
         == Ok(p.(leafData := p.leafData + Kept(data, 1024)))
    decreases |data|
  {
    hide Fold, FieldsOf;
    if |data| < 1024 {
      NoItems(ApplyProof, p);
      assert p.leafData + [] == p.leafData;
    } else {
      var next := p.(leafData := p.leafData + data[..1024]);
      FoldStep(ApplyProof, p, next, Bytes(1, data[..1024]), Pieces(1, data[1024..], 1024));
      LeavesFold(next, data[1024..]);
      Regroup(p.leafData, data[..1024], Kept(data[1024..], 1024));
    }
  }

  lemma Regroup(a: seq<Byte>, b: seq<Byte>, c: seq<Byte>)
    ensures a + b + c == a + (b + c)
  {
  }

  lemma {:induction false} SiblingsFold(p: Proof, data: seq<Byte>)
    ensures Fold(ApplyProof, p, FieldsOf(Pieces(4, data, 32))) == Ok(p.(siblings := p.siblings + Kept(data, 32)))
    decreases |data|
  {
    hide Fold, FieldsOf;
    if |data| < 32 {
      NoItems(ApplyProof, p);
      assert p.siblings + [] == p.siblings;
    } else {
      var next := p.(siblings := p.siblings + data[..32]);
      FoldStep(ApplyProof, p, next, Bytes(4, data[..32]), Pieces(4, data[32..], 32));
      SiblingsFold(next, data[32..]);
      Regroup(p.siblings, data[..32], Kept(data[32..], 32));
    }
  }

  lemma {:induction false} IndicesFold(p: Proof, xs: seq<Word>)
    ensures Fold(ApplyProof, p, FieldsOf(Indices(2, xs))) == Ok(p.(leafIndices := p.leafIndices + xs))
    decreases |xs|
  {
    hide Fold, FieldsOf;
    if xs == [] {
      NoItems(ApplyProof, p);
      assert p.leafIndices + xs == p.leafIndices;
    } else {
      var next := p.(leafIndices := p.leafIndices + [xs[0]]);
      FoldStep(ApplyProof, p, next, Fixed32(2, xs[0]), Indices(2, xs[1..]));
      IndicesFold(next, xs[1..]);
      assert p.leafIndices + [xs[0]] + xs[1..] == p.leafIndices + xs;
    }
  }

  lemma ProofFold(p: Proof)
    ensures Fold(ApplyProof, NO_PROOF, FieldsOf(ProofItems(p))) == Ok(Trimmed(p))
  {
    hide Fold, FieldsOf, Pieces, Indices, Kept;
    var leaves, below := Kept(p.leafData, 1024), Kept(p.siblings, 32);
    var siblings := Pieces(4, p.siblings, 32);
    var total := [Fixed32(3, p.totalLeaves)] + siblings;
    var p1 := NO_PROOF.(leafData := leaves);
    assert [] + leaves == leaves && [] + p.leafIndices == p.leafIndices && [] + below == below;
    LeavesFold(NO_PROOF, p.leafData);
    FoldWritten(ApplyProof, NO_PROOF, p1, Pieces(1, p.leafData, 1024), Indices(2, p.leafIndices) + total);
    var p2 := p1.(leafIndices := p.leafIndices);
    IndicesFold(p1, p.leafIndices);
    FoldWritten(ApplyProof, p1, p2, Indices(2, p.leafIndices), total);
    var p3 := p2.(totalLeaves := p.totalLeaves);
    FoldStep(ApplyProof, p2, p3, Fixed32(3, p.totalLeaves), siblings);
    SiblingsFold(p3, p.siblings);
  }

  lemma {:induction false} PiecesWritable(number: Word, data: seq<Byte>, size: nat)
    requires 0 < size < 0x1_0000_0000_0000_0000
    ensures AllWritable(Pieces(number, data, size))
    decreases |data|
  {
    if |data| >= size { PiecesWritable(number, data[size..], size); }
  }

  lemma {:induction false} IndicesWritable(number: Word, xs: seq<Word>)
    ensures AllWritable(Indices(number, xs))
  {
    if xs != [] { IndicesWritable(number, xs[1..]); }
  }

  lemma ProofWritable(p: Proof)
    ensures AllWritable(ProofItems(p))
  {
    hide Pieces, Indices;
    PiecesWritable(1, p.leafData, 1024);
    IndicesWritable(2, p.leafIndices);
    PiecesWritable(4, p.siblings, 32);
    var total: seq<Item> := [Fixed32(3, p.totalLeaves)];
    WritableConcat(total, Pieces(4, p.siblings, 32));
    WritableConcat(Indices(2, p.leafIndices), total + Pieces(4, p.siblings, 32));
    WritableConcat(Pieces(1, p.leafData, 1024), Indices(2, p.leafIndices) + (total + Pieces(4, p.siblings, 32)));
  }

  /** Exactly the whole leaves and siblings of a proof are recovered, so all of it when they are whole. */
  lemma ProofRoundTrip(p: Proof)
    ensures Decode(ApplyProof, NO_PROOF, EncodeAll(ProofItems(p)), 0) == Ok(Trimmed(p))
    ensures Decode(ApplyProof, NO_PROOF, EncodeAll(ProofItems(p)), 0) == Ok(p) <==> Whole(p)
  {
    hide Decode, EncodeAll, ProofItems, Fold, FieldsOf, Trimmed, Whole;
    ProofWritable(p);
    ProofFold(p);
    DecodeWritten(ApplyProof, NO_PROOF, ProofItems(p));
    TrimmedIff(p);
  }

  // ----- the submission -----

  /** tile coordinates are signed 32-bit numbers, written as their unsigned image. */
  datatype Submission = Submission(
    sigma: Text, config: Text, rootA: Text, hashB: Text, sliceA: Text, sliceB: Text, proofA: Proof, proofB: Proof,
    claimed: Text, target: Word, tileRow: Word, tileCol: Word, m: Word, n: Word, bSeed: Text, audit: Text)

  const NO_SHARE := Submission([], [], [], [], [], [], NO_PROOF, NO_PROOF, [], 0, 0, 0, 0, 0, [], [])

  function AuditItems(siblings: Text): seq<Item> {
    [Bytes(1, siblings)]
  }

  function FirstItems(s: Submission): seq<Item> {
    [Bytes(2, s.sigma)] + ([Bytes(3, s.config)] + ([Bytes(4, s.rootA)] + ([Bytes(5, s.hashB)]
    + ([Bytes(6, s.sliceA)] + [Bytes(7, s.sliceB)]))))
  }

  function ProofsItems(s: Submission): seq<Item> {
    [Bytes(8, EncodeAll(ProofItems(s.proofA)))] + [Bytes(9, EncodeAll(ProofItems(s.proofB)))]
  }

  function LastItems(s: Submission): seq<Item> {
    [Bytes(10, s.claimed)] + ([Fixed32(11, s.target)] + ([Number(12, s.tileRow)] + ([Number(13, s.tileCol)]
    + TailItems(s))))
  }

  function TailItems(s: Submission): seq<Item> {
    [Fixed32(14, s.m)] + ([Fixed32(15, s.n)] + ([Bytes(16, s.bSeed)]
    + When(s.audit != [], Bytes(17, EncodeAll(AuditItems(s.audit))))))
  }

  function ShareItems(s: Submission): seq<Item> {
    FirstItems(s) + (ProofsItems(s) + LastItems(s))
  }

  function ApplyAudit(t: Text, f: Field): Result<Text> {
    Ok(if f.number == 1 then f.data else t)
  }

  /** A reader built on the wire reader, nested messages included. */
  function ApplyShare(s: Submission, f: Field): Result<Submission> {
    if f.number == 8 then
      match Decode(ApplyProof, NO_PROOF, f.data, 0)
      case Ok(p) => Ok(s.(proofA := p))
      case Err(e) => Err(e)
    else if f.number == 9 then
      match Decode(ApplyProof, NO_PROOF, f.data, 0)
      case Ok(p) => Ok(s.(proofB := p))
      case Err(e) => Err(e)
    else if f.number == 17 then
      match Decode(ApplyAudit, [], f.data, 0)
      case Ok(t) => Ok(s.(audit := t))
      case Err(e) => Err(e)
    else Ok(ApplyPlain(s, f))
  }

  function ApplyPlain(s: Submission, f: Field): Submission {
    if f.number == 2 then s.(sigma := f.data)
    else if f.number == 3 then s.(config := f.data)
    else if f.number == 4 then s.(rootA := f.data)
    else if f.number == 5 then s.(hashB := f.data)
    else if f.number == 6 then s.(sliceA := f.data)
    else if f.number == 7 then s.(sliceB := f.data)
    else if f.number == 10 then s.(claimed := f.data)
    else if f.number == 11 then s.(target := f.value % 0x1_0000_0000)
    else if f.number == 12 then s.(tileRow := f.value % 0x1_0000_0000)
    else if f.number == 13 then s.(tileCol := f.value % 0x1_0000_0000)
    else if f.number == 14 then s.(m := f.value % 0x1_0000_0000)
    else if f.number == 15 then s.(n := f.value % 0x1_0000_0000)
    else if f.number == 16 then s.(bSeed := f.data)
    else s
  }

  predicate Small(b: seq<Byte>) {
    |b| < 0x1_0000_0000_0000_0000
  }

  function TrimmedShare(s: Submission): Submission {
    s.(proofA := Trimmed(s.proofA), proofB := Trimmed(s.proofB))
  }

  /** Every buffer has fewer than 2^64 bytes. */
  predicate ShareFits(s: Submission) {
    && Small(s.sigma) && Small(s.config) && Small(s.rootA) && Small(s.hashB) && Small(s.sliceA) && Small(s.sliceB)
    && Small(s.claimed) && Small(s.bSeed) && Small(s.audit) && Small(EncodeAll(AuditItems(s.audit)))
    && Small(EncodeAll(ProofItems(s.proofA))) && Small(EncodeAll(ProofItems(s.proofB)))
  }

  lemma AuditRoundTrip(siblings: Text)
    requires Small(siblings)
    ensures Decode(ApplyAudit, [], EncodeAll(AuditItems(siblings)), 0) == Ok(siblings)
  {
    hide Decode, EncodeAll, Fold, FieldsOf;
    DecodeWritten(ApplyAudit, [], AuditItems(siblings));
    FoldOne(ApplyAudit, [], Bytes(1, siblings));
  }

  lemma FirstFold(s: Submission)
    ensures Fold(ApplyShare, NO_SHARE, FieldsOf(FirstItems(s)))
         == Ok(NO_SHARE.(sigma := s.sigma, config := s.config, rootA := s.rootA, hashB := s.hashB,
                         sliceA := s.sliceA, sliceB := s.sliceB))
  {
    hide Fold, FieldsOf, Decode;
    var t7 := [Bytes(7, s.sliceB)];
    var t6 := [Bytes(6, s.sliceA)] + t7;
    var t5 := [Bytes(5, s.hashB)] + t6;
    var t4 := [Bytes(4, s.rootA)] + t5;
    var t3 := [Bytes(3, s.config)] + t4;
    var s2 := NO_SHARE.(sigma := s.sigma);
    FoldStep(ApplyShare, NO_SHARE, s2, Bytes(2, s.sigma), t3);
    var s3 := s2.(config := s.config);
    FoldStep(ApplyShare, s2, s3, Bytes(3, s.config), t4);
    var s4 := s3.(rootA := s.rootA);
    FoldStep(ApplyShare, s3, s4, Bytes(4, s.rootA), t5);
    var s5 := s4.(hashB := s.hashB);
    FoldStep(ApplyShare, s4, s5, Bytes(5, s.hashB), t6);
    var s6 := s5.(sliceA := s.sliceA);
    FoldStep(ApplyShare, s5, s6, Bytes(6, s.sliceA), t7);
    FoldOne(ApplyShare, s6, Bytes(7, s.sliceB));
  }

  lemma ProofsFold(s: Submission, from: Submission)
    ensures Fold(ApplyShare, from, FieldsOf(ProofsItems(s)))
         == Ok(from.(proofA := Trimmed(s.proofA), proofB := Trimmed(s.proofB)))
  {
    hide Fold, FieldsOf, Decode, EncodeAll, ProofItems, Trimmed;
    ProofRoundTrip(s.proofA);
    ProofRoundTrip(s.proofB);
    var a, b := EncodeAll(ProofItems(s.proofA)), EncodeAll(ProofItems(s.proofB));
    var s8 := from.(proofA := Trimmed(s.proofA));
    FoldStep(ApplyShare, from, s8, Bytes(8, a), [Bytes(9, b)]);
    FoldOne(ApplyShare, s8, Bytes(9, b));
  }

  lemma TailFold(s: Submission, from: Submission)
    requires Small(s.audit) && from.audit == []
    ensures Fold(ApplyShare, from, FieldsOf(TailItems(s)))
         == Ok(from.(m := s.m, n := s.n, bSeed := s.bSeed, audit := s.audit))
  {
    hide Fold, FieldsOf, Decode, EncodeAll, AuditItems;
    var audit := Bytes(17, EncodeAll(AuditItems(s.audit)));
    var t17 := When(s.audit != [], audit);
    var t16 := [Bytes(16, s.bSeed)] + t17;
    var t15 := [Fixed32(15, s.n)] + t16;
    var s14 := from.(m := s.m);
    FoldStep(ApplyShare, from, s14, Fixed32(14, s.m), t15);
    var s15 := s14.(n := s.n);
    FoldStep(ApplyShare, s14, s15, Fixed32(15, s.n), t16);
    var s16 := s15.(bSeed := s.bSeed);
    FoldStep(ApplyShare, s15, s16, Bytes(16, s.bSeed), t17);
    if s.audit != [] {
      AuditRoundTrip(s.audit);
      FoldOne(ApplyShare, s16, audit);
    } else {
      NoItems(ApplyShare, s16);
    }
  }

  lemma LastFold(s: Submission, from: Submission)
    requires Small(s.audit) && from.audit == []
    ensures Fold(ApplyShare, from, FieldsOf(LastItems(s)))
         == Ok(from.(claimed := s.claimed, target := s.target, tileRow := s.tileRow, tileCol := s.tileCol,
                     m := s.m, n := s.n, bSeed := s.bSeed, audit := s.audit))
  {
    hide Fold, FieldsOf, Decode, TailItems;
    var t14 := TailItems(s);
    var t13 := [Number(13, s.tileCol)] + t14;
    var t12 := [Number(12, s.tileRow)] + t13;
    var t11 := [Fixed32(11, s.target)] + t12;
    var s10 := from.(claimed := s.claimed);
    FoldStep(ApplyShare, from, s10, Bytes(10, s.claimed), t11);
    var s11 := s10.(target := s.target);
    FoldStep(ApplyShare, s10, s11, Fixed32(11, s.target), t12);
    var s12 := s11.(tileRow := s.tileRow);
    FoldStep(ApplyShare, s11, s12, Number(12, s.tileRow), t13);
    var s13 := s12.(tileCol := s.tileCol);
    FoldStep(ApplyShare, s12, s13, Number(13, s.tileCol), t14);
    TailFold(s, s13);
  }

  lemma ShareWritable(s: Submission)
    requires ShareFits(s)
    ensures AllWritable(ShareItems(s))
  {
    hide EncodeAll, ProofItems, AuditItems;
    assert AllWritable(FirstItems(s));
    assert AllWritable(ProofsItems(s));
    assert AllWritable(LastItems(s));
    hide FirstItems, ProofsItems, LastItems, AllWritable;
    WritableConcat(ProofsItems(s), LastItems(s));
    WritableConcat(FirstItems(s), ProofsItems(s) + LastItems(s));
  }

  /**
   A reader on the wire format recovers the submission with the whole pieces of its nested proofs,
   so the submission itself exactly when both proofs consist of whole pieces.
   */
  lemma ShareRoundTrip(s: Submission)
    requires ShareFits(s)
    ensures Decode(ApplyShare, NO_SHARE, EncodeAll(ShareItems(s)), 0) == Ok(TrimmedShare(s))
    ensures Decode(ApplyShare, NO_SHARE, EncodeAll(ShareItems(s)), 0) == Ok(s)
       <==> Whole(s.proofA) && Whole(s.proofB)
  {
    hide Decode, EncodeAll, Fold, FieldsOf, FirstItems, ProofsItems, LastItems, ApplyShare, Trimmed, Whole, ShareFits;
    ShareWritable(s);
    TrimmedIff(s.proofA);
    TrimmedIff(s.proofB);
    assert Small(s.audit) by { FitsAudit(s); }
    DecodeWritten(ApplyShare, NO_SHARE, ShareItems(s));
    var s1 := NO_SHARE.(sigma := s.sigma, config := s.config, rootA := s.rootA, hashB := s.hashB,
                        sliceA := s.sliceA, sliceB := s.sliceB);
    FirstFold(s);
    FoldWritten(ApplyShare, NO_SHARE, s1, FirstItems(s), ProofsItems(s) + LastItems(s));
    var s2 := s1.(proofA := Trimmed(s.proofA), proofB := Trimmed(s.proofB));
    ProofsFold(s, s1);
    FoldWritten(ApplyShare, s1, s2, ProofsItems(s), LastItems(s));
    LastFold(s, s2);
  }

  lemma FitsAudit(s: Submission)
    requires ShareFits(s)
    ensures Small(s.audit)
  {
  }

  // ----- writing -----

  method WritePieces(w: Writer, number: Word, data: seq<Byte>, size: nat)
    requires w.Valid() && 0 < size < 0x1_0000_0000_0000_0000
    modifies w
    ensures w.Valid() && w.items == old(w.items) + Pieces(number, data, size)
  {
    hide EncodeAll;
    var rest := data;
    while |rest| >= size
      invariant w.Valid() && w.items + Pieces(number, rest, size) == old(w.items) + Pieces(number, data, size)
      decreases |rest|
    {
      ghost var before := w.items;
      w.WriteBytes(number, rest[..size]);
      assert before + ([Bytes(number, rest[..size])] + Pieces(number, rest[size..], size))
          == w.items + Pieces(number, rest[size..], size);
      rest := rest[size..];
    }
    assert w.items + [] == w.items;
  }

  method WriteIndices(w: Writer, number: Word, xs: seq<Word>)
    requires w.Valid()
    modifies w
    ensures w.Valid() && w.items == old(w.items) + Indices(number, xs)
  {
    hide EncodeAll;
    var i := 0;
    assert xs[0..] == xs;
    while i < |xs|
      invariant 0 <= i <= |xs| && w.Valid() && w.items + Indices(number, xs[i..]) == old(w.items) + Indices(number, xs)
    {
      ghost var before := w.items;
      w.WriteFixed32(number, xs[i]);
      assert xs[i..][1..] == xs[i + 1..];
      assert before + ([Fixed32(number, xs[i])] + Indices(number, xs[i + 1..]))
          == w.items + Indices(number, xs[i + 1..]);
      i := i + 1;
    }
    assert w.items + [] == w.items;
  }

  method EncodeProof(p: Proof) returns (out: seq<Byte>)
    ensures out == EncodeAll(ProofItems(p))
  {
    hide EncodeAll, Pieces, Indices;
    var w := new Writer();
    WritePieces(w, 1, p.leafData, 1024);
    WriteIndices(w, 2, p.leafIndices);
    w.WriteFixed32(3, p.totalLeaves);
    WritePieces(w, 4, p.siblings, 32);
    assert w.items == ProofItems(p);
    out := w.buf;
  }

  method EncodeShare(s: Submission) returns (out: seq<Byte>)
    requires ShareFits(s)
    ensures out == EncodeAll(ShareItems(s))
  {
    hide EncodeAll, ProofItems;
    var w := new Writer();
    WriteFirst(w, s);
    hide FirstItems, LastItems;
    var a := EncodeProof(s.proofA);
    w.WriteBytes(8, a);
    var b := EncodeProof(s.proofB);
    w.WriteBytes(9, b);
    assert w.items == FirstItems(s) + ProofsItems(s);
    hide ProofsItems;
    WriteLast(w, s);
    assert w.items == ShareItems(s);
    out := w.buf;
  }

  method WriteFirst(w: Writer, s: Submission)
    requires w.Valid() && w.items == [] && ShareFits(s)
    modifies w
    ensures w.Valid() && w.items == FirstItems(s)
  {
    hide EncodeAll, ProofItems;
    w.WriteBytes(2, s.sigma);
    w.WriteBytes(3, s.config);
    w.WriteBytes(4, s.rootA);
    w.WriteBytes(5, s.hashB);
    w.WriteBytes(6, s.sliceA);
    w.WriteBytes(7, s.sliceB);
  }

  method WriteLast(w: Writer, s: Submission)
    requires w.Valid() && ShareFits(s)
    modifies w
    ensures w.Valid() && w.items == old(w.items) + LastItems(s)
  {
    hide EncodeAll, ProofItems;
    w.WriteBytes(10, s.claimed);
    w.WriteFixed32(11, s.target);
    w.WriteNumber(12, s.tileRow);
    w.WriteNumber(13, s.tileCol);
    w.WriteFixed32(14, s.m);
    w.WriteFixed32(15, s.n);
    w.WriteBytes(16, s.bSeed);
    if s.audit != [] {
      var audit := EncodeAudit(s.audit);
      w.WriteBytes(17, audit);
    }
  }

  method EncodeAudit(siblings: Text) returns (out: seq<Byte>)
    requires Small(siblings)
    ensures out == EncodeAll(AuditItems(siblings))
  {
    hide EncodeAll;
    var e := new Writer();
    e.WriteBytes(1, siblings);
    assert e.items == AuditItems(siblings);
    out := e.buf;
  }
}
