/**
 The last checks before a share is sent: the recomputed hash against the target it was mined
 under, then the vardiff guard against the live target.
 */
module ShareGuard {
  import opened Words
  import opened CompactTarget
  import opened TargetBytes
  import opened TargetConvert

  type Hash32 = Bytes32

  /**
   What the host rebuilds for a share: the opened leaves, both Merkle proofs with their roots and
   whether each verifies, and the root of the stored B tree.
   */
  datatype Rebuilt = Rebuilt(leaves: seq<Byte>, aVerified: bool, treeRoot: Hash32, bVerified: bool,
                             aRoot: seq<Byte>, bRoot: seq<Byte>)

  /**
   A queued share. hashA, hashB and reported are what the device filled in, all zero when it did
   not; recomputed is the hash the host derives from the opened rows and columns, built whether a
   proof could be built and addressed.
   */
  datatype Share = Share(hasContext: bool, rebuilt: Rebuilt, hashA: Hash32, hashB: Hash32,
                         recomputed: Hash32, reported: Hash32,
                         installed: Word, jobTarget: Word, daf: nat, built: bool)

  function Mined(s: Share): Word {
    if s.installed != 0 then s.installed else s.jobTarget
  }

  /** The device filled the hash in. */
  predicate Filled(h: Hash32) {
    exists i :: 0 <= i < 32 && h[i] != 0
  }

  predicate Reported(s: Share) {
    Filled(s.reported)
  }

  /** A root has 32 bytes, and they are the device's if the device filled them in. */
  predicate RootAgrees(root: seq<Byte>, device: Hash32) {
    |root| >= 32 && (Filled(device) ==> root[..32] == device)
  }

  predicate ProofsOk(s: Share) {
    var r := s.rebuilt;
    && r.leaves != [] && r.aVerified && r.treeRoot == s.hashB && r.bVerified
    && RootAgrees(r.aRoot, s.hashA) && RootAgrees(r.bRoot, s.hashB)
  }

  predicate Verified(s: Share) {
    ProofsOk(s) && (Reported(s) ==> s.recomputed == s.reported) && Clears(s.recomputed, Mined(s), s.daf)
  }

  /** The guard looks only at a live target tighter than the mined one, and at the reported hash. */
  predicate Guarded(s: Share, live: Word) {
    var guard := Tighter(live, Mined(s));
    guard != 0 && guard != Mined(s) ==> Clears(s.reported, guard, s.daf)
  }

  predicate Sent(s: Share, live: Word) {
    s.hasContext && Verified(s) && Guarded(s, live) && s.built
  }

  // ----- the sender loop -----

  method HashBytesSet(h: Hash32) returns (yes: bool)
    ensures yes == Filled(h)
  {
    var i := 0;
    while i < 32
      invariant 0 <= i <= 32 && forall k :: 0 <= k < i ==> h[k] == 0
    {
      if h[i] != 0 { return true; }
      i := i + 1;
    }
    return false;
  }

  method ProofRootsMatch(r: Rebuilt, hashA: Hash32, hashB: Hash32) returns (ok: bool)
    ensures ok == (RootAgrees(r.aRoot, hashA) && RootAgrees(r.bRoot, hashB))
  {
    if |r.aRoot| < 32 || |r.bRoot| < 32 { return false; }
    var setA := HashBytesSet(hashA);
    if setA && r.aRoot[..32] != hashA { return false; }
    var setB := HashBytesSet(hashB);
    if setB && r.bRoot[..32] != hashB { return false; }
    return true;
  }

  method VerifyShare(s: Share) returns (ok: bool)
    ensures ok == Verified(s)
  {
    hide Clears, Filled, RootAgrees;
    var r := s.rebuilt;
    if r.leaves == [] { return false; }
    if !r.aVerified { return false; }
    if r.treeRoot != s.hashB { return false; }
    if !r.bVerified { return false; }
    ok := ProofRootsMatch(r, s.hashA, s.hashB);
    if !ok { return; }
    var reported := HashBytesSet(s.reported);
    if reported && s.recomputed != s.reported { return false; }
    var mined := if s.installed != 0 then s.installed else s.jobTarget;
    ok := HashClears(s.recomputed, mined, s.daf);
  }

  method PassesGuard(s: Share, live: Word) returns (ok: bool)
    ensures ok == Guarded(s, live)
  {
    hide Clears, Tighter;
    var mined := if s.installed != 0 then s.installed else s.jobTarget;
    var guard := TighterTarget(live, mined);
    if guard != 0 && guard != mined {
      ok := HashClears(s.reported, guard, s.daf);
      return;
    }
    return true;
  }

  /** The shares to send, in order; lives[i] is the live target read for share i. */
  function ToSend(batch: seq<Share>, lives: seq<Word>): seq<Share>
    requires |batch| == |lives|
  {
    if batch == [] then []
    else
      var last := |batch| - 1;
      ToSend(batch[..last], lives[..last]) + if Sent(batch[last], lives[last]) then [batch[last]] else []
  }

  method SendBatch(batch: seq<Share>, lives: seq<Word>) returns (sent: seq<Share>)
    requires |batch| == |lives|
    ensures sent == ToSend(batch, lives)
  {
    hide Verified, Guarded;
    sent := [];
    var i := 0;
    while i < |batch|
      invariant 0 <= i <= |batch| && sent == ToSend(batch[..i], lives[..i])
    {
      var raw := batch[i];
      i := i + 1;
      assert batch[..i][..i - 1] == batch[..i - 1] && lives[..i][..i - 1] == lives[..i - 1];
      if !raw.hasContext { continue; }
      var ok := VerifyShare(raw);
      if !ok { continue; }
      ok := PassesGuard(raw, lives[i - 1]);
      if !ok { continue; }
      if !raw.built { continue; }
      sent := sent + [raw];
    }
    assert batch[..i] == batch && lives[..i] == lives;
  }

  // ----- what a sent share satisfies -----

  /** Every sent share clears its mined target, and the live one if the device reported a hash. */
  lemma SentClears(s: Share, live: Word)
    requires Sent(s, live)
    ensures Clears(s.recomputed, Mined(s), s.daf)
    ensures live != 0 && Reported(s) ==> Clears(s.recomputed, live, s.daf)
  {
    hide Decode, LittleEndian, Scaled, Reported;
    if live != 0 && Tighter(live, Mined(s)) == Mined(s) {
      ScaledMonotone(Decode(Mined(s)), Decode(live), s.daf);
    }
  }

  /** Conversely, a good share is sent: proofs agree, the reported hash is right, and both targets are cleared. */
  lemma GoodIsSent(s: Share, live: Word)
    requires s.hasContext && s.built && ProofsOk(s) && Reported(s) && s.reported == s.recomputed
    requires Clears(s.recomputed, Mined(s), s.daf) && (live != 0 ==> Clears(s.recomputed, live, s.daf))
    ensures Sent(s, live)
  {
    hide Decode, LittleEndian, Scaled, Filled, RootAgrees;
  }

  /** What a sent share proves to the pool agrees with what the device hashed, wherever the device said so. */
  lemma SentProofsAgree(s: Share, live: Word)
    requires Sent(s, live)
    ensures s.rebuilt.aVerified && s.rebuilt.bVerified && s.rebuilt.treeRoot == s.hashB
    ensures Filled(s.hashB) ==> |s.rebuilt.bRoot| >= 32 && s.rebuilt.bRoot[..32] == s.rebuilt.treeRoot
    ensures Filled(s.hashA) ==> |s.rebuilt.aRoot| >= 32 && s.rebuilt.aRoot[..32] == s.hashA
    ensures Reported(s) ==> s.recomputed == s.reported
  {
    hide Clears, Filled, Guarded;
  }

  /** Without a reported hash a tightened target is not enforced: a concrete share that escapes. */
  lemma UnreportedEscapes()
    ensures exists s: Share, live: Word ::
      Sent(s, live) && live != 0 && !Reported(s) && !Clears(s.recomputed, live, s.daf)
  {
    var one: Hash32 := [1] + seq(31, i => 0);
    var zero: Hash32 := seq(32, i => 0);
    var s := Share(true, Rebuilt([0], true, zero, true, zero, zero), zero, zero, one, zero, 0x0300_0001, 0, 1, true);
    var live: Word := 0x0100_0001;
    SmallTargets();
    LittleEndianZeros(zero);
    LittleEndianZeros(one[1..]);
    assert LittleEndian(one) == 1;
    hide Decode, LittleEndian;
    assert !Reported(s) && Mined(s) == 0x0300_0001 && Tighter(live, Mined(s)) == live;
    assert Sent(s, live) && !Clears(s.recomputed, live, s.daf);
  }

  lemma SmallTargets()
    ensures Decode(0x0300_0001) == 1 && Decode(0x0100_0001) == 0
  {
    Pow2Values();
    TopMantissa();
    hide Pow2;
    assert 1 / 0x1_0000 == 0;
  }

  // ----- exactly when the live target is enforced -----

  /** Whatever hash the host recomputes for s, if the share is sent the hash clears the live target. */
  ghost predicate AlwaysClearsLive(s: Share, live: Word) {
    forall h: Hash32 :: Sent(s.(recomputed := h), live) ==> Clears(h, live, s.daf)
  }

  /**
   For a share the host would otherwise send, the live target is enforced for every hash exactly
   when the device reported one or the mined target is no easier.
   */
  lemma LiveEnforcedIff(s: Share, live: Word)
    requires live != 0 && s.hasContext && ProofsOk(s) && s.built
    ensures AlwaysClearsLive(s, live)
       <==> Reported(s) || Scaled(Decode(Mined(s)), s.daf) <= Scaled(Decode(live), s.daf)
  {
    hide Decode, LittleEndian, Scaled, Pow2;
    var bound := Scaled(Decode(Mined(s)), s.daf);
    if Reported(s) || bound <= Scaled(Decode(live), s.daf) {
      forall h: Hash32 | Sent(s.(recomputed := h), live) ensures Clears(h, live, s.daf) {
        SentClears(s.(recomputed := h), live);
      }
    } else {
      var h: Hash32 := ToLittleEndian(bound, 32);
      ToLittleEndianValue(bound, 32);
      UnreportedSent(s.(recomputed := h), live);
      assert Sent(s.(recomputed := h), live) && !Clears(h, live, s.daf);
    }
  }

  lemma UnreportedSent(s: Share, live: Word)
    requires s.hasContext && ProofsOk(s) && s.built && !Reported(s) && Clears(s.recomputed, Mined(s), s.daf)
    ensures Sent(s, live)
  {
    LittleEndianZeros(s.reported);
    hide LittleEndian, Decode, Scaled;
  }
}
