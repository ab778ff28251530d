// One-shot issuers, and the seal that binds a target and its anchor to the issuer of one run.
module Issuer {
  import opened Framing
  import EvidenceTree
  import ContentCache

  datatype Anchor = Anchor(
    root: EvidenceTree.Fingerprint, assetRoot: EvidenceTree.Fingerprint, assetPath: bytes, path: bytes, digest: bytes,
    size: int64, mode: uint32, fingerprint: EvidenceTree.Fingerprint, maxBytes: int64)

  datatype Target = Target(
    targetID: bytes, assetID: bytes, observationID: bytes, kind: bytes, subject: bytes, presetStatus: bytes,
    presetAlgorithm: bytes, presetDigest: bytes, rootPath: bytes, relativePath: bytes)

  // SHA-256 of the canonical fields, and of a nonce before it; two are the same when their inputs are.
  datatype Canonical = CanonicalOf(input: bytes)

  datatype Seal = SealOf(nonce: bytes, canonical: Canonical)

  const DOMAIN: bytes := Ascii("ssc-init.local-evidence-target.v1")

  function TargetFields(t: Target): (fs: seq<bytes>)
    ensures |fs| == 10
  {
    [t.targetID, t.assetID, t.observationID, t.kind, t.subject, t.presetStatus, t.presetAlgorithm, t.presetDigest,
     t.rootPath, t.relativePath]
  }

  function AnchorFields(a: Anchor): (fs: seq<bytes>)
    ensures |fs| == 24
  {
    ContentCache.FingerprintFields(a.root) + ContentCache.FingerprintFields(a.assetRoot)
    + [a.assetPath, a.path, a.digest, U64(Unsigned64(a.size)), U32(a.mode)]
    + ContentCache.FingerprintFields(a.fingerprint) + [U64(Unsigned64(a.maxBytes))]
  }

  function CanonicalTarget(t: Target, a: Anchor): Canonical {
    CanonicalOf(Fields([DOMAIN] + TargetFields(t) + AnchorFields(a)))
  }

  /** The strings a caller controls are short enough for their 32-bit lengths. */
  predicate Short(t: Target, a: Anchor) {
    (forall f | f in TargetFields(t) :: |f| < LENGTH_BOUND) && |a.assetPath| < LENGTH_BOUND && |a.path| < LENGTH_BOUND
    && |a.digest| < LENGTH_BOUND
  }

  lemma {:induction false} ShortFits(t: Target, a: Anchor)
    requires Short(t, a)
    ensures Fits([DOMAIN] + TargetFields(t) + AnchorFields(a))
  {}

  lemma TargetFieldsInjective(t: Target, t': Target)
    requires TargetFields(t) == TargetFields(t')
    ensures t == t'
  {
    var a, b := TargetFields(t), TargetFields(t');
    assert forall i | 0 <= i < 10 :: a[i] == b[i];
  }

  lemma {:induction false} AnchorFieldsInjective(a: Anchor, a': Anchor)
    requires AnchorFields(a) == AnchorFields(a')
    ensures a == a'
  {
    var f, g := AnchorFields(a), AnchorFields(a');
    assert f[..6] == ContentCache.FingerprintFields(a.root) && g[..6] == ContentCache.FingerprintFields(a'.root);
    assert f[6..12] == ContentCache.FingerprintFields(a.assetRoot) && g[6..12] == ContentCache.FingerprintFields(a'.assetRoot);
    assert f[17..23] == ContentCache.FingerprintFields(a.fingerprint) && g[17..23] == ContentCache.FingerprintFields(a'.fingerprint);
    ContentCache.FingerprintFieldsInjective(a.root, a'.root);
    ContentCache.FingerprintFieldsInjective(a.assetRoot, a'.assetRoot);
    ContentCache.FingerprintFieldsInjective(a.fingerprint, a'.fingerprint);
    hide ContentCache.FingerprintFields, U64, U32;
    assert f[12] == g[12] && f[13] == g[13] && f[14] == g[14] && f[15] == g[15] && f[16] == g[16] && f[23] == g[23];
    U64RoundTrip(Unsigned64(a.size));
    U64RoundTrip(Unsigned64(a'.size));
    U32RoundTrip(a.mode);
    U32RoundTrip(a'.mode);
    U64RoundTrip(Unsigned64(a.maxBytes));
    U64RoundTrip(Unsigned64(a'.maxBytes));
  }

  /** A canonical digest stands for one target with one anchor. */
  lemma {:induction false} CanonicalIsInjective(t: Target, a: Anchor, t': Target, a': Anchor)
    requires Short(t, a) && Short(t', a')
    ensures CanonicalTarget(t, a) == CanonicalTarget(t', a') <==> t == t' && a == a'
  {
    hide AnchorFields, TargetFields, Short;
    var f, g := [DOMAIN] + TargetFields(t) + AnchorFields(a), [DOMAIN] + TargetFields(t') + AnchorFields(a');
    ShortFits(t, a);
    ShortFits(t', a');
    ReadFieldsInverse(f);
    ReadFieldsInverse(g);
    if Fields(f) == Fields(g) {
      assert f == g && f[1..11] == TargetFields(t) && g[1..11] == TargetFields(t');
      assert f[11..] == AnchorFields(a) && g[11..] == AnchorFields(a');
      TargetFieldsInjective(t, t');
      AnchorFieldsInjective(a, a');
    }
  }

  class Issuer {
    var nonce: bytes
    var active: bool

    constructor (random: bytes)
      ensures active && nonce == random
    {
      nonce, active := random, true;
    }

    /** Attaches a proof of the target as it is now; an inactive issuer attaches none. */
    method Issue(t: Target, a: Anchor) returns (proof: Proof?)
      ensures active <==> proof != null
      ensures proof != null ==> fresh(proof) && proof.Stands() && proof.issuer == this && proof.issued == t && proof.anchor == a
    {
      proof := null;
      if active { proof := new Proof(this, t, a); }
    }

    method ClearRuntime()
      modifies this
      ensures !active && nonce == seq(|old(nonce)|, _ => 0)
    {
      nonce, active := seq(|nonce|, _ => 0), false;
    }
  }

  class Proof {
    var issuer: Issuer?
    var canonical: Option<Canonical>
    var seal: Option<Seal>
    var anchor: Anchor
    ghost var issued: Target

    /** As issued, as long as neither the proof nor its issuer has been cleared. */
    ghost predicate Stands()
      reads this, issuer
    {
      issuer != null && issuer.active ==>
        canonical == Some(CanonicalTarget(issued, anchor)) && seal == Some(SealOf(issuer.nonce, CanonicalTarget(issued, anchor)))
    }

    constructor (owner: Issuer, t: Target, a: Anchor)
      ensures Stands() && issuer == owner && issued == t && anchor == a
    {
      var c := CanonicalTarget(t, a);
      issuer, anchor, canonical, seal, issued := owner, a, Some(c), Some(SealOf(owner.nonce, c)), t;
    }

    method ClearRuntime()
      modifies this
      ensures Stands() && issuer == null
    {
      issuer, canonical, seal := null, None, None;
    }
  }

  /**
   * verifyIssuedTarget: the anchor comes back exactly when the expected issuer is still active, the proof is its
   * own, and the target's canonical form is the one that was sealed.
   */
  method VerifyIssuedTarget(t: Target, proof: Proof?, expected: Issuer?) returns (anchor: Option<Anchor>)
    requires proof != null ==> proof.Stands()
    ensures anchor.Some? <==>
              && proof != null && expected != null && expected.active && proof.issuer == expected
              && CanonicalTarget(t, proof.anchor) == CanonicalTarget(proof.issued, proof.anchor)
    ensures anchor.Some? ==> anchor.value == proof.anchor
  {
    anchor := None;
    if proof == null || expected == null || proof.issuer == null { return; }
    if !expected.active || !proof.issuer.active || proof.issuer != expected { return; }
    var canonical := CanonicalTarget(t, proof.anchor);
    if proof.canonical != Some(canonical) { return; }
    if proof.seal != Some(SealOf(expected.nonce, canonical)) { return; }
    anchor := Some(proof.anchor);
  }

  /** Issuing and verifying agree: only the very target sealed passes, and nothing does once the issuer is cleared. */
  method IssueThenVerify(issuer: Issuer, t: Target, a: Anchor, t': Target, expected: Issuer)
    returns (before: Option<Anchor>, after: Option<Anchor>)
    requires issuer.active && Short(t, a) && Short(t', a)
    modifies issuer
    ensures before == (if t' == t && expected == issuer then Some(a) else None)
    ensures after == None
  {
    var proof := issuer.Issue(t, a);
    CanonicalIsInjective(t, a, t', a);
    before := VerifyIssuedTarget(t', proof, expected);
    issuer.ClearRuntime();
    after := VerifyIssuedTarget(t', proof, expected);
  }
}
