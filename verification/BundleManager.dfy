// Install, Rollback, Status and Update as they run: each file operation may
// fail, may do only part of its work, and the process may stop after any effect.
module BundleManager {
  import opened Framing
  import opened CrashSteps
  import opened Bundle

  type Bundles = Directory<nat, Signed>

  datatype Error = ErrInstall | ErrRollback | Cancelled

  datatype Result = Ok(installed: Signed) | Err(error: Error)

  datatype Freshness = Fresh | Stale | Expired | NoBundle | NotReadable

  datatype Status = Status(
    freshness: Freshness, sequence: nat, version: bytes, validUntil: int, digest: Option<Envelope>, keyID: bytes,
    records: nat, malicious: nat, vulnerable: nat)

  const STALE_GRACE: int := 7 * 24 * 3600

  /** No bundle to speak of: the directory is missing, or what it holds could not be read or verified. */
  function NoStatus(freshness: Freshness): Status {
    Status(freshness, 0, [], 0, None, [], 0, 0, 0)
  }

  function Malicious(verdicts: seq<bool>): (n: nat)
    ensures n == multiset(verdicts)[true] && |verdicts| - n == multiset(verdicts)[false]
  {
    assert verdicts != [] ==> verdicts == verdicts[..|verdicts| - 1] + [verdicts[|verdicts| - 1]];
    if verdicts == [] then 0 else Malicious(verdicts[..|verdicts| - 1]) + (if verdicts[|verdicts| - 1] then 1 else 0)
  }

  predicate Available(v: Verifier, family: Family, d: BundleDir) {
    && d.Active().Some? && v.VerifyStored(d.Active().value)
    && d.Active().value.raw.family == family && Some(d.Active().value.raw.sequence) == d.At(Current)
  }

  function StatusOf(v: Verifier, family: Family, d: BundleDir, now: int): Status {
    if !Available(v, family, d) then NoStatus(NotReadable)
    else
      var raw := d.Active().value.raw;
      var verdicts := raw.verdicts.GetOr([]);
      Status(if now <= raw.validUntil then Fresh else if now <= raw.validUntil + STALE_GRACE then Stale else Expired,
             raw.sequence, raw.version, raw.validUntil, Some(raw), raw.keyID,
             |verdicts|, Malicious(verdicts), |verdicts| - Malicious(verdicts))
  }

  lemma PointerPiece(b: Signed, writes: seq<(Pointer, nat)>, i: nat)
    requires i < |writes|
    ensures InstallPlan(b, writes)[PROMOTED + 4 * i..PROMOTED + 4 * i + 4] == Points(WritePointer(writes[i].0, writes[i].1))
  {
    PointsPiece<nat, Signed>(writes, i);
    var points: seq<BundleEffect> := Points(WritePointers(writes));
    assert InstallPlan(b, writes)[PROMOTED + 4 * i..PROMOTED + 4 * i + 4] == points[4 * i..4 * i + 4];
  }

  /** Up to the high-water write, the plan does not depend on the current pointer. */
  lemma PlansShareHead(b: Signed, writes: seq<(Pointer, nat)>, writes': seq<(Pointer, nat)>)
    requires writes != [] && writes' != [] && writes[0] == writes'[0]
    ensures InstallPlan(b, writes)[..PROMOTED + 4] == InstallPlan(b, writes')[..PROMOTED + 4]
  {
    HeadOfPlan(b, writes);
    HeadOfPlan(b, writes');
  }

  lemma HeadOfPlan(b: Signed, writes: seq<(Pointer, nat)>)
    requires writes != []
    ensures InstallPlan(b, writes)[..PROMOTED + 4]
         == PromotePlan(b.raw.sequence, b) + Points(WritePointer(writes[0].0, writes[0].1))
  {
    PointerPiece(b, writes, 0);
    PromoteParts(b.raw.sequence, b, WritePointers(writes));
    var plan := InstallPlan(b, writes);
    assert plan[..PROMOTED] == PromotePlan(b.raw.sequence, b);
    hide InstallPlan, PromotePlan, WritePointer, Points;
    assert plan[..PROMOTED + 4] == plan[..PROMOTED] + plan[PROMOTED..PROMOTED + 4];
  }

  /**
   * What Install did: the high-water mark and current pointer as it read them, and its
   * effects up to where it stopped. It began no effect at all unless the bundle was admitted.
   */
  method Install(bundles: Bundles, v: Verifier, family: Family, given: Option<Signed>, now: int)
    returns (r: Result, ghost began: bool, ghost step: Step)
    requires !bundles.stopped
    modifies bundles
    ensures !began ==> bundles.root == old(bundles.root) && r.Err?
    ensures began ==>
              && given.Some? && step.Install? && step.b == given.value && step.now == now
              && Legal(v, family, old(bundles.root), step)
              && bundles.root == StepFrom(old(bundles.root), step)
    ensures began ==>
              && v.signed(given.value) && given.value.raw.validFrom <= now <= given.value.raw.validUntil
              && given.value.raw.sequence > 0 && given.value.raw.family == family
    ensures given.Some? && v.signed(given.value) && given.value.raw.validFrom <= now <= given.value.raw.validUntil
            && given.value.raw.sequence > 0 && given.value.raw.family == family ==>
              began || r == Err(Cancelled) || r == Err(ErrRollback)
    ensures r == Err(ErrRollback) ==>
              && given.Some? && old(bundles.root).At(Highest).Some?
              && given.value.raw.sequence <= old(bundles.root).At(Highest).value
    ensures bundles.reliable && given.Some?
            && Admitted(v, family, old(bundles.root), given.value, now, old(bundles.root).At(Highest)) ==>
              r.Ok? && step.current == old(bundles.root).At(Current)
    ensures began && !bundles.stopped ==>
              (r.Ok? <==> step.stop == |InstallPlan(step.b, InstallWrites(step.b.raw.sequence, step.current))|)
    ensures r.Ok? ==> !bundles.stopped && began && r.installed == given.value
  {
    hide InstallPlan, InstallWrites, CleansUp;
    began := false;
    ghost var highest: Option<nat> := None;
    step := Rollback(0, 0, []);
    if given.None? || !v.Verify(given.value, now) || given.value.raw.family != family {
      return Err(ErrInstall), began, step;
    }
    var b := given.value;
    var s := b.raw.sequence;
    // Cancellation, the layout and the lock.
    var proceed: bool := *;
    if !bundles.reliable && !proceed { return Err(Cancelled), began, step; }
    var mark := bundles.ReadPointer(Highest);
    highest := mark;
    if mark.Some? {
      if s < mark.value { return Err(ErrRollback), began, step; }
      if s == mark.value {
        var accepted := bundles.ReadVersion(s);
        if accepted.None? || !v.Verify(accepted.value, now) || accepted.value.raw != b.raw {
          return Err(ErrRollback), began, step;
        }
      }
    }
    began := true;
    var ok: bool;
    ghost var done, leftovers;
    ok, done, leftovers := StageAndPromote(bundles, v, b, now);
    ghost var current: Option<nat> := None;
    step := Step.Install(b, now, highest, None, done, leftovers);
    if !ok { return Err(ErrInstall), began, step; }
    ok, current, done, leftovers := SwitchPointers(bundles, old(bundles.root), b);
    step := Step.Install(b, now, highest, current, done, leftovers);
    r := if ok then Ok(b) else Err(ErrInstall);
  }

  /** The staging half of Install. It reaches the promotion, or discards what it staged. */
  method StageAndPromote(bundles: Bundles, v: Verifier, b: Signed, now: int)
    returns (ok: bool, ghost done: nat, ghost leftovers: seq<BundleEffect>)
    requires !bundles.stopped
    modifies bundles
    ensures done <= PROMOTED && (forall e | e in leftovers :: CleansUp(e))
    ensures forall writes ::
              bundles.root == After(After(old(bundles.root), InstallPlan(b, writes), done), leftovers, |leftovers|)
    ensures !bundles.stopped ==> (ok <==> done == PROMOTED)
    ensures bundles.stopped ==> !ok
    ensures bundles.reliable && v.Verify(b, now) ==> ok
    ensures bundles.reliable ==> b.raw.sequence !in bundles.root.staging
    ensures ok ==> leftovers == []
  {
    hide Apply;
    var s := b.raw.sequence;
    ghost var start := bundles.root;
    ghost var plan := InstallPlan(b, []);
    PromoteParts(s, b, WritePointers<nat>([]));
    leftovers := [];
    ok, done := bundles.PerformNext(start, plan, 0, [ClearStaging(s)]);
    if ok {
      ok, done := bundles.PerformNext(start, plan, 1, [StagePart(s)]);
      if ok { ok, done := bundles.PerformNext(start, plan, 2, [StageWhole(s, b)]); }
      // The staged copy is read back and verified, and cancellation is checked once more.
      var intact: bool := *;
      PromotionStops(start, s, b, WritePointers<nat>([]), done);
      ok := ok && (bundles.reliable || intact) && bundles.root.Staged(s).Whole? && v.Verify(bundles.root.Staged(s).content, now)
            && bundles.root.Staged(s).content.raw == b.raw;
      if ok { ok, done := bundles.PerformNext(start, plan, 3, [TearVersion(s), ClearVersion(s)]); }
      if ok { ok, done := bundles.PerformNext(start, plan, 5, [Promote(s)]); }
      PromotionStops(start, s, b, WritePointers<nat>([]), done);
      if !ok {
        ClearingClears(bundles.root, s);
        var _, tidied := bundles.Perform([ClearStaging(s)]);
        leftovers := if tidied == 1 then [ClearStaging(s)] else [];
      }
    }
    forall writes
      ensures After(start, InstallPlan(b, writes), done) == After(start, plan, done)
    {
      assert InstallPlan(b, writes)[..done] == plan[..done];
      SamePrefix(start, InstallPlan(b, writes), plan, done);
    }
  }

  /** The pointer half: the high-water mark, then previous, then current. */
  method SwitchPointers(bundles: Bundles, ghost start: BundleDir, b: Signed)
    returns (ok: bool, ghost current: Option<nat>, ghost done: nat, ghost leftovers: seq<BundleEffect>)
    requires !bundles.stopped && forall writes :: bundles.root == After(start, InstallPlan(b, writes), PROMOTED)
    modifies bundles
    ensures current.None? || current == start.At(Current)
    ensures var plan := InstallPlan(b, InstallWrites(b.raw.sequence, current));
            && done <= |plan| && (forall e | e in leftovers :: CleansUp(e))
            && bundles.root == After(After(start, plan, done), leftovers, |leftovers|)
            && (!bundles.stopped ==> (ok <==> done == |plan|))
    ensures bundles.stopped ==> !ok
    ensures bundles.reliable ==> ok && current == start.At(Current)
  {
    var s := b.raw.sequence;
    ghost var writes := InstallWrites(s, None);
    current := None;
    PointerPiece(b, writes, 0);
    ok, done, leftovers := bundles.PointNext(start, InstallPlan(b, writes), PROMOTED, Highest, s);
    if !ok { return; }
    InstallPointers(start, b, None, done);
    var active := bundles.ReadPointer(Current);
    current := active;
    PlansShareHead(b, writes, InstallWrites(s, current));
    SamePrefix(start, InstallPlan(b, writes), InstallPlan(b, InstallWrites(s, current)), done);
    ok, done, leftovers := SwitchCurrent(bundles, start, b, active);
  }

  method SwitchCurrent(bundles: Bundles, ghost start: BundleDir, b: Signed, active: Option<nat>)
    returns (ok: bool, ghost done: nat, ghost leftovers: seq<BundleEffect>)
    requires bundles.root == After(start, InstallPlan(b, InstallWrites(b.raw.sequence, active)), PROMOTED + 4)
    modifies bundles
    ensures var plan := InstallPlan(b, InstallWrites(b.raw.sequence, active));
            && done <= |plan| && (forall e | e in leftovers :: CleansUp(e))
            && bundles.root == After(After(start, plan, done), leftovers, |leftovers|)
            && (!bundles.stopped ==> (ok <==> done == |plan|))
    ensures bundles.stopped ==> !ok
    ensures bundles.reliable && !old(bundles.stopped) ==> ok
  {
    var s := b.raw.sequence;
    ghost var writes := InstallWrites(s, active);
    ghost var plan := InstallPlan(b, writes);
    done := PROMOTED + 4;
    if active.Some? && active.value != s {
      PointerPiece(b, writes, 1);
      ok, done, leftovers := bundles.PointNext(start, plan, done, Previous, active.value);
      if !ok { return; }
    }
    PointerPiece(b, writes, |writes| - 1);
    ok, done, leftovers := bundles.PointNext(start, plan, done, Current, s);
  }

  method RollbackPointers(bundles: Bundles, v: Verifier, family: Family, now: int)
    returns (ok: bool, ghost began: bool, ghost step: Step)
    requires !bundles.stopped
    modifies bundles
    ensures !began ==> bundles.root == old(bundles.root) && !ok
    ensures began ==>
              && step.Rollback? && Legal(v, family, old(bundles.root), step)
              && bundles.root == StepFrom(old(bundles.root), step)
    ensures began ==>
              var previous := old(bundles.root).At(Previous);
              && previous.Some? && old(bundles.root).Version(previous.value).Whole?
              && var target := old(bundles.root).Version(previous.value).content;
                 v.signed(target) && target.raw.validFrom <= now <= target.raw.validUntil
                 && target.raw.sequence == previous.value > 0 && target.raw.family == family
    ensures ok ==>
              && began && bundles.root.files.values == RolledBack(old(bundles.root)).files.values
              && bundles.root.versions == old(bundles.root).versions
    ensures bundles.reliable && CanRollback(v, family, old(bundles.root), now) ==> ok
  {
    began, step := false, Rollback(now, 0, []);
    var proceed: bool := *;
    if !bundles.reliable && !proceed { return false, began, step; }
    var current := bundles.ReadPointer(Current);
    var previous := bundles.ReadPointer(Previous);
    if current.None? || previous.None? || current == previous { return false, began, step; }
    var found := bundles.ReadVersion(previous.value);
    if found.None? || !v.Verify(found.value, now) || found.value.raw.sequence != previous.value
       || found.value.raw.family != family {
      return false, began, step;
    }
    began := true;
    ghost var done, leftovers;
    ok, done, leftovers := ExchangePointers(bundles, current.value, previous.value);
    step := Rollback(now, done, leftovers);
  }

  /** The two writes of a rollback, previous first. */
  method ExchangePointers(bundles: Bundles, current: nat, previous: nat)
    returns (ok: bool, ghost done: nat, ghost leftovers: seq<BundleEffect>)
    requires !bundles.stopped && bundles.root.At(Current) == Some(current) && bundles.root.At(Previous) == Some(previous)
    modifies bundles
    ensures done <= |RollbackPlan(current, previous)| == 8 && (forall e | e in leftovers :: CleansUp(e))
    ensures bundles.root == After(After(old(bundles.root), RollbackPlan(current, previous), done), leftovers, |leftovers|)
    ensures ok ==>
              && bundles.root.files.values == RolledBack(old(bundles.root)).files.values
              && bundles.root.versions == old(bundles.root).versions
    ensures bundles.reliable ==> ok
  {
    ghost var start := bundles.root;
    ghost var plan := RollbackPlan(current, previous);
    ghost var writes := [(Previous, current), (Current, previous)];
    PointsPiece<nat, Signed>(writes, 0);
    ok, done, leftovers := bundles.PointNext(start, plan, 0, Previous, current);
    if ok {
      PointsPiece<nat, Signed>(writes, 1);
      ok, done, leftovers := bundles.PointNext(start, plan, 4, Current, previous);
      PointingStops(start, WritePointers(writes), 8);
    }
  }

  /** A status that speaks of a bundle: it is the active one, signed, of this family, and counted. */
  ghost predicate Reports(v: Verifier, family: Family, d: BundleDir, now: int, status: Status) {
    d.Active().Some? &&
    var b := d.Active().value;
    && v.signed(b) && b.raw.family == family && d.At(Current) == Some(b.raw.sequence) && b.raw.sequence > 0
    && status.digest == Some(b.raw) && status.sequence == b.raw.sequence && status.version == b.raw.version
    && status.keyID == b.raw.keyID && status.validUntil == b.raw.validUntil
    && (status.freshness == Fresh <==> now <= b.raw.validUntil)
    && (status.freshness == Stale <==> b.raw.validUntil < now <= b.raw.validUntil + 7 * 24 * 3600)
    && (status.freshness == Expired <==> b.raw.validUntil + 7 * 24 * 3600 < now)
    && status.malicious == multiset(b.raw.verdicts.GetOr([]))[true]
    && status.vulnerable == multiset(b.raw.verdicts.GetOr([]))[false]
  }

  /**
   * Status: what it reports of a bundle is the active bundle's own, with its records counted; when a step of
   * reading fails it reports no bundle at all. `read` says that it saw the directory as it is.
   */
  method ReadStatus(bundles: Bundles, v: Verifier, family: Family, now: int) returns (status: Status, ghost read: bool)
    ensures read <==> status == StatusOf(v, family, bundles.root, now)
    ensures bundles.reliable && !bundles.stopped ==> read
    ensures status == StatusOf(v, family, bundles.root, now) || status in {NoStatus(NoBundle), NoStatus(NotReadable)}
    ensures status.digest.Some? ==> Reports(v, family, bundles.root, now, status)
    ensures status.digest.None? ==> status.sequence == status.records == 0 && status.freshness in {NoBundle, NotReadable}
    ensures status.records == status.malicious + status.vulnerable
  {
    status := ReadActive(bundles, v, family, now);
    read := status == StatusOf(v, family, bundles.root, now);
  }

  method ReadActive(bundles: Bundles, v: Verifier, family: Family, now: int) returns (status: Status)
    ensures bundles.reliable && !bundles.stopped ==> status == StatusOf(v, family, bundles.root, now)
    ensures status == StatusOf(v, family, bundles.root, now) || status in {NoStatus(NoBundle), NoStatus(NotReadable)}
  {
    var present: bool, opens: bool := *, *;
    if !bundles.reliable && !present { return NoStatus(NoBundle); }
    if !bundles.reliable && !opens { return NoStatus(NotReadable); }
    var current := bundles.ReadPointer(Current);
    if current.None? { return NoStatus(NotReadable); }
    var found := bundles.ReadVersion(current.value);
    if found.None? || !v.VerifyStored(found.value) || found.value.raw.sequence != current.value
       || found.value.raw.family != family
    {
      return NoStatus(NotReadable);
    }
    var raw := found.value.raw;
    var freshness := Fresh;
    if now > raw.validUntil {
      freshness := Stale;
      if now > raw.validUntil + STALE_GRACE { freshness := Expired; }
    }
    status := Status(freshness, raw.sequence, raw.version, raw.validUntil, Some(raw), raw.keyID, 0, 0, 0);
    if raw.verdicts.Some? {
      var malicious, vulnerable := CountVerdicts(raw.verdicts.value);
      status := status.(records := |raw.verdicts.value|, malicious := malicious, vulnerable := vulnerable);
    }
  }

  method CountVerdicts(verdicts: seq<bool>) returns (malicious: nat, vulnerable: nat)
    ensures malicious == Malicious(verdicts) && malicious + vulnerable == |verdicts|
  {
    malicious, vulnerable := 0, 0;
    for i := 0 to |verdicts|
      invariant malicious == Malicious(verdicts[..i]) && malicious + vulnerable == i
    {
      assert verdicts[..i + 1][..i] == verdicts[..i];
      if verdicts[i] { malicious := malicious + 1; } else { vulnerable := vulnerable + 1; }
    }
    assert verdicts[..|verdicts|] == verdicts;
  }

  // ------------------------------------------------------------------- Update

  datatype UpdateStatus = Updated | UpToDate | Degraded | Unavailable

  datatype UpdateCode =
    | NoError | Network | RedirectRejected | ResponseLimit | ManifestInvalid | SignatureInvalid | BundleInvalid
    | RollbackRejected | ActivationFailed | Cancellation

  datatype UpdateResult = UpdateResult(
    status: UpdateStatus, code: UpdateCode, sequence: nat, digest: Option<Envelope>, keyID: bytes,
    freshness: Freshness, records: nat, malicious: nat, vulnerable: nat)

  // The signed manifest names the bundle and repeats what its envelope must say.
  datatype Manifest = Manifest(
    sequence: nat, digest: Envelope, version: bytes, keyID: bytes, generatedAt: int, validFrom: int, validUntil: int)

  // What a download and the checks made of it alone came to.
  datatype Fetched<T> = Got(value: T) | Lost(code: Failure)

  type Failure = c: UpdateCode | c != NoError witness Network

  function FromStatus(state: UpdateStatus, code: UpdateCode, s: Status): UpdateResult {
    UpdateResult(state, code, s.sequence, s.digest, s.keyID, s.freshness, s.records, s.malicious, s.vulnerable)
  }

  function FailedState(s: Status): UpdateStatus {
    if s.freshness == Fresh || s.freshness == Stale then Degraded else Unavailable
  }

  /** failed: the error, and the bundle that is there as far as it can be read. */
  method Failed(bundles: Bundles, v: Verifier, code: UpdateCode, now: int) returns (out: UpdateResult)
    ensures out.code == code || out.code == Cancellation
    ensures exists s :: (s == StatusOf(v, TI, bundles.root, now) || s in {NoStatus(NoBundle), NoStatus(NotReadable)})
                        && out.sequence == s.sequence && out.digest == s.digest && out.keyID == s.keyID
                        && out.freshness == s.freshness && out.records == s.records
                        && out.malicious == s.malicious && out.vulnerable == s.vulnerable
    ensures out.sequence > 0 ==>
              out.digest.Some? && bundles.root.Active().Some? && out.digest.value == bundles.root.Active().value.raw
    ensures out.status == if out.freshness == Fresh || out.freshness == Stale then Degraded else Unavailable
    ensures out.freshness in {Fresh, Stale, Expired} <==> out.digest.Some?
  {
    var cancelled: bool := *;
    var local, _ := ReadStatus(bundles, v, TI, now);
    out := FromStatus(FailedState(local), if cancelled then Cancellation else code, local);
  }

  /** The verified bundle is the one the manifest describes. */
  predicate Described(m: Manifest, b: Signed) {
    && b.raw.family == TI && b.raw.sequence == m.sequence && b.raw.version == m.version && b.raw.keyID == m.keyID
    && b.raw.generatedAt == m.generatedAt && b.raw.validFrom == m.validFrom && b.raw.validUntil == m.validUntil
  }

  /** What Update can have seen of the local status: all of it, or nothing. */
  predicate SeenStatus(v: Verifier, d: BundleDir, now: int, local: Status) {
    local == StatusOf(v, TI, d, now) || local in {NoStatus(NoBundle), NoStatus(NotReadable)}
  }

  /** An unfinished install that an Update which saw `local` can be stopped or fail in. */
  ghost predicate UpdateReaches(v: Verifier, d: BundleDir, local: Status, b: Signed, now: int, step: Step) {
    && local.sequence < b.raw.sequence && step.Install? && step.b == b && step.now == now && Legal(v, TI, d, step)
    && step.stop < |InstallPlan(b, InstallWrites(b.raw.sequence, step.current))|
  }

  predicate SameActive(d: BundleDir, d': BundleDir) {
    d'.Active() == d.Active() && d'.At(Current) == d.At(Current)
  }

  /**
   * Last-known-good: an update to b that does not finish leaves the active bundle alone, wherever it stops,
   * exactly when it could read the local status or b is not the active sequence.
   */
  lemma UpdateKeepsActiveIff(v: Verifier, d: BundleDir, local: Status, b: Signed, now: int)
    requires Available(v, TI, d) && v.Verify(b, now) && b.raw.family == TI && SeenStatus(v, d, now, local)
    ensures (forall step | UpdateReaches(v, d, local, b, now, step) :: SameActive(d, StepFrom(d, step)))
            <==> local == StatusOf(v, TI, d, now) || d.At(Current) != Some(b.raw.sequence)
  {
    forall step | UpdateReaches(v, d, local, b, now, step) && d.At(Current) != Some(b.raw.sequence)
      ensures SameActive(d, StepFrom(d, step))
    {
      AfterInstall(v, d, step);
    }
    if local != StatusOf(v, TI, d, now) && d.At(Current) == Some(b.raw.sequence) {
      UnreadStatusReinstalls(v, d, local, b, now);
    }
  }

  /**
   * A status that could not be read is below any sequence, so the active one is installed over itself: nothing is
   * active meanwhile.
   */
  lemma UnreadStatusReinstalls(v: Verifier, d: BundleDir, local: Status, b: Signed, now: int)
    requires Available(v, TI, d) && v.Verify(b, now) && b.raw.family == TI && d.At(Current) == Some(b.raw.sequence)
    requires local in {NoStatus(NoBundle), NoStatus(NotReadable)}
    ensures var step := Step.Install(b, now, None, None, 4, []);
            && UpdateReaches(v, d, local, b, now, step)
            && d.Active().Some? && StepFrom(d, step).Active().None? && !SameActive(d, StepFrom(d, step))
    ensures d.At(Highest) == Some(b.raw.sequence) && d.Active() == Some(b) ==>
              UpdateReaches(v, d, local, b, now, Step.Install(b, now, d.At(Highest), None, 4, []))
  {
    var writes := InstallWrites(b.raw.sequence, None);
    PromotionStops(d, b.raw.sequence, b, WritePointers(writes), 4);
  }

  /**
   * Update. The downloads are arguments: lost with an error code, or got. `local` is the status it acted on, and
   * `attempt` the install it began. An update that fails leaves an available active bundle as it was, unless
   * its status could not be read and it reinstalled the very sequence that is active.
   */
  method Update(bundles: Bundles, v: Verifier, manifest: Fetched<Manifest>, fetched: Fetched<Signed>, now: int)
    returns (out: UpdateResult, ghost local: Status, ghost attempt: Option<Step>)
    requires !bundles.stopped && Invariant(bundles.root)
    modifies bundles
    ensures out.status == Updated ==>
              && manifest.Got? && bundles.root.At(Current) == Some(manifest.value.sequence)
              && bundles.root.Active().Some? && bundles.root.Active().value.raw == manifest.value.digest
              && out.sequence == manifest.value.sequence && out.digest == Some(manifest.value.digest)
              && out.records == out.malicious + out.vulnerable && out.code == NoError
    ensures out.status == UpToDate ==>
              && bundles.root == old(bundles.root) && manifest.Got? && out.digest == Some(manifest.value.digest)
              && out.sequence == manifest.value.sequence && out.keyID == local.keyID && out.freshness == local.freshness
              && out.malicious == local.malicious && out.vulnerable == local.vulnerable && out.code == NoError
    ensures SeenStatus(v, old(bundles.root), now, local)
    ensures bundles.reliable ==> local == StatusOf(v, TI, old(bundles.root), now)
    ensures bundles.reliable && manifest.Got? && fetched.Got? && Promised(v, manifest.value, fetched.value, now)
            && StatusOf(v, TI, old(bundles.root), now).sequence < manifest.value.sequence
            && Admitted(v, TI, old(bundles.root), fetched.value, now, old(bundles.root).At(Highest)) ==>
              out.status == Updated
    ensures attempt.None? ==> bundles.root == old(bundles.root)
    ensures attempt.Some? ==>
              && fetched.Got? && manifest.Got? && fetched.value.raw.sequence == manifest.value.sequence
              && Legal(v, TI, old(bundles.root), attempt.value) && bundles.root == StepFrom(old(bundles.root), attempt.value)
              && local.sequence < manifest.value.sequence
              && (UpdateReaches(v, old(bundles.root), local, fetched.value, now, attempt.value)
                  || (bundles.root.Active() == Some(fetched.value) && fetched.value.raw == manifest.value.digest
                      && (out.status != Updated ==> bundles.stopped)))
    ensures out.status != Updated && Available(v, TI, old(bundles.root))
            && (local == StatusOf(v, TI, old(bundles.root), now) || manifest.Lost?
                || old(bundles.root).At(Current) != Some(manifest.value.sequence)) ==>
              || SameActive(old(bundles.root), bundles.root)
              || (bundles.stopped && manifest.Got? && bundles.root.Active().Some?
                  && bundles.root.Active().value.raw == manifest.value.digest)
  {
    hide StatusOf, Legal, StepFrom, InstallPlan, InstallWrites, Invariant, Available, Described, Promised, Admitted, UpdateReaches;
    local, attempt := StatusOf(v, TI, bundles.root, now), None;
    if manifest.Lost? {
      out := Failed(bundles, v, manifest.code, now);
      return;
    }
    var m := manifest.value;
    var status, _ := ReadStatus(bundles, v, TI, now);
    local := status;
    if status.sequence > m.sequence || (status.sequence == m.sequence && status.digest != Some(m.digest)) {
      out := Failed(bundles, v, RollbackRejected, now);
      return;
    }
    if status.sequence == m.sequence {
      return FromStatus(UpToDate, NoError, status), local, attempt;
    }
    var scratch: bool, written: bool := *, *;
    var refused := CheckFetched(v, m, fetched, now, bundles.reliable || scratch, bundles.reliable || written);
    if refused != NoError {
      out := Failed(bundles, v, refused, now);
      return;
    }
    ghost var before := bundles.root;
    var installed, began, step := Install(bundles, v, TI, Some(fetched.value), now);
    if began {
      attempt := Some(step);
      Attempted(v, before, local, fetched.value, now, step);
      if Available(v, TI, before) { UpdateKeepsActiveIff(v, before, local, fetched.value, now); }
    }
    if installed.Err? {
      out := Failed(bundles, v, if installed.error == ErrRollback then RollbackRejected
                                else if installed.error == Cancelled then Cancellation else ActivationFailed, now);
      return;
    }
    out := FromVerified(installed.installed);
  }

  /** What the manifest promises of a bundle: its bytes, a signature of this family, valid now, and its own fields. */
  predicate Promised(v: Verifier, m: Manifest, b: Signed, now: int) {
    && b.raw == m.digest && v.signed(b) && b.raw.validFrom <= now <= b.raw.validUntil && b.raw.sequence >= 1
    && b.raw.family == TI && b.raw.sequence == m.sequence && b.raw.version == m.version && b.raw.keyID == m.keyID
    && b.raw.generatedAt == m.generatedAt && b.raw.validFrom == m.validFrom && b.raw.validUntil == m.validUntil
  }

  /** The checks between download and install, in their order; the temporary files may fail too. */
  method CheckFetched(v: Verifier, m: Manifest, fetched: Fetched<Signed>, now: int, scratch: bool, written: bool)
    returns (code: UpdateCode)
    ensures code == NoError <==> scratch && written && fetched.Got? && Promised(v, m, fetched.value, now)
    ensures code == NoError ==>
              && v.Verify(fetched.value, now) && fetched.value.raw == m.digest && fetched.value.raw.sequence == m.sequence
              && fetched.value.raw.family == TI
    ensures fetched.Got? && fetched.value.raw != m.digest ==> code in {BundleInvalid, ActivationFailed}
  {
    if !scratch { return ActivationFailed; }
    if fetched.Lost? { return fetched.code; }
    if fetched.value.raw != m.digest { return BundleInvalid; }
    if !v.Verify(fetched.value, now) { return SignatureInvalid; }
    if !Described(m, fetched.value) { return BundleInvalid; }
    code := if written then NoError else ActivationFailed;
  }

  method FromVerified(b: Signed) returns (out: UpdateResult)
    ensures out.status == Updated && out.code == NoError && out.sequence == b.raw.sequence && out.digest == Some(b.raw)
    ensures out.keyID == b.raw.keyID && out.freshness == Fresh && out.records == out.malicious + out.vulnerable
    ensures out.malicious == Malicious(b.raw.verdicts.GetOr([])) && out.records == |b.raw.verdicts.GetOr([])|
  {
    var verdicts := b.raw.verdicts.GetOr([]);
    var malicious, vulnerable := CountVerdicts(verdicts);
    out := UpdateResult(Updated, NoError, b.raw.sequence, Some(b.raw), b.raw.keyID, Fresh, |verdicts|, malicious, vulnerable);
  }

  /** An install that was begun was cut short, or it is all there. */
  lemma Attempted(v: Verifier, d: BundleDir, local: Status, b: Signed, now: int, step: Step)
    requires step.Install? && step.b == b && step.now == now && Legal(v, TI, d, step) && local.sequence < b.raw.sequence
    ensures var full := |InstallPlan(b, InstallWrites(b.raw.sequence, step.current))|;
            && step.stop <= full
            && (step.stop < full ==> UpdateReaches(v, d, local, b, now, step))
            && (step.stop == full ==>
                  StepFrom(d, step).Active() == Some(b) && StepFrom(d, step).At(Current) == Some(b.raw.sequence))
  {
    hide StepFrom;
    AfterInstall(v, d, step);
  }

  /** Leaving out the leftovers: a full install switches, any other keeps what was active elsewhere. */
  lemma AfterInstall(v: Verifier, d: BundleDir, step: Step)
    requires step.Install? && Legal(v, TI, d, step)
    ensures var d', full := StepFrom(d, step), |InstallPlan(step.b, InstallWrites(step.b.raw.sequence, step.current))|;
            && (step.stop == full ==> d'.Active() == Some(step.b) && d'.At(Current) == Some(step.b.raw.sequence))
            && (step.stop < full && d.Active().Some? && d.At(Current) != Some(step.b.raw.sequence) ==>
                  d'.Active() == d.Active() && d'.At(Current) == d.At(Current))
  {
    var plan := InstallPlan(step.b, InstallWrites(step.b.raw.sequence, step.current));
    LeftoversAreHarmless(After(d, plan, step.stop), step.leftovers, |step.leftovers|);
    if step.stop == |plan| {
      InstallCompletes(d, step.b, step.current);
    } else if d.Active().Some? {
      UnfinishedInstallKeepsActive(d, step.b, step.current);
      assert d.At(Current) != Some(step.b.raw.sequence) ==>
          After(d, plan, step.stop).Active() == d.Active() && After(d, plan, step.stop).At(Current) == d.At(Current);
      SameVersions(After(d, plan, step.stop), StepFrom(d, step));
    }
  }
}
