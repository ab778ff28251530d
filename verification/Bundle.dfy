// Signed bundles: a directory of versions and three pointer files, changed by
// Install and Rollback one file operation at a time.
module Bundle {
  import opened Framing
  import opened CrashSteps

  datatype Family = TI | Policy

  // The parsed raw bytes. Two raw contents have the same digest when they are the same. `verdicts` says of
  // each threat record whether it is known malicious, and is None in a policy bundle.
  datatype Envelope = Envelope(
    family: Family, version: bytes, sequence: nat, keyID: bytes, generatedAt: int, validFrom: int, validUntil: int,
    verdicts: Option<seq<bool>>, payload: bytes)

  datatype Signed = Signed(raw: Envelope, signature: bytes)

  // Ed25519 under the configured keys.
  datatype Verifier = Verifier(signed: Signed -> bool) {
    predicate VerifyStored(b: Signed) {
      signed(b) && b.raw.sequence > 0
    }

    predicate Verify(b: Signed, now: int) {
      VerifyStored(b) && b.raw.validFrom <= now <= b.raw.validUntil
    }
  }

  type BundleDir = CrashSteps.Root<nat, Signed>

  type BundleEffect = CrashSteps.Effect<nat, Signed>

  function InstallPlan(b: Signed, writes: seq<(Pointer, nat)>): (plan: seq<BundleEffect>)
    ensures |plan| == PROMOTED + 4 * |writes|
  {
    PromotePlan(b.raw.sequence, b) + Points(WritePointers(writes))
  }

  /** The pointer writes of an install, given what it read as the current pointer. */
  function InstallWrites(s: nat, current: Option<nat>): seq<(Pointer, nat)> {
    if current.Some? && current.value != s then [(Highest, s), (Previous, current.value), (Current, s)]
    else [(Highest, s), (Current, s)]
  }

  function RollbackPlan(current: nat, previous: nat): seq<BundleEffect> {
    Points(WritePointers([(Previous, current), (Current, previous)]))
  }

  /** Install goes on when the bundle verifies and the high-water mark, as read, admits it. */
  predicate Admitted(v: Verifier, family: Family, d: BundleDir, b: Signed, now: int, highest: Option<nat>) {
    && v.Verify(b, now) && b.raw.family == family
    && (highest.Some? ==>
          && highest.value <= b.raw.sequence
          && (highest.value == b.raw.sequence ==>
                && d.Version(b.raw.sequence).Whole?
                && v.Verify(d.Version(b.raw.sequence).content, now)
                && d.Version(b.raw.sequence).content.raw == b.raw))
  }

  /**
   * An install goes on exactly for a bundle of this family, numbered from one, signed and valid now, above the mark or,
   * at the mark, of the bytes accepted under it by a bundle that is itself still signed and valid.
   */
  lemma AdmittedIff(v: Verifier, family: Family, d: BundleDir, b: Signed, now: int, highest: Option<nat>)
    ensures Admitted(v, family, d, b, now, highest) <==>
              && v.signed(b) && b.raw.sequence >= 1 && b.raw.family == family && b.raw.validFrom <= now <= b.raw.validUntil
              && match highest
                 case None => true
                 case Some(mark) =>
                   || mark < b.raw.sequence
                   || (mark == b.raw.sequence && mark in d.versions && d.versions[mark].Whole?
                       && d.versions[mark].content.raw == b.raw && v.signed(d.versions[mark].content))
  {}

  predicate CanRollback(v: Verifier, family: Family, d: BundleDir, now: int) {
    && d.At(Current).Some? && d.At(Previous).Some? && d.At(Current) != d.At(Previous)
    && var slot := d.Version(d.At(Previous).value);
       slot.Whole? && v.Verify(slot.content, now) && slot.content.raw.sequence == d.At(Previous).value
       && slot.content.raw.family == family
  }

  // ------------------------------------------------------------ the invariant

  ghost predicate Invariant(d: BundleDir) {
    && (d.At(Current).Some? ==> d.At(Highest).Some? && d.At(Current).value <= d.At(Highest).value)
    && (d.At(Previous).Some? ==> d.At(Highest).Some? && d.At(Previous).value <= d.At(Highest).value)
    && (forall s: nat | d.Version(s).Whole? :: d.Version(s).content.raw.sequence == s)
  }

  /** The high-water mark does not fall, and versions it covers keep their one accepted content or lose it. */
  ghost predicate Evolves(d: BundleDir, d': BundleDir) {
    d.At(Highest).Some? ==>
      && d'.At(Highest).Some? && d.At(Highest).value <= d'.At(Highest).value
      && forall s: nat | s <= d.At(Highest).value && d'.Version(s).Whole? ::
           d.Version(s).Whole? && d.Version(s).content.raw == d'.Version(s).content.raw
  }

  lemma EvolvesTransitively(a: BundleDir, b: BundleDir, c: BundleDir)
    requires Evolves(a, b) && Evolves(b, c)
    ensures Evolves(a, c)
  {}

  lemma {:induction false} WrittenByInstall(values: map<Pointer, nat>, s: nat, current: Option<nat>, done: nat)
    requires done <= |InstallWrites(s, current)|
    ensures var now, last := Written(values, InstallWrites(s, current), done), |InstallWrites(s, current)|;
            && Value(now, Highest) == (if done == 0 then Value(values, Highest) else Some(s))
            && Value(now, Current) == (if done < last then Value(values, Current) else Some(s))
            && Value(now, Previous) == (if last == 3 && done >= 2 then current else Value(values, Previous))
  {
    var writes := InstallWrites(s, current);
    if done > 0 { WrittenByInstall(values, s, current, done - 1); }
  }

  /** Every pointer at every stop of an install. */
  lemma {:induction false} InstallPointers(d: BundleDir, b: Signed, current: Option<nat>, k: nat)
    requires k <= |InstallPlan(b, InstallWrites(b.raw.sequence, current))|
    ensures var plan, s := InstallPlan(b, InstallWrites(b.raw.sequence, current)), b.raw.sequence;
            var now := After(d, plan, k);
            && now.At(Highest) == (if k < PROMOTED + 4 then d.At(Highest) else Some(s))
            && now.At(Current) == (if k < |plan| then d.At(Current) else Some(s))
            && now.At(Previous) == (if |plan| == PROMOTED + 12 && k >= PROMOTED + 8 then current else d.At(Previous))
  {
    hide Written, After, PointersAfter, PromotePlan, WritePointers, Points;
    var writes := InstallWrites(b.raw.sequence, current);
    PromotionStops(d, b.raw.sequence, b, WritePointers(writes), k);
    if k >= PROMOTED {
      WritesAreAtomic(d.files, writes, k - PROMOTED);
      WrittenByInstall(d.files.values, b.raw.sequence, current, (k - PROMOTED) / 4);
    }
  }

  /** The version of that sequence, if it is there whole, holds the very bytes being installed. */
  predicate SameContent(d: BundleDir, b: Signed) {
    d.Version(b.raw.sequence).Whole? && d.Version(b.raw.sequence).content.raw == b.raw
  }

  /**
   * What an install that stops after k effects must respect: it replaces no accepted content once it has
   * promoted, and does not lower the mark once it has written it.
   */
  predicate Respects(d: BundleDir, b: Signed, k: nat) {
    d.At(Highest).Some? ==>
      && (k < PROMOTED || d.At(Highest).value < b.raw.sequence || SameContent(d, b))
      && (k < PROMOTED + 4 || d.At(Highest).value <= b.raw.sequence)
  }

  /** An install stopped after k effects keeps the invariant and the history exactly when it respects them. */
  lemma {:induction false} StopIsSafeIff(d: BundleDir, b: Signed, current: Option<nat>, k: nat)
    requires Invariant(d) && (current.None? || current == d.At(Current))
    requires k <= |InstallPlan(b, InstallWrites(b.raw.sequence, current))|
    ensures var d' := After(d, InstallPlan(b, InstallWrites(b.raw.sequence, current)), k);
            Invariant(d') && Evolves(d, d') <==> Respects(d, b, k)
  {
    var s := b.raw.sequence;
    var writes := InstallWrites(s, current);
    var d' := After(d, InstallPlan(b, writes), k);
    PromotionStops(d, s, b, WritePointers(writes), k);
    InstallPointers(d, b, current, k);
    hide After, PromotePlan, WritePointers, Points, InstallPlan, InstallWrites;
    if k < 4 { SameVersions(d, d'); }
    assert k >= PROMOTED ==> d'.Version(s) == Whole(b);
    assert forall u | u != s :: d'.Version(u) == d.Version(u);
  }

  ghost predicate SafeAt(d: BundleDir, plan: seq<BundleEffect>, k: nat)
    requires k <= |plan|
  {
    Invariant(After(d, plan, k)) && Evolves(d, After(d, plan, k))
  }

  /** The bundle is above the mark, or is the very content accepted under it. */
  predicate Acceptable(d: BundleDir, b: Signed) {
    d.At(Highest).Some? ==>
      || d.At(Highest).value < b.raw.sequence
      || (d.At(Highest).value == b.raw.sequence && SameContent(d, b))
  }

  /** An install is safe at every stop exactly when its bundle is acceptable, whatever was read of the mark. */
  lemma InstallIsSafeIffAcceptable(d: BundleDir, b: Signed, current: Option<nat>)
    requires Invariant(d) && (current.None? || current == d.At(Current))
    ensures var plan := InstallPlan(b, InstallWrites(b.raw.sequence, current));
            (forall k: nat | k <= |plan| :: SafeAt(d, plan, k)) <==> Acceptable(d, b)
  {
    var plan := InstallPlan(b, InstallWrites(b.raw.sequence, current));
    forall k: nat | k <= |plan|
      ensures SafeAt(d, plan, k) <==> Respects(d, b, k)
    {
      StopIsSafeIff(d, b, current, k);
    }
    assert |plan| >= PROMOTED + 4;
    if Acceptable(d, b) {
      assert forall k: nat | k <= |plan| :: Respects(d, b, k);
    } else {
      assert !SafeAt(d, plan, |plan|);
    }
  }

  /** An install that could read the mark, and was admitted, is acceptable: it is safe at every stop. */
  lemma {:induction false} InstallIsSafe(
    v: Verifier, family: Family, d: BundleDir, b: Signed, now: int, current: Option<nat>, k: nat)
    requires Invariant(d) && Admitted(v, family, d, b, now, d.At(Highest))
    requires current.None? || current == d.At(Current)
    requires k <= |InstallPlan(b, InstallWrites(b.raw.sequence, current))|
    ensures var d' := After(d, InstallPlan(b, InstallWrites(b.raw.sequence, current)), k);
            Acceptable(d, b) && Invariant(d') && Evolves(d, d')
  {
    InstallIsSafeIffAcceptable(d, b, current);
    assert SafeAt(d, InstallPlan(b, InstallWrites(b.raw.sequence, current)), k);
  }

  /** An install run to its end: the bundle is current, and the version before it is the rollback target. */
  lemma {:induction false} InstallCompletes(d: BundleDir, b: Signed, current: Option<nat>)
    ensures var plan := InstallPlan(b, InstallWrites(b.raw.sequence, current));
            var d', s := After(d, plan, |plan|), b.raw.sequence;
            && d'.At(Current) == Some(s) && d'.At(Highest) == Some(s) && d'.Active() == Some(b)
            && d'.At(Previous) == if current.Some? && current.value != s then current else d.At(Previous)
  {
    var writes := InstallWrites(b.raw.sequence, current);
    PromotionStops(d, b.raw.sequence, b, WritePointers(writes), |InstallPlan(b, writes)|);
    InstallPointers(d, b, current, |InstallPlan(b, writes)|);
  }

  /**
   * An unfinished install always leaves the active bundle in place exactly when it is not
   * the active sequence that is being installed again: only then does the active version
   * disappear between its removal and the rename.
   */
  lemma {:induction false} UnfinishedInstallKeepsActive(d: BundleDir, b: Signed, current: Option<nat>)
    requires d.Active().Some?
    requires current.None? || current == d.At(Current)
    ensures var plan := InstallPlan(b, InstallWrites(b.raw.sequence, current));
            (forall k: nat | k < |plan| :: After(d, plan, k).Active() == d.Active()
                                           && After(d, plan, k).At(Current) == d.At(Current))
            <==> d.At(Current) != Some(b.raw.sequence)
  {
    var s := b.raw.sequence;
    var writes := InstallWrites(s, current);
    var plan := InstallPlan(b, writes);
    if d.At(Current) == Some(s) {
      PromotionStops(d, b.raw.sequence, b, WritePointers(writes), 4);
      assert After(d, plan, 4).Active() != d.Active();
    } else {
      forall k: nat | k < |plan|
        ensures After(d, plan, k).Active() == d.Active() && After(d, plan, k).At(Current) == d.At(Current)
      {
        PromotionStops(d, b.raw.sequence, b, WritePointers(writes), k);
        InstallPointers(d, b, current, k);
      }
    }
  }

  /**
   * The high-water mark never falls, at any stop, exactly when the sequence is not below it.
   * Install compares them only if it could read the pointer file.
   */
  lemma {:induction false} HighWaterHoldsIffNotBelow(d: BundleDir, b: Signed, current: Option<nat>)
    requires d.At(Highest).Some?
    ensures var plan := InstallPlan(b, InstallWrites(b.raw.sequence, current));
            (forall k: nat | k <= |plan| ::
               After(d, plan, k).At(Highest).Some? && d.At(Highest).value <= After(d, plan, k).At(Highest).value)
            <==> d.At(Highest).value <= b.raw.sequence
  {
    var s := b.raw.sequence;
    var writes := InstallWrites(s, current);
    var plan := InstallPlan(b, writes);
    forall k: nat | k <= |plan|
      ensures After(d, plan, k).At(Highest).Some?
      ensures d.At(Highest).value <= s ==> d.At(Highest).value <= After(d, plan, k).At(Highest).value
    {
      InstallPointers(d, b, current, k);
    }
    InstallCompletes(d, b, current);
    assert After(d, plan, |plan|).At(Highest) == Some(s);
  }

  /** An unreadable high-water file lets an older bundle through, and its install lowers the mark. */
  lemma {:induction false} UnreadHighWaterAdmitsOlder(v: Verifier, family: Family, d: BundleDir, b: Signed, now: int)
    requires v.Verify(b, now) && b.raw.family == family
    requires d.At(Highest).Some? && b.raw.sequence < d.At(Highest).value
    ensures Admitted(v, family, d, b, now, None) && !Admitted(v, family, d, b, now, d.At(Highest))
    ensures var plan := InstallPlan(b, InstallWrites(b.raw.sequence, d.At(Current)));
            !Evolves(d, After(d, plan, |plan|))
  {
    InstallCompletes(d, b, d.At(Current));
  }

  /** It also lets other content through under the mark's own sequence: the accepted bundle is replaced, the mark stays. */
  lemma {:induction false} UnreadHighWaterReplacesAccepted(v: Verifier, family: Family, d: BundleDir, b: Signed, now: int)
    requires v.Verify(b, now) && b.raw.family == family
    requires d.At(Highest) == Some(b.raw.sequence)
    requires d.Version(b.raw.sequence).Whole? && d.Version(b.raw.sequence).content.raw != b.raw
    ensures Admitted(v, family, d, b, now, None) && !Admitted(v, family, d, b, now, d.At(Highest))
    ensures var plan := InstallPlan(b, InstallWrites(b.raw.sequence, d.At(Current)));
            var d' := After(d, plan, |plan|);
            && d'.At(Highest) == d.At(Highest) && !Evolves(d, d')
            && d'.Version(b.raw.sequence) == Whole(b)
  {
    var s := b.raw.sequence;
    var writes := InstallWrites(s, d.At(Current));
    InstallCompletes(d, b, d.At(Current));
    PromotionStops(d, s, b, WritePointers(writes), |InstallPlan(b, writes)|);
  }

  /** A rollback keeps every version, and swaps the two pointers unless it is cut between the writes. */
  lemma {:induction false} RollbackIsSafe(v: Verifier, family: Family, d: BundleDir, now: int, k: nat)
    requires Invariant(d) && CanRollback(v, family, d, now) && k <= 8
    ensures |RollbackPlan(d.At(Current).value, d.At(Previous).value)| == 8
    ensures var d' := After(d, RollbackPlan(d.At(Current).value, d.At(Previous).value), k);
            && Invariant(d') && Evolves(d, d') && d'.versions == d.versions
            && (k < 8 ==> d'.At(Current) == d.At(Current) && d'.Active() == d.Active())
            && (k == 8 ==> d'.At(Current) == d.At(Previous) && d'.At(Previous) == d.At(Current))
            && (4 <= k < 8 ==> d'.At(Previous) == d'.At(Current))
  {
    var writes := [(Previous, d.At(Current).value), (Current, d.At(Previous).value)];
    PointingStops(d, WritePointers(writes), k);
    WritesAreAtomic(d.files, writes, k);
    assert Written(d.files.values, writes, 0) == d.files.values;
    assert Written(d.files.values, writes, 1) == d.files.values[Previous := d.At(Current).value];
    assert Written(d.files.values, writes, 2) == Written(d.files.values, writes, 1)[Current := d.At(Previous).value];
    SameVersions(d, After(d, RollbackPlan(d.At(Current).value, d.At(Previous).value), k));
  }

  function RolledBack(d: BundleDir): BundleDir
    requires d.At(Current).Some? && d.At(Previous).Some?
  {
    var plan := RollbackPlan(d.At(Current).value, d.At(Previous).value);
    After(d, plan, |plan|)
  }

  /** Two successful rollbacks restore both pointers and lose no version. */
  lemma TwoRollbacksRestore(v: Verifier, family: Family, d: BundleDir, now: int, now': int)
    requires Invariant(d) && CanRollback(v, family, d, now) && CanRollback(v, family, RolledBack(d), now')
    ensures RolledBack(RolledBack(d)).files.values == d.files.values
    ensures RolledBack(RolledBack(d)).versions == d.versions
  {
    var once := RolledBack(d);
    RollbackIsSafe(v, family, d, now, 8);
    RollbackIsSafe(v, family, once, now', 8);
    var twice := RolledBack(once);
    var writes, writes' := [(Previous, d.At(Current).value), (Current, d.At(Previous).value)],
                           [(Previous, once.At(Current).value), (Current, once.At(Previous).value)];
    PointingStops(d, WritePointers(writes), 8);
    PointingStops(once, WritePointers(writes'), 8);
    WritesAreAtomic(d.files, writes, 8);
    WritesAreAtomic(once.files, writes', 8);
    SwapTwice(d.files.values, d.At(Current).value, d.At(Previous).value);
  }

  lemma {:induction false} SwapTwice(values: map<Pointer, nat>, c: nat, p: nat)
    requires Current in values && values[Current] == c && Previous in values && values[Previous] == p
    ensures Written(Written(values, [(Previous, c), (Current, p)], 2), [(Previous, p), (Current, c)], 2) == values
  {
    var once := Written(values, [(Previous, c), (Current, p)], 2);
    assert once == Written(values, [(Previous, c), (Current, p)], 1)[Current := p];
    assert once == values[Previous := c][Current := p];
    assert Written(once, [(Previous, p), (Current, c)], 2)
        == Written(once, [(Previous, p), (Current, c)], 1)[Current := c];
  }

  // ------------------------------------------------------------------ all runs

  // One process: what it read of the mark and of current, and where it stopped. Leftovers are
  // temporaries and staging it cleaned up.
  datatype Step =
    | Install(b: Signed, now: int, highest: Option<nat>, current: Option<nat>, stop: nat, leftovers: seq<BundleEffect>)
    | Rollback(now: int, stop: nat, leftovers: seq<BundleEffect>)

  /** A step the code can take: either pointer file may have been unreadable to it. */
  ghost predicate Legal(v: Verifier, family: Family, d: BundleDir, step: Step) {
    && (forall e | e in step.leftovers :: CleansUp(e))
    && match step
       case Install(b, now, highest, current, stop, _) =>
         && (highest.None? || highest == d.At(Highest)) && Admitted(v, family, d, b, now, highest)
         && (current.None? || current == d.At(Current))
         && stop <= |InstallPlan(b, InstallWrites(b.raw.sequence, current))|
       case Rollback(now, stop, _) => CanRollback(v, family, d, now) && stop <= 8
  }

  function Stopped(d: BundleDir, step: Step): BundleDir
    requires step.Install? ==> step.stop <= |InstallPlan(step.b, InstallWrites(step.b.raw.sequence, step.current))|
    requires step.Rollback? ==> d.At(Current).Some? && d.At(Previous).Some? && step.stop <= 8
  {
    match step
    case Install(b, _, _, current, stop, _) => After(d, InstallPlan(b, InstallWrites(b.raw.sequence, current)), stop)
    case Rollback(_, stop, _) => After(d, RollbackPlan(d.At(Current).value, d.At(Previous).value), stop)
  }

  function StepFrom(d: BundleDir, step: Step): BundleDir
    requires step.Install? ==> step.stop <= |InstallPlan(step.b, InstallWrites(step.b.raw.sequence, step.current))|
    requires step.Rollback? ==> d.At(Current).Some? && d.At(Previous).Some? && step.stop <= 8
  {
    After(Stopped(d, step), step.leftovers, |step.leftovers|)
  }

  predicate StepRespects(d: BundleDir, step: Step) {
    step.Install? ==> Respects(d, step.b, step.stop)
  }

  /** A step keeps the invariant and the history exactly when its install respects the mark and what it covers. */
  lemma StepIsSafe(v: Verifier, family: Family, d: BundleDir, step: Step)
    requires Invariant(d) && Legal(v, family, d, step)
    ensures Invariant(StepFrom(d, step)) && Evolves(d, StepFrom(d, step)) <==> StepRespects(d, step)
    ensures step.Install? && step.highest == d.At(Highest) ==> StepRespects(d, step)
  {
    var stopped := Stopped(d, step);
    match step {
      case Install(b, now, highest, current, stop, _) => StopIsSafeIff(d, b, current, stop);
      case Rollback(now, stop, _) => RollbackIsSafe(v, family, d, now, stop);
    }
    hide After, InstallPlan, InstallWrites, RollbackPlan, Stopped;
    LeftoversAreHarmless(stopped, step.leftovers, |step.leftovers|);
    SameVersions(stopped, StepFrom(d, step));
  }

  /** d' is what some sequence of processes, each stopped anywhere, can make of d. */
  ghost predicate Runs(v: Verifier, family: Family, d: BundleDir, steps: seq<Step>, d': BundleDir)
    decreases |steps|
  {
    if steps == [] then d' == d
    else Legal(v, family, d, steps[0]) && Runs(v, family, StepFrom(d, steps[0]), steps[1..], d')
  }

  /** Every step of the run keeps the invariant and the history. */
  ghost predicate Sound(v: Verifier, family: Family, d: BundleDir, steps: seq<Step>)
    decreases |steps|
  {
    steps != [] && Legal(v, family, d, steps[0]) ==>
      var d' := StepFrom(d, steps[0]);
      Invariant(d') && Evolves(d, d') && Sound(v, family, d', steps[1..])
  }

  /** Every install of the run respects the mark it finds; one that could read the mark always does. */
  ghost predicate Respectful(v: Verifier, family: Family, d: BundleDir, steps: seq<Step>)
    decreases |steps|
  {
    steps != [] && Legal(v, family, d, steps[0]) ==>
      StepRespects(d, steps[0]) && Respectful(v, family, StepFrom(d, steps[0]), steps[1..])
  }

  /** A run is sound at every step exactly when each of its installs respects the mark and what it covers. */
  lemma {:induction false} RunIsSoundIffRespectful(v: Verifier, family: Family, d: BundleDir, steps: seq<Step>)
    requires Invariant(d)
    ensures Sound(v, family, d, steps) <==> Respectful(v, family, d, steps)
    decreases |steps|
  {
    hide StepFrom, Evolves, StepRespects, Invariant;
    if steps != [] && Legal(v, family, d, steps[0]) {
      StepIsSafe(v, family, d, steps[0]);
      if StepRespects(d, steps[0]) {
        RunIsSoundIffRespectful(v, family, StepFrom(d, steps[0]), steps[1..]);
      }
    }
  }

  /** Over a whole sound run the mark never falls, and what it covers keeps its one content or loses it. */
  lemma {:induction false} RunsAreSafe(v: Verifier, family: Family, d: BundleDir, steps: seq<Step>, d': BundleDir)
    requires Invariant(d) && Runs(v, family, d, steps, d') && Respectful(v, family, d, steps)
    ensures Invariant(d') && Evolves(d, d')
    decreases |steps|
  {
    if steps != [] {
      StepIsSafe(v, family, d, steps[0]);
      RunsAreSafe(v, family, StepFrom(d, steps[0]), steps[1..], d');
      EvolvesTransitively(d, StepFrom(d, steps[0]), d');
    }
  }

  /** Every install of the run could read the mark. */
  ghost predicate ReadsMark(v: Verifier, family: Family, d: BundleDir, steps: seq<Step>)
    decreases |steps|
  {
    steps != [] && Legal(v, family, d, steps[0]) ==>
      && (steps[0].Install? ==> steps[0].highest == d.At(Highest))
      && ReadsMark(v, family, StepFrom(d, steps[0]), steps[1..])
  }

  lemma {:induction false} ReadingRunsAreRespectful(v: Verifier, family: Family, d: BundleDir, steps: seq<Step>)
    requires Invariant(d) && ReadsMark(v, family, d, steps)
    ensures Respectful(v, family, d, steps)
    decreases |steps|
  {
    hide StepFrom, Evolves, Invariant;
    if steps != [] && Legal(v, family, d, steps[0]) {
      StepIsSafe(v, family, d, steps[0]);
      assert steps[0].Rollback? ==> StepRespects(d, steps[0]);
      ReadingRunsAreRespectful(v, family, StepFrom(d, steps[0]), steps[1..]);
    }
  }
}
