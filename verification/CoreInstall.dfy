// The core installation: stage, activate, roll back and prune, each of which may
// fail or be cut short after any file effect.
module CoreInstall {
  import opened Framing
  import opened CrashSteps

  // The executable's bytes, with the version and digest its manifest records.
  datatype Core = Core(version: bytes, recorded: Digest, content: bytes)

  // SHA-256 and the Mach-O header check.
  datatype Checks = Checks(sha: bytes -> Digest, universal: bytes -> bool) {
    /** verifyInstalled: the bytes still hash to the digest the manifest recorded. */
    predicate Intact(v: bytes, core: Core) {
      core.version == v && sha(core.content) == core.recorded
    }
  }

  type InstallDir = Root<bytes, Core>

  type InstallEffect = Effect<bytes, Core>

  type Installation = Directory<bytes, Core>

  /** What a stage of `content` under an expected digest puts in place, when it is accepted. */
  predicate Stageable(c: Checks, content: bytes, want: Digest) {
    c.sha(content) == want && c.universal(content)
  }

  function StagePlan(v: bytes, core: Core): seq<InstallEffect> {
    PromotePlan(v, core) + Points([])
  }

  lemma StageParts(v: bytes, core: Core)
    ensures var plan := StagePlan(v, core);
            && |plan| == PROMOTED
            && plan[0..1] == [ClearStaging(v)] && plan[1..2] == [StagePart(v)] && plan[2..3] == [StageWhole(v, core)]
            && plan[3..5] == [TearVersion(v), ClearVersion(v)] && plan[5..6] == [Promote(v)]
  {
    PromoteParts(v, core, []);
  }

  function ActivateWrites(v: bytes, outgoing: Option<bytes>): seq<(Pointer, bytes)> {
    if outgoing.Some? && outgoing.value != v then [(Current, v), (Previous, outgoing.value)] else [(Current, v)]
  }

  function RollbackWrites(current: bytes, previous: bytes): seq<(Pointer, bytes)> {
    [(Current, previous), (Previous, current)]
  }

  function PrunePlan(names: seq<bytes>): (plan: seq<InstallEffect>)
    ensures |plan| == 2 * |names|
  {
    if names == [] then []
    else PrunePlan(names[..|names| - 1]) + [TearVersion(names[|names| - 1]), ClearVersion(names[|names| - 1])]
  }

  predicate Pointed(d: InstallDir, v: bytes) {
    d.At(Current) == Some(v) || d.At(Previous) == Some(v)
  }

  /**
   * Every version present is one that Stage verified against the digest it was given, and
   * current and previous, when set, name such versions.
   */
  ghost predicate Invariant(c: Checks, given: map<bytes, Digest>, d: InstallDir) {
    && (forall v | d.Version(v).Whole? ::
          c.Intact(v, d.Version(v).content) && v in given && given[v] == d.Version(v).content.recorded)
    && (d.At(Current).Some? ==> d.Version(d.At(Current).value).Whole?)
    && (d.At(Previous).Some? ==> d.Version(d.At(Previous).value).Whole?)
  }

  // ----------------------------------------------------------------- each stop

  lemma {:induction false} StageStops(c: Checks, given: map<bytes, Digest>, d: InstallDir, v: bytes, core: Core, k: nat)
    requires Invariant(c, given, d) && Stageable(c, core.content, core.recorded) && core.version == v
    requires k <= PROMOTED
    ensures var d' := After(d, StagePlan(v, core), k);
            && d'.files == d.files
            && (Invariant(c, if k == PROMOTED then given[v := core.recorded] else given, d')
                <==> !(Pointed(d, v) && 4 <= k < PROMOTED))
  {
    PromotionStops(d, v, core, [], k);
    if k < 4 { SameVersions(d, After(d, StagePlan(v, core), k)); }
  }

  /**
   * Staging keeps the installation sound at every stop exactly when no pointer names the
   * version being staged: only then is the removal before the rename of nobody's version.
   */
  lemma {:induction false} StageIsSafeIffUnpointed(c: Checks, given: map<bytes, Digest>, d: InstallDir, v: bytes, core: Core)
    requires Invariant(c, given, d) && Stageable(c, core.content, core.recorded) && core.version == v
    ensures (forall k: nat | k <= PROMOTED ::
               Invariant(c, if k == PROMOTED then given[v := core.recorded] else given, After(d, StagePlan(v, core), k)))
            <==> !Pointed(d, v)
  {
    forall k: nat | k <= PROMOTED
      ensures Invariant(c, if k == PROMOTED then given[v := core.recorded] else given, After(d, StagePlan(v, core), k))
              <==> !(Pointed(d, v) && 4 <= k < PROMOTED)
    {
      StageStops(c, given, d, v, core, k);
    }
    assert Pointed(d, v) ==> !Invariant(c, given, After(d, StagePlan(v, core), 4));
  }

  lemma {:induction false} ActivateStops(
    c: Checks, given: map<bytes, Digest>, d: InstallDir, v: bytes, outgoing: Option<bytes>, k: nat)
    requires Invariant(c, given, d) && d.Version(v).Whole?
    requires outgoing.None? || outgoing == d.At(Current)
    requires k <= 4 * |ActivateWrites(v, outgoing)|
    ensures var d' := After(d, Points(WritePointers(ActivateWrites(v, outgoing))), k);
            && Invariant(c, given, d') && d'.versions == d.versions
            && d'.At(Current) == (if k < 4 then d.At(Current) else Some(v))
            && d'.At(Previous) == (if k == 8 then outgoing else d.At(Previous))
  {
    hide WritePointers, PointersAfter, Apply;
    var writes := ActivateWrites(v, outgoing);
    PointingStops(d, WritePointers(writes), k);
    WritesAreAtomic(d.files, writes, k);
    assert Written(d.files.values, writes, 1) == Written(d.files.values, writes, 0)[Current := v];
    SameVersions(d, After(d, Points(WritePointers(writes)), k));
  }

  predicate CanRollback(c: Checks, d: InstallDir) {
    && d.At(Current).Some? && d.At(Previous).Some? && d.At(Current) != d.At(Previous)
    && var slot := d.Version(d.At(Previous).value); slot.Whole? && c.Intact(d.At(Previous).value, slot.content)
  }

  lemma {:induction false} RollbackStops(c: Checks, given: map<bytes, Digest>, d: InstallDir, k: nat)
    requires Invariant(c, given, d) && CanRollback(c, d) && k <= 8
    ensures |WritePointers(RollbackWrites(d.At(Current).value, d.At(Previous).value))| == 8
    ensures var d' := After(d, Points(WritePointers(RollbackWrites(d.At(Current).value, d.At(Previous).value))), k);
            && Invariant(c, given, d') && d'.versions == d.versions
            && d'.At(Current) == (if k < 4 then d.At(Current) else d.At(Previous))
            && d'.At(Previous) == (if k < 8 then d.At(Previous) else d.At(Current))
  {
    var writes := RollbackWrites(d.At(Current).value, d.At(Previous).value);
    PointingStops(d, WritePointers(writes), k);
    WritesAreAtomic(d.files, writes, k);
    assert Written(d.files.values, writes, 1) == Written(d.files.values, writes, 0)[Current := d.At(Previous).value];
    SameVersions(d, After(d, Points(WritePointers(writes)), k));
  }

  function RolledBack(d: InstallDir): InstallDir
    requires d.At(Current).Some? && d.At(Previous).Some?
  {
    var plan := Points(WritePointers(RollbackWrites(d.At(Current).value, d.At(Previous).value)));
    After(d, plan, |plan|)
  }

  /** A rollback is its own inverse on the pointers. */
  lemma RollbackTwice(c: Checks, given: map<bytes, Digest>, d: InstallDir)
    requires Invariant(c, given, d) && CanRollback(c, d)
    ensures CanRollback(c, RolledBack(d))
    ensures var twice := RolledBack(RolledBack(d));
            twice.At(Current) == d.At(Current) && twice.At(Previous) == d.At(Previous) && twice.versions == d.versions
  {
    RollbackStops(c, given, d, 8);
    SameVersions(d, RolledBack(d));
    RollbackStops(c, given, RolledBack(d), 8);
  }

  lemma {:induction false} PruneAt(names: seq<bytes>, i: nat)
    requires i < |names|
    ensures PrunePlan(names)[2 * i] == TearVersion(names[i]) && PrunePlan(names)[2 * i + 1] == ClearVersion(names[i])
  {
    if i < |names| - 1 { PruneAt(names[..|names| - 1], i); }
  }

  lemma {:induction false} PruneStops(d: InstallDir, names: seq<bytes>, k: nat)
    requires k <= |PrunePlan(names)|
    ensures var d' := After(d, PrunePlan(names), k);
            && d'.files == d.files
            && (forall v | v !in names :: d'.Version(v) == d.Version(v))
            && (forall v | d'.Version(v).Whole? :: d'.Version(v) == d.Version(v))
            && (forall i | 0 <= i < k / 2 :: names[i] !in d'.versions)
            && (forall i | 0 <= i && 2 * i < k :: !d'.Version(names[i]).Whole?)
            && (forall v | v !in names[..(k + 1) / 2] :: d'.Version(v) == d.Version(v))
  {
    if k > 0 {
      PruneStops(d, names, k - 1);
      PruneAt(names, (k - 1) / 2);
    }
  }

  /**
   * Pruning everything except what it read the pointers to name keeps the installation sound
   * exactly when the previous pointer is unset or was read: an unreadable one protects nothing.
   */
  lemma {:induction false} PruneIsSafeIffPreviousRead(
    c: Checks, given: map<bytes, Digest>, d: InstallDir, names: seq<bytes>, previous: Option<bytes>)
    requires Invariant(c, given, d) && d.At(Current).Some?
    requires previous.None? || previous == d.At(Previous)
    requires forall v :: v in names <==> v in d.versions && Some(v) != d.At(Current) && Some(v) != previous
    ensures (forall k: nat | k <= |PrunePlan(names)| :: Invariant(c, given, After(d, PrunePlan(names), k)))
            <==> d.At(Previous).None? || d.At(Previous) == d.At(Current) || previous == d.At(Previous)
  {
    var plan := PrunePlan(names);
    forall k: nat | k <= |plan|
      ensures After(d, plan, k).files == d.files
      ensures forall v | v !in names :: After(d, plan, k).Version(v) == d.Version(v)
      ensures forall v | After(d, plan, k).Version(v).Whole? :: After(d, plan, k).Version(v) == d.Version(v)
    {
      PruneStops(d, names, k);
    }
    PruneStops(d, names, |plan|);
    var p := d.At(Previous);
    if p.Some? && p != d.At(Current) && previous != p {
      assert p.value in names;
      var i :| 0 <= i < |names| && names[i] == p.value;
      assert !Invariant(c, given, After(d, plan, |plan|));
    }
  }

  // ------------------------------------------------------------------ all runs

  // Prune keeps what it could read of the previous pointer.
  datatype Step =
    | Stage(v: bytes, core: Core, stop: nat)
    | Activate(v: bytes, outgoing: Option<bytes>, stop: nat)
    | Rollback(stop: nat)
    | Prune(names: seq<bytes>, previous: Option<bytes>, stop: nat)

  /** A step the code can take; a pointer file that is not needed may have been unreadable to it. */
  ghost predicate Legal(c: Checks, d: InstallDir, step: Step) {
    match step
    case Stage(v, core, stop) =>
      Stageable(c, core.content, core.recorded) && core.version == v && stop <= PROMOTED
    case Activate(v, outgoing, stop) =>
      && d.Version(v).Whole? && c.Intact(v, d.Version(v).content)
      && (outgoing.None? || outgoing == d.At(Current)) && stop <= 4 * |ActivateWrites(v, outgoing)|
    case Rollback(stop) => CanRollback(c, d) && stop <= 8
    case Prune(names, previous, stop) =>
      && d.At(Current).Some? && (previous.None? || previous == d.At(Previous)) && stop <= |PrunePlan(names)|
      && forall v | v in names :: v in d.versions && Some(v) != d.At(Current) && Some(v) != previous
  }

  /**
   * Not stopped between removing and renaming a version that a pointer names, and no removal begun of
   * what the previous pointer names.
   */
  predicate Spares(d: InstallDir, step: Step) {
    match step
    case Stage(v, core, stop) => !(Pointed(d, v) && 4 <= stop < PROMOTED)
    case Prune(names, _, stop) => forall i | 0 <= i < |names| && 2 * i < stop :: d.At(Previous) != Some(names[i])
    case _ => true
  }

  function PlanOf(d: InstallDir, step: Step): seq<InstallEffect>
    requires step.Rollback? ==> d.At(Current).Some? && d.At(Previous).Some?
  {
    match step
    case Stage(v, core, _) => StagePlan(v, core)
    case Activate(v, outgoing, _) => Points(WritePointers(ActivateWrites(v, outgoing)))
    case Rollback(_) => Points(WritePointers(RollbackWrites(d.At(Current).value, d.At(Previous).value)))
    case Prune(names, _, _) => PrunePlan(names)
  }

  function GivenAfter(given: map<bytes, Digest>, step: Step): map<bytes, Digest> {
    if step.Stage? && step.stop == PROMOTED then given[step.v := step.core.recorded] else given
  }

  /** A step leaves the installation sound exactly when it spares what the pointers name. */
  lemma {:induction false} StepIsSafe(c: Checks, given: map<bytes, Digest>, d: InstallDir, step: Step)
    requires Invariant(c, given, d) && Legal(c, d, step)
    ensures step.stop <= |PlanOf(d, step)|
    ensures Invariant(c, GivenAfter(given, step), After(d, PlanOf(d, step), step.stop)) <==> Spares(d, step)
  {
    match step {
      case Stage(v, core, stop) => StageStops(c, given, d, v, core, stop);
      case Activate(v, outgoing, stop) => ActivateStops(c, given, d, v, outgoing, stop);
      case Rollback(stop) => RollbackStops(c, given, d, stop);
      case Prune(names, previous, stop) => PruneStopIsSafeIff(c, given, d, names, stop);
    }
  }

  lemma {:induction false} PruneStopIsSafeIff(c: Checks, given: map<bytes, Digest>, d: InstallDir, names: seq<bytes>, stop: nat)
    requires Invariant(c, given, d) && stop <= |PrunePlan(names)| && forall v | v in names :: Some(v) != d.At(Current)
    ensures Invariant(c, given, After(d, PrunePlan(names), stop))
            <==> forall i | 0 <= i < |names| && 2 * i < stop :: d.At(Previous) != Some(names[i])
  {
    var d' := After(d, PrunePlan(names), stop);
    PruneStops(d, names, stop);
    hide After, PrunePlan;
    if forall i | 0 <= i < |names| && 2 * i < stop :: d.At(Previous) != Some(names[i]) {
      if d.At(Previous).Some? { assert d.At(Previous).value !in names[..(stop + 1) / 2]; }
      assert d.At(Current).Some? ==> d.At(Current).value !in names[..(stop + 1) / 2];
    }
  }

  lemma {:induction false} CleaningUpIsSafe(c: Checks, given: map<bytes, Digest>, d: InstallDir, leftovers: seq<InstallEffect>)
    requires forall e | e in leftovers :: CleansUp(e)
    ensures Invariant(c, given, After(d, leftovers, |leftovers|)) <==> Invariant(c, given, d)
  {
    LeftoversAreHarmless(d, leftovers, |leftovers|);
    SameVersions(d, After(d, leftovers, |leftovers|));
  }

  /** A step, followed by the removal of a temporary or of what was staged. */
  ghost predicate Reaches(c: Checks, given: map<bytes, Digest>, d: InstallDir, m: Move) {
    && Legal(c, d, m.step) && (forall e | e in m.leftovers :: CleansUp(e))
    && m.given == GivenAfter(given, m.step) && m.step.stop <= |PlanOf(d, m.step)|
    && m.dir == After(After(d, PlanOf(d, m.step), m.step.stop), m.leftovers, |m.leftovers|)
  }

  datatype Move = Move(step: Step, leftovers: seq<InstallEffect>, given: map<bytes, Digest>, dir: InstallDir)

  ghost predicate Runs(c: Checks, given: map<bytes, Digest>, d: InstallDir, moves: seq<Move>)
    decreases |moves|
  {
    moves == [] ||
    (Reaches(c, given, d, moves[0])
     && Runs(c, moves[0].given, moves[0].dir, moves[1..]))
  }

  /** Every step spares what the pointers name where it finds them. */
  predicate SparesAll(d: InstallDir, moves: seq<Move>)
    decreases |moves|
  {
    moves == [] || (Spares(d, moves[0].step) && SparesAll(moves[0].dir, moves[1..]))
  }

  /** Every directory along a run is sound exactly when every step of it spares what the pointers name. */
  lemma {:induction false} RunsAreSafe(c: Checks, given: map<bytes, Digest>, d: InstallDir, moves: seq<Move>)
    requires Invariant(c, given, d) && Runs(c, given, d, moves)
    ensures (forall i | 0 <= i < |moves| :: Invariant(c, moves[i].given, moves[i].dir)) <==> SparesAll(d, moves)
    decreases |moves|
  {
    hide Invariant, Spares, After, PlanOf;
    if moves != [] {
      var m := moves[0];
      StepIsSafe(c, given, d, m.step);
      CleaningUpIsSafe(c, m.given, After(d, PlanOf(d, m.step), m.step.stop), m.leftovers);
      if Spares(d, m.step) {
        RunsAreSafe(c, m.given, m.dir, moves[1..]);
        assert forall i | 0 < i < |moves| :: moves[i] == moves[1..][i - 1];
        assert forall i | 0 <= i < |moves| - 1 :: moves[1..][i] == moves[i + 1];
      }
    }
  }
}
