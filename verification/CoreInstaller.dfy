// The methods of the install manager, over a directory whose operations may fail
// or stop the process at any effect.
module CoreInstaller {
  import opened Framing
  import opened CrashSteps
  import opened CoreInstall

  /**
   * Stage: the copy is verified against the digest the caller expects, and only then promoted.
   * Interrupted between removal and rename, it can lose a version; it never touches a pointer.
   */
  method Stage(install: Installation, c: Checks, v: bytes, source: Option<bytes>, want: Digest)
    returns (ok: bool, ghost stop: nat, ghost leftovers: seq<InstallEffect>)
    requires !install.stopped
    modifies install
    ensures install.root.files.values == old(install.root).files.values
    ensures stop <= PROMOTED && (forall e | e in leftovers :: CleansUp(e))
    ensures stop >= 3 ==> source.Some? && c.sha(source.value) == want && c.universal(source.value)
    ensures ok ==> stop == PROMOTED && !install.stopped && leftovers == []
    ensures ok ==> install.root.Version(v) == Whole(Core(v, want, source.value))
    ensures install.reliable && source.Some? && c.sha(source.value) == want && c.universal(source.value) ==> ok
    ensures !ok && !install.stopped ==> stop < PROMOTED
    ensures install.reliable ==> v !in install.root.staging
    ensures var core := Core(v, want, source.GetOr([]));
            install.root == After(After(old(install.root), StagePlan(v, core), stop), leftovers, |leftovers|)
  {
    hide Apply;
    var core := Core(v, want, source.GetOr([]));
    ghost var start := install.root;
    ghost var plan := StagePlan(v, core);
    StageParts(v, core);
    leftovers := [];
    ok, stop := install.PerformNext(start, plan, 0, [ClearStaging(v)]);
    if ok {
      ok, stop := install.PerformNext(start, plan, 1, [StagePart(v)]);
      // The digest of what was copied, and its architecture slices, decide.
      ok := ok && source.Some? && c.sha(source.value) == want && c.universal(source.value);
      if ok { ok, stop := install.PerformNext(start, plan, 2, [StageWhole(v, core)]); }
      if ok { ok, stop := install.PerformNext(start, plan, 3, [TearVersion(v), ClearVersion(v)]); }
      if ok { ok, stop := install.PerformNext(start, plan, 5, [Promote(v)]); }
      if !ok {
        ClearingClears(install.root, v);
        var _, tidied := install.Perform([ClearStaging(v)]);
        leftovers := if tidied == 1 then [ClearStaging(v)] else [];
      }
    }
    PromotionStops(start, v, core, [], stop);
    LeftoversAreHarmless(After(start, plan, stop), leftovers, |leftovers|);
  }

  /** A whole version in its own place, whose bytes hash to the digest recorded. */
  predicate Serves(c: Checks, d: InstallDir, v: bytes) {
    d.Version(v).Whole? && d.Version(v).content.version == v && c.sha(d.Version(v).content.content) == d.Version(v).content.recorded
  }

  /** verifyInstalled: None when the version is missing, unreadable or no longer hashes to its digest. */
  method VerifyInstalled(install: Installation, c: Checks, v: bytes) returns (digest: Option<Digest>)
    ensures digest.Some? ==>
              && install.root.Version(v).Whole? && c.Intact(v, install.root.Version(v).content)
              && var core := install.root.Version(v).content;
                 digest.value == core.recorded && core.version == v && c.sha(core.content) == core.recorded
    ensures install.reliable && !install.stopped && Serves(c, install.root, v) ==> digest.Some?
  {
    var found := install.ReadVersion(v);
    digest := if found.Some? && c.Intact(v, found.value) then Some(found.value.recorded) else None;
  }

  /**
   * Activate: nothing changes before the switch. `outgoing` is what it read of current and `done` how many effects of the
   * two pointer writes took place; the outgoing version is the rollback target exactly when the second write was
   * needed, current could be read, and all of that write took place.
   */
  method Activate(install: Installation, c: Checks, v: bytes, healthy: bool, ghost given: map<bytes, Digest>)
    returns (ok: bool, ghost began: bool, ghost outgoing: Option<bytes>, ghost done: nat, ghost previousRead: bool)
    requires !install.stopped && Invariant(c, given, install.root)
    modifies install
    ensures !began ==> !ok && install.root == old(install.root)
    ensures began ==> healthy && old(install.root).Version(v).Whole? && c.Intact(v, old(install.root).Version(v).content)
    ensures began ==>
              var core := old(install.root).Version(v).content; core.version == v && c.sha(core.content) == core.recorded
    ensures old(install.root).At(Current) == Some(v) ==> install.root.At(Previous) == old(install.root).At(Previous)
    ensures previousRead ==> Invariant(c, given, install.root)
    ensures Switched(old(install.root), install.root, v, outgoing, done)
    ensures began && !install.stopped ==> (ok <==> done >= 4)
    ensures ok ==> began && done >= 4 && install.root.Version(v) == old(install.root).Version(v)
    ensures install.reliable && healthy && Serves(c, old(install.root), v) ==>
              ok && outgoing == old(install.root).At(Current) && done == 4 * |ActivateWrites(v, outgoing)| && previousRead
  {
    ok, began, outgoing, done, previousRead := false, false, None, 0, true;
    var before := VerifyInstalled(install, c, v);
    if before.None? || !healthy { return; }
    var after := VerifyInstalled(install, c, v);
    if after.None? || after != before { return; }
    began := true;
    ok, outgoing, done := SwitchTo(install, c, v, given);
    if ok {
      var _, read := Prune(install, c, given);
      previousRead := read;
    }
  }

  /** Both pointers once the switch to v has gone through `done` of its effects. */
  ghost predicate Switched(d: InstallDir, d': InstallDir, v: bytes, outgoing: Option<bytes>, done: nat) {
    && (outgoing.None? || outgoing == d.At(Current)) && done <= 4 * |ActivateWrites(v, outgoing)|
    && d'.At(Current) == (if done < 4 then d.At(Current) else Some(v))
    && d'.At(Previous) == (if done == 8 then outgoing else d.At(Previous))
  }

  /**
   * After a switch away from another version, with another rollback target than that version, the outgoing version
   * became the rollback target exactly when it was read and recorded in full.
   */
  lemma OutgoingIsTargetIff(d: InstallDir, d': InstallDir, v: bytes, outgoing: Option<bytes>, done: nat)
    requires Switched(d, d', v, outgoing, done) && done >= 4
    requires d.At(Current) != Some(v) && d.At(Previous) != d.At(Current)
    ensures d'.At(Current) == Some(v)
    ensures d'.At(Previous) == d.At(Current) <==> outgoing.Some? && done == 8
  {
    assert |ActivateWrites(v, outgoing)| == if outgoing.Some? then 2 else 1;
  }

  /** The atomic switch; a failure to record the outgoing version afterwards is not a failure. */
  method SwitchTo(install: Installation, c: Checks, v: bytes, ghost given: map<bytes, Digest>)
    returns (ok: bool, ghost was: Option<bytes>, ghost done: nat)
    requires Invariant(c, given, install.root) && install.root.Version(v).Whole?
    modifies install
    ensures Invariant(c, given, install.root) && install.root.versions == old(install.root).versions
    ensures Switched(old(install.root), install.root, v, was, done)
    ensures ok ==> done >= 4
    ensures !install.stopped ==> (ok <==> done >= 4)
    ensures install.reliable && !old(install.stopped) ==>
              ok && was == old(install.root).At(Current) && done == 4 * |ActivateWrites(v, was)| && !install.stopped
  {
    ghost var start := install.root;
    var outgoing := install.ReadPointer(Current);
    was := outgoing;
    ghost var writes := ActivateWrites(v, outgoing);
    ghost var plan: seq<InstallEffect> := Points(WritePointers(writes));
    ghost var leftovers;
    PointsPiece<bytes, Core>(writes, 0);
    ok, done, leftovers := install.PointNext(start, plan, 0, Current, v);
    if ok && outgoing.Some? && outgoing.value != v {
      PointsPiece<bytes, Core>(writes, 1);
      var _, done', leftovers' := install.PointNext(start, plan, 4, Previous, outgoing.value);
      done, leftovers := done', leftovers';
    }
    ActivateStops(c, given, start, v, outgoing, done);
    CleaningUpIsSafe(c, given, After(start, plan, done), leftovers);
    LeftoversAreHarmless(After(start, plan, done), leftovers, |leftovers|);
  }

  /**
   * prune: removes the versions other than those the pointers were read to name. It never
   * removes the active one, and it keeps the rollback target whenever it could read its pointer.
   */
  method Prune(install: Installation, c: Checks, ghost given: map<bytes, Digest>)
    returns (ok: bool, ghost previousRead: bool)
    requires Invariant(c, given, install.root)
    modifies install
    ensures install.root.files == old(install.root).files
    ensures install.root.At(Current).Some? ==>
              install.root.Version(install.root.At(Current).value) == old(install.root).Version(install.root.At(Current).value)
    ensures previousRead ==> Invariant(c, given, install.root)
    ensures ok && previousRead ==>
              forall v | v in install.root.versions :: Pointed(install.root, v)
    ensures install.reliable && !old(install.stopped) ==> previousRead && !install.stopped
    ensures install.reliable && !old(install.stopped) && install.root.At(Current).Some? ==> ok
  {
    previousRead := true;
    var current := install.ReadPointer(Current);
    if current.None? { return false, true; }
    var previous := install.ReadPointer(Previous);
    previousRead := previous == install.root.At(Previous);
    ghost var start := install.root;
    var left := Superseded(install.root, current.value, previous);
    ok := true;
    while ok && left != {}
      invariant install.root.files == start.files
      invariant forall v | Some(v) == current || Some(v) == previous :: install.root.Version(v) == start.Version(v)
      invariant forall v | install.root.Version(v).Whole? :: install.root.Version(v) == start.Version(v)
      invariant forall v | v in install.root.versions :: v in left || Some(v) == current || Some(v) == previous
      invariant forall v | v in left :: Some(v) != current && Some(v) != previous
      invariant install.reliable && !old(install.stopped) ==> ok && !install.stopped
      decreases if ok then |left| + 1 else 0
    {
      var v :| v in left;
      ghost var here := install.root;
      var removed, done := install.Perform([TearVersion(v), ClearVersion(v)]);
      PruneOne(here, v, done);
      ok := removed;
      if ok { left := left - {v}; }
    }
  }

  function Superseded(d: InstallDir, current: bytes, previous: Option<bytes>): set<bytes> {
    set v | v in d.versions && v != current && Some(v) != previous
  }

  lemma {:induction false} PruneOne(d: InstallDir, v: bytes, done: nat)
    requires done <= 2
    ensures var d' := After(d, [TearVersion(v), ClearVersion(v)], done);
            && d'.files == d.files
            && (forall u | u != v :: d'.Version(u) == d.Version(u) && (u in d'.versions <==> u in d.versions))
            && (d'.Version(v).Whole? ==> d'.Version(v) == d.Version(v))
            && (v in d'.versions ==> v in d.versions) && (done == 2 ==> v !in d'.versions)
  {
    var plan := [TearVersion(v), ClearVersion(v)];
    if done >= 1 { assert After(d, plan, 1) == Apply(After(d, plan, 0), plan[0]); }
  }

  /** Rollback: the two pointers change places, current first. */
  method Rollback(install: Installation, c: Checks, ghost given: map<bytes, Digest>) returns (ok: bool)
    requires !install.stopped && Invariant(c, given, install.root)
    modifies install
    ensures Invariant(c, given, install.root) && install.root.versions == old(install.root).versions
    ensures install.root.At(Current) == old(install.root).At(Current)
            || install.root.At(Current) == old(install.root).At(Previous)
    ensures ok ==>
              && CanRollback(c, old(install.root))
              && install.root.files.values == RolledBack(old(install.root)).files.values
    ensures ok ==>
              var target := old(install.root).At(Previous);
              && target.Some? && install.root.At(Current) == target && install.root.At(Previous) == old(install.root).At(Current)
              && old(install.root).Version(target.value).Whole?
              && var core := old(install.root).Version(target.value).content;
                 core.version == target.value && c.sha(core.content) == core.recorded
    ensures install.reliable && CanRollback(c, old(install.root)) ==> ok
  {
    var current := install.ReadPointer(Current);
    if current.None? { return false; }
    var previous := install.ReadPointer(Previous);
    if previous.None? || previous == current { return false; }
    var digest := VerifyInstalled(install, c, previous.value);
    if digest.None? { return false; }
    ok := ExchangePointers(install, c, current.value, previous.value, given);
  }

  /** The two writes of a rollback, current first. */
  method ExchangePointers(install: Installation, c: Checks, current: bytes, previous: bytes, ghost given: map<bytes, Digest>)
    returns (ok: bool)
    requires !install.stopped && Invariant(c, given, install.root) && CanRollback(c, install.root)
    requires install.root.At(Current) == Some(current) && install.root.At(Previous) == Some(previous)
    modifies install
    ensures Invariant(c, given, install.root) && install.root.versions == old(install.root).versions
    ensures install.root.At(Current) in {Some(current), Some(previous)}
    ensures ok ==> install.root.files.values == RolledBack(old(install.root)).files.values
    ensures ok ==> install.root.At(Current) == Some(previous) && install.root.At(Previous) == Some(current)
    ensures install.reliable ==> ok
  {
    hide Invariant, CanRollback;
    ghost var start := install.root;
    ghost var writes := RollbackWrites(current, previous);
    ghost var plan: seq<InstallEffect> := Points(WritePointers(writes));
    ghost var done, leftovers;
    PointsPiece<bytes, Core>(writes, 0);
    ok, done, leftovers := install.PointNext(start, plan, 0, Current, previous);
    if ok {
      PointsPiece<bytes, Core>(writes, 1);
      ok, done, leftovers := install.PointNext(start, plan, 4, Previous, current);
    }
    RollbackStops(c, given, start, done);
    CleaningUpIsSafe(c, given, After(start, plan, done), leftovers);
    LeftoversAreHarmless(After(start, plan, done), leftovers, |leftovers|);
  }
}
