// Quarantine and Restore step by step, with the cleanup a failure triggers and
// none after a stop.
module QuarantineManager {
  import opened Framing
  import opened Quarantine

  const MAX_QUARANTINE_BYTES: nat := 0x2000_0000

  /** The file is there as recorded, small enough, and nothing is in the copy's place. */
  predicate Copyable(sha: bytes -> Digest, w: World, r: Record) {
    && Original(r.path) in w.files && Managed(r.id) !in w.files
    && var file := w.files[Original(r.path)];
       file.mode == r.mode && sha(file.content) == r.sha && |file.content| <= 512 * 1024 * 1024
  }

  /** The record is quarantined, its copy is there as recorded, and nothing is in the file's place. */
  predicate Restorable(sha: bytes -> Digest, w: World, r: Record, state: State) {
    && state == Quarantined && r.id in w.rows && w.rows[r.id].state == Quarantined
    && Original(r.path) !in w.files && Managed(r.id) in w.files
    && var copy := w.files[Managed(r.id)];
       copy.mode == PRIVATE_MODE && sha(copy.content) == r.sha && |copy.content| <= 512 * 1024 * 1024
  }

  class Machine {
    const sha: bytes -> Digest
    // No operation fails and the process does not stop.
    const reliable: bool
    var world: World
    // The process has stopped: nothing is read, written or cleaned up any more.
    var stopped: bool

    constructor (sha: bytes -> Digest, world: World, reliable: bool)
      ensures this.sha == sha && this.world == world && this.reliable == reliable && !stopped
    {
      this.sha, this.world, this.reliable := sha, world, reliable;
      stopped := false;
    }

    /** Whether the next operation works; it may also be the point where the process stops. */
    method Proceed() returns (ok: bool)
      modifies this`stopped
      ensures ok ==> !stopped
      ensures old(stopped) ==> stopped
      ensures reliable && !old(stopped) ==> ok
    {
      var works: bool, stops: bool := *, *;
      stopped := stopped || (stops && !reliable);
      ok := (works || reliable) && !stopped;
    }

    /** SaveQuarantineRecord: one transaction, which only makes the allowed transitions. */
    method Save(record: Record, next: State) returns (ok: bool)
      modifies this
      ensures world.files == old(world).files
      ensures ok ==> !stopped && CanSave(old(world).rows, record, next)
      ensures ok ==> world.rows == old(world).rows[record.id := Row(next, record)]
      ensures !ok && !stopped ==> world == old(world)
      ensures old(stopped) ==> stopped && world == old(world)
      ensures world == old(world)
              || (CanSave(old(world).rows, record, next)
                  && world.rows == old(world).rows[record.id := Row(next, record)])
      ensures reliable && !old(stopped) ==> !stopped && (ok <==> CanSave(old(world).rows, record, next))
    {
      ok := Proceed();
      if !ok || !CanSave(world.rows, record, next) { return false; }
      world := world.(rows := world.rows[record.id := Row(next, record)]);
      var stops: bool := *;
      stopped := stops && !reliable;
      ok := !stopped;
    }

    /** Creation is exclusive: an existing file is never opened for writing. */
    method Create(p: Place) returns (ok: bool)
      modifies this
      ensures world.rows == old(world).rows
      ensures world.files == old(world).files
              || (p !in old(world).files && world.files == old(world).files[p := File([], PRIVATE_MODE)])
      ensures ok ==> !stopped && p !in old(world).files && world.files == old(world).files[p := File([], PRIVATE_MODE)]
      ensures !ok && !stopped ==> world == old(world)
      ensures old(stopped) ==> stopped
      ensures reliable && !old(stopped) ==> !stopped && (ok <==> p !in old(world).files)
    {
      ok := Proceed();
      if !ok || p in world.files { return false; }
      world := world.(files := world.files[p := File([], PRIVATE_MODE)]);
      var stops: bool := *;
      stopped := stops && !reliable;
      ok := !stopped;
    }

    /** Removes a file; a failed or unreached removal leaves it. */
    method Remove(p: Place) returns (ok: bool)
      modifies this
      ensures world.rows == old(world).rows
      ensures world.files == old(world).files || world.files == old(world).files - {p}
      ensures ok ==> !stopped && world.files == old(world).files - {p}
      ensures !ok && !stopped ==> world == old(world)
      ensures old(stopped) ==> stopped && world == old(world)
      ensures reliable && !old(stopped) ==> !stopped && (ok <==> p in old(world).files)
    {
      ok := Proceed();
      if !ok || p !in world.files { return false; }
      world := world.(files := world.files - {p});
      var stops: bool := *;
      stopped := stops && !reliable;
      ok := !stopped;
    }

    /** copyQuarantine: chunk by chunk, up to the size limit; only a success means all of it. */
    method Copy(source: Place, destination: Place) returns (ok: bool)
      requires source in world.files && destination in world.files && source != destination
      requires world.files[destination].content == []
      modifies this
      ensures world.rows == old(world).rows
      ensures destination in world.files && world.files[destination].mode == old(world).files[destination].mode
      ensures world.files == old(world).files[destination := world.files[destination]]
      ensures ok ==>
                && !stopped && world.files[destination].content == old(world).files[source].content
                && |world.files[destination].content| <= 512 * 1024 * 1024
      ensures |world.files[destination].content| <= MAX_QUARANTINE_BYTES
      ensures old(stopped) ==> stopped
      ensures reliable && !old(stopped) ==>
                !stopped && (ok <==> |old(world).files[source].content| <= 512 * 1024 * 1024)
    {
      var content := world.files[source].content;
      var total := 0;
      while total < |content|
        invariant 0 <= total <= |content| && total <= MAX_QUARANTINE_BYTES && world.rows == old(world).rows
        invariant destination in world.files
        invariant world.files[destination] == File(content[..total], old(world).files[destination].mode)
        invariant world.files == old(world).files[destination := world.files[destination]]
        invariant old(stopped) ==> stopped
        invariant reliable && !old(stopped) ==> !stopped
      {
        var read: int, written: int := *, *;
        if !(0 < read <= |content| - total) { read := |content| - total; }
        if reliable || !(0 <= written <= read) { written := read; }
        ok := Proceed();
        if !ok || total + read > MAX_QUARANTINE_BYTES { return false; }
        world := world.(files := world.files[destination := File(content[..total + written], world.files[destination].mode)]);
        total := total + written;
        if written != read { return false; }
      }
      ok := Proceed();
      assert content[..total] == content;
    }

    /**
     * fail: the failed state is recorded, and what this call created is removed. `left` says that the
     * removal reported an error.
     */
    method Fail(record: Record, created: bool) returns (ghost left: bool)
      requires created ==> Managed(record.id) in world.files
      modifies this
      ensures world.rows == old(world).rows
              || (CanSave(old(world).rows, record, Failed)
                  && world.rows == old(world).rows[record.id := Row(Failed, record)])
      ensures world.files == old(world).files || (created && world.files == old(world).files - {Managed(record.id)})
      ensures created && !stopped ==> (left <==> world.files == old(world).files)
      ensures left ==> created
      ensures old(stopped) ==> stopped
      ensures reliable && !old(stopped) ==> !stopped && !left
      ensures reliable && !old(stopped) && CanSave(old(world).rows, record, Failed) ==>
                world.rows == old(world).rows[record.id := Row(Failed, record)]
    {
      var _ := Save(record, Failed);
      left := false;
      if created {
        var removed := Remove(Managed(record.id));
        left := !removed;
      }
    }

    /**
     * The verified copy of a requested record's source; a failure leaves no copy, unless the process stopped in it
     * or the removal of the copy itself failed.
     */
    method TakeCopy(record: Record) returns (ok: bool, ghost left: bool)
      modifies this
      ensures world.files == old(world).files
              || (Managed(record.id) !in old(world).files && Managed(record.id) in world.files
                  && world.files == old(world).files[Managed(record.id) := world.files[Managed(record.id)]])
      ensures ok ==>
                && !stopped && world.rows == old(world).rows && Original(record.path) in old(world).files
                && old(world).files[Original(record.path)].mode == record.mode
                && Managed(record.id) !in old(world).files && Managed(record.id) in world.files
                && world.files[Managed(record.id)] == File(old(world).files[Original(record.path)].content, PRIVATE_MODE)
                && sha(old(world).files[Original(record.path)].content) == record.sha
      ensures !ok && !stopped ==> (left <==> world.files != old(world).files)
      ensures world.rows == old(world).rows
              || (CanSave(old(world).rows, record, Failed)
                  && world.rows == old(world).rows[record.id := Row(Failed, record)])
      ensures reliable && !old(stopped) ==> !stopped && (ok <==> Copyable(sha, old(world), record))
      ensures reliable && !old(stopped) && !ok && CanSave(old(world).rows, record, Failed) ==>
                world == World(old(world).files, old(world).rows[record.id := Row(Failed, record)])
    {
      left := false;
      var source, copy := Original(record.path), Managed(record.id);
      // Opening the roots and the source: it must be there, regular, with the recorded mode.
      ok := Proceed();
      if !ok || source !in world.files || world.files[source].mode != record.mode {
        left := Fail(record, false);
        return false, left;
      }
      ok := Create(copy);
      if !ok {
        left := Fail(record, false);
        return;
      }
      ok := Copy(source, copy);
      if ok && sha(world.files[copy].content) == record.sha {
        // The mode is set and the copy flushed.
        ok := Proceed();
      } else {
        ok := false;
      }
      if !ok { left := Fail(record, true); }
    }

    method Quarantine(record: Record) returns (ok: bool)
      requires !stopped
      modifies this
      ensures QuarantineEffect(sha, old(world), world, record)
      ensures ok ==>
                && Original(record.path) in old(world).files && Original(record.path) !in world.files
                && Managed(record.id) in world.files && record.id in world.rows
                && world.files[Managed(record.id)].content == old(world).files[Original(record.path)].content
                && world.rows[record.id] == Row(Quarantined, record)
      // The source stays where it is until its copy is complete and recorded.
      ensures !ok && !stopped ==> SamePlace(old(world), world, Original(record.path))
      ensures reliable ==> !stopped && (ok <==> record.id !in old(world).rows && Copyable(sha, old(world), record))
      ensures reliable && record.id !in old(world).rows && !ok ==>
                world == World(old(world).files, old(world).rows[record.id := Row(Failed, record)])
    {
      var source, copy := Original(record.path), Managed(record.id);
      ok := Save(record, Requested);
      if !ok { return; }
      ghost var left;
      ok, left := TakeCopy(record);
      if !ok { return; }
      ok := Save(record, Quarantined);
      if !ok {
        var _ := Remove(copy);
        return;
      }
      ok := Remove(source);
    }

    method Restore(record: Record, state: State) returns (ok: bool)
      requires !stopped
      modifies this
      ensures RestoreEffect(sha, old(world), world, record)
      ensures ok ==>
                && state == Quarantined && RestoredFrom(sha, old(world), world, record)
                && record.id in world.rows && world.rows[record.id] == Row(Restored, record)
      // A restore that fails keeps the managed copy, and leaves nothing behind unless more than that fails.
      ensures !ok ==> SamePlace(old(world), world, Managed(record.id))
      ensures reliable ==> !stopped && (ok <==> Restorable(sha, old(world), record, state))
      ensures reliable && !ok ==> world == old(world)
    {
      var target, copy := Original(record.path), Managed(record.id);
      if state != Quarantined { return false; }
      ok := Proceed();
      if !ok || target in world.files || copy !in world.files || world.files[copy].mode != PRIVATE_MODE { return false; }
      ok := Create(target);
      if !ok { return; }
      ok := Copy(copy, target);
      if !ok || sha(world.files[target].content) != record.sha {
        var _ := Remove(target);
        return false;
      }
      ok := Proceed();
      if !ok {
        var _ := Remove(target);
        return;
      }
      world := world.(files := world.files[target := world.files[target].(mode := record.mode)]);
      ok := Save(record, Restored);
      if !ok {
        var _ := Remove(target);
        return;
      }
      var _ := Remove(copy);
    }

    /** A full cycle brings back the same bytes under the same mode. */
    method FullCycle(record: Record) returns (ok: bool)
      requires !stopped
      modifies this
      ensures ok ==>
                && Original(record.path) in old(world).files && Original(record.path) in world.files
                && world.files[Original(record.path)] == old(world).files[Original(record.path)]
      ensures reliable ==> (ok <==> record.id !in old(world).rows && Copyable(sha, old(world), record))
    {
      ok := Quarantine(record);
      if ok && !stopped { ok := Restore(record, Quarantined); } else { ok := false; }
    }
  }
}
