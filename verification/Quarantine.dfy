// Quarantine and restore: a file moves between its own path and a managed copy,
// with a stored record of where it is. What any sequence of such calls keeps,
// when each of them may fail or stop after any step.
module Quarantine {
  import opened Framing

  type Id = bytes

  datatype State = Requested | Quarantined | Restored | Failed

  datatype Record = Record(id: Id, path: bytes, sha: Digest, mode: nat)

  datatype Row = Row(state: State, record: Record)

  // A file's own path, or the managed copy that belongs to one record.
  datatype Place = Original(path: bytes) | Managed(id: Id)

  datatype File = File(content: bytes, mode: nat)

  datatype World = World(files: map<Place, File>, rows: map<Id, Row>)

  const PRIVATE_MODE: nat := 0x180

  predicate ValidTransition(previous: State, next: State) {
    (previous == Requested && (next == Quarantined || next == Failed)) || (previous == Quarantined && next == Restored)
  }

  predicate CanSave(rows: map<Id, Row>, record: Record, next: State) {
    if record.id in rows then ValidTransition(rows[record.id].state, next) else next == Requested
  }

  /** A record is requested first, then quarantined or failed, and only a quarantined one is restored. */
  lemma SavesAre(rows: map<Id, Row>, record: Record, next: State)
    ensures CanSave(rows, record, next) <==>
              || (record.id !in rows && next == Requested)
              || (record.id in rows && rows[record.id].state == Requested && next in {Quarantined, Failed})
              || (record.id in rows && rows[record.id].state == Quarantined && next == Restored)
  {}

  /** How far a record has come; it never goes back, and the two last states are final. */
  function Rank(rows: map<Id, Row>, id: Id): nat {
    if id !in rows then 0
    else match rows[id].state case Requested => 1 case Quarantined => 2 case Failed => 3 case Restored => 3
  }

  /** Where Quarantine may leave the world, wherever it stops. */
  ghost predicate QuarantineEffect(sha: bytes -> Digest, w: World, w': World, r: Record) {
    var source, copy := Original(r.path), Managed(r.id);
    && (forall p | p != source && p != copy :: SamePlace(w, w', p))
    && (forall id | id != r.id :: id in w.rows <==> id in w'.rows)
    && (forall id | id != r.id && id in w.rows :: w.rows[id] == w'.rows[id])
    // A record that exists already stops everything; a new one is requested, then failed or quarantined.
    && (r.id in w.rows ==> w' == w)
    && (r.id in w'.rows && r.id !in w.rows ==> w'.rows[r.id].record == r && w'.rows[r.id].state != Restored)
    // A copy that was there before is not touched.
    && (copy in w.files ==> SamePlace(w, w', copy))
    // The source is removed only once the verified copy and the quarantined record are in place.
    && (SamePlace(w, w', source)
        || (source in w.files && source !in w'.files && copy in w'.files
            && w'.files[copy] == File(w.files[source].content, PRIVATE_MODE) && sha(w.files[source].content) == r.sha
            && w.files[source].mode == r.mode))
    && (!SamePlace(w, w', source) ==> r.id in w'.rows && w'.rows[r.id].state == Quarantined)
    && (r.id in w'.rows && r.id !in w.rows && w'.rows[r.id].state == Quarantined ==> HoldsCopy(sha, w', r))
  }

  predicate HoldsCopy(sha: bytes -> Digest, w: World, r: Record) {
    Managed(r.id) in w.files && sha(w.files[Managed(r.id)].content) == r.sha
  }

  ghost predicate SamePlace(w: World, w': World, p: Place) {
    (p in w.files <==> p in w'.files) && (p in w.files ==> w.files[p] == w'.files[p])
  }

  /** Where Restore may leave the world, wherever it stops. */
  ghost predicate RestoreEffect(sha: bytes -> Digest, w: World, w': World, r: Record) {
    var target, copy := Original(r.path), Managed(r.id);
    && (forall p | p != target && p != copy :: SamePlace(w, w', p))
    && (forall id | id != r.id :: id in w.rows <==> id in w'.rows)
    && (forall id | id != r.id && id in w.rows :: w.rows[id] == w'.rows[id])
    // Nothing at the original path is ever overwritten or removed.
    && (target in w.files ==> w' == w)
    // The record moves only from quarantined to restored.
    && (r.id !in w.rows ==> r.id !in w'.rows)
    && (r.id in w.rows ==>
          && r.id in w'.rows
          && (w'.rows[r.id] == w.rows[r.id]
              || (w.rows[r.id].state == Quarantined && w'.rows[r.id] == Row(Restored, r))))
    // The copy is given up only for a complete file in the original place.
    && (SamePlace(w, w', copy) || RestoredFrom(sha, w, w', r))
    && (r.id in w.rows && w'.rows[r.id] != w.rows[r.id] ==> RestoredFrom(sha, w, w', r))
  }

  ghost predicate RestoredFrom(sha: bytes -> Digest, w: World, w': World, r: Record) {
    && Managed(r.id) in w.files && Original(r.path) in w'.files
    && w'.files[Original(r.path)] == File(w.files[Managed(r.id)].content, r.mode)
    && sha(w.files[Managed(r.id)].content) == r.sha
  }

  // ------------------------------------------------------------- all sequences

  /** The content c that belongs at a path is there, or in the managed copy of one of its records. */
  ghost predicate Held(w: World, path: bytes, c: bytes) {
    || (Original(path) in w.files && w.files[Original(path)].content == c)
    || exists id :: HeldCopy(w, id, path, c)
  }

  predicate HeldCopy(w: World, id: Id, path: bytes, c: bytes) {
    && id in w.rows && w.rows[id].record.path == path && w.rows[id].record.id == id
    && (w.rows[id].state == Quarantined || w.rows[id].state == Restored)
    && Managed(id) in w.files && w.files[Managed(id)].content == c
  }

  lemma QuarantineKeeps(sha: bytes -> Digest, w: World, w': World, r: Record, path: bytes, c: bytes)
    requires QuarantineEffect(sha, w, w', r) && Held(w, path, c)
    ensures Held(w', path, c)
  {
    if Original(path) in w.files && w.files[Original(path)].content == c {
      if !SamePlace(w, w', Original(path)) {
        assert path == r.path;
        assert HeldCopy(w', r.id, path, c);
      }
    } else {
      var id :| HeldCopy(w, id, path, c);
      assert SamePlace(w, w', Managed(id));
      assert HeldCopy(w', id, path, c);
    }
  }

  lemma RestoreKeeps(sha: bytes -> Digest, w: World, w': World, r: Record, path: bytes, c: bytes)
    requires RestoreEffect(sha, w, w', r) && Held(w, path, c)
    requires r.id in w.rows ==> w.rows[r.id].record == r
    ensures Held(w', path, c)
  {
    if Original(path) in w.files && w.files[Original(path)].content == c {
      assert SamePlace(w, w', Original(path));
    } else {
      var id :| HeldCopy(w, id, path, c);
      if id == r.id && !SamePlace(w, w', Managed(id)) {
        assert RestoredFrom(sha, w, w', r);
      } else {
        assert SamePlace(w, w', Managed(id));
        assert HeldCopy(w', id, path, c);
      }
    }
  }

  // A call, and the world it left behind.
  datatype Call = QuarantineCall(r: Record, after: World) | RestoreCall(r: Record, after: World)

  /** Any calls in any order, each stopped anywhere; Restore is given the record that is stored. */
  ghost predicate Runs(sha: bytes -> Digest, w: World, calls: seq<Call>)
    decreases |calls|
  {
    calls == [] ||
    (var first := calls[0];
     && (if first.QuarantineCall? then QuarantineEffect(sha, w, first.after, first.r)
         else RestoreEffect(sha, w, first.after, first.r)
              && (first.r.id in w.rows ==> w.rows[first.r.id].record == first.r))
     && Runs(sha, first.after, calls[1..]))
  }

  function End(w: World, calls: seq<Call>): World {
    if calls == [] then w else calls[|calls| - 1].after
  }

  /** No run loses content, at any point. */
  lemma {:induction false} ContentIsNeverLost(sha: bytes -> Digest, w: World, calls: seq<Call>, path: bytes, c: bytes)
    requires Runs(sha, w, calls) && Held(w, path, c)
    ensures forall i | 0 <= i < |calls| :: Held(calls[i].after, path, c)
    decreases |calls|
  {
    if calls != [] {
      var first := calls[0];
      if first.QuarantineCall? {
        QuarantineKeeps(sha, w, first.after, first.r, path, c);
      } else {
        RestoreKeeps(sha, w, first.after, first.r, path, c);
      }
      ContentIsNeverLost(sha, first.after, calls[1..], path, c);
    }
  }

  lemma {:induction false} RankNeverFalls(sha: bytes -> Digest, w: World, calls: seq<Call>, id: Id)
    requires Runs(sha, w, calls)
    ensures forall i | 0 <= i < |calls| :: Rank(w.rows, id) <= Rank(calls[i].after.rows, id)
    ensures Rank(w.rows, id) == 3 ==> forall i | 0 <= i < |calls| ::
              id in calls[i].after.rows && calls[i].after.rows[id] == w.rows[id]
    decreases |calls|
  {
    if calls != [] {
      var first := calls[0];
      RankNeverFalls(sha, first.after, calls[1..], id);
      assert Rank(w.rows, id) <= Rank(first.after.rows, id);
    }
  }

  /** A call that took a record into state `to` from before it. */
  ghost predicate Enters(w: World, calls: seq<Call>, i: nat, id: Id, to: State)
    requires i < |calls|
  {
    var before := End(w, calls[..i]);
    Rank(before.rows, id) < Rank(calls[i].after.rows, id) && calls[i].after.rows[id].state == to
  }

  lemma {:induction false} RunsSuffix(sha: bytes -> Digest, w: World, calls: seq<Call>, i: nat)
    requires Runs(sha, w, calls) && i <= |calls|
    ensures Runs(sha, End(w, calls[..i]), calls[i..])
    decreases i
  {
    if i > 0 {
      RunsSuffix(sha, calls[0].after, calls[1..], i - 1);
      assert calls[1..][i - 1..] == calls[i..];
      assert calls[..i][|calls[..i]| - 1] == calls[i - 1];
      if i > 1 { assert calls[1..][..i - 1][i - 2] == calls[i - 1]; }
    }
  }

  lemma {:induction false} RankBetween(sha: bytes -> Digest, w: World, calls: seq<Call>, id: Id, i: nat, j: nat)
    requires Runs(sha, w, calls) && i < j <= |calls|
    ensures Rank(calls[i].after.rows, id) <= Rank(End(w, calls[..j]).rows, id)
  {
    assert End(w, calls[..i + 1]) == calls[i].after && End(w, calls[..j]) == calls[j - 1].after;
    if i + 1 < j {
      RunsSuffix(sha, w, calls, i + 1);
      RankNeverFalls(sha, calls[i].after, calls[i + 1..], id);
      assert calls[i + 1..][j - i - 2] == calls[j - 1];
    }
  }

  /** One record goes through at most one cycle: no state is entered twice. */
  lemma {:induction false} AtMostOneCycle(sha: bytes -> Digest, w: World, calls: seq<Call>, id: Id, i: nat, j: nat, to: State)
    requires Runs(sha, w, calls) && i < j < |calls|
    requires Enters(w, calls, i, id, to)
    ensures !Enters(w, calls, j, id, to)
  {
    RankBetween(sha, w, calls, id, i, j);
  }
}
