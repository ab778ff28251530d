// Cache keys, and the table that keeps the digest of leaves hashed before.
module ContentCache {
  import opened Framing
  import opened Ordering
  import opened EvidenceTree

  datatype Target = Target(observationID: bytes, kind: bytes, subject: bytes) {
    predicate Complete() {
      observationID != [] && kind != [] && subject != []
    }
  }

  // SHA-256 of the key fields; two keys are the same when their inputs are.
  datatype Key = Sha256Of(input: bytes)

  const CACHE_FORMAT: bytes := Ascii("ssc-init.content-cache.v1")
  const ALGORITHM: bytes := Ascii("sha256")
  const RETENTION: int := 90 * 24 * 3600 * 1_000_000_000
  const DEFAULT_ROW_LIMIT: nat := 250_000

  // digest is None for text that is not 64 lowercase hexadecimal characters.
  datatype CacheEntry = CacheEntry(
    key: Key, status: Status, algorithm: bytes, format: bytes, digest: Option<Digest>, size: int64)

  datatype CacheWrite = CacheWrite(key: Key, entry: CacheEntry)

  datatype Row = Row(algorithm: bytes, format: bytes, digest: Option<Digest>, size: int64, lastUsed: int)

  function FingerprintFields(fp: Fingerprint): seq<bytes> {
    [U64(fp.device), U64(fp.inode), U32(fp.mode), U64(Unsigned64(fp.size)),
     U64(Unsigned64(fp.modTimeNS)), U64(Unsigned64(fp.changeTimeNS))]
  }

  function NewCacheKey(disk: Disk, target: Target, relative: bytes, fp: Fingerprint): Key {
    Sha256Of(Fields([CACHE_FORMAT, target.observationID, target.kind, target.subject]
                    + KeyTail(disk, relative, fp)))
  }

  lemma {:induction false} FixedWidth(fs: seq<bytes>, width: seq<nat>)
    requires |fs| == |width| && forall i | 0 <= i < |fs| :: |fs[i]| == width[i]
    ensures |Fields(fs)| == TotalWidth(width)
  {
    if fs != [] { FixedWidth(fs[1..], width[1..]); }
  }

  ghost function TotalWidth(width: seq<nat>): nat {
    if width == [] then 0 else 4 + width[0] + TotalWidth(width[1..])
  }

  lemma {:induction false} FingerprintFieldsInjective(fp: Fingerprint, fp': Fingerprint)
    requires FingerprintFields(fp) == FingerprintFields(fp')
    ensures fp == fp'
  {
    var a, b := FingerprintFields(fp), FingerprintFields(fp');
    assert forall i | 0 <= i < 6 :: a[i] == b[i];
    U64RoundTrip(fp.device);
    U64RoundTrip(fp'.device);
    U64RoundTrip(fp.inode);
    U64RoundTrip(fp'.inode);
    U32RoundTrip(fp.mode);
    U32RoundTrip(fp'.mode);
    U64RoundTrip(Unsigned64(fp.size));
    U64RoundTrip(Unsigned64(fp'.size));
    U64RoundTrip(Unsigned64(fp.modTimeNS));
    U64RoundTrip(Unsigned64(fp'.modTimeNS));
    U64RoundTrip(Unsigned64(fp.changeTimeNS));
    U64RoundTrip(Unsigned64(fp'.changeTimeNS));
  }

  function KeyTail(disk: Disk, relative: bytes, fp: Fingerprint): (fs: seq<bytes>)
    ensures Fits(fs)
  {
    [disk.sha(relative)] + FingerprintFields(fp)
  }

  lemma {:induction false} KeyTailWidth(disk: Disk, relative: bytes, fp: Fingerprint)
    ensures |Fields(KeyTail(disk, relative, fp))| == 104
  {
    var width := [32, 8, 8, 4, 8, 8, 8];
    FixedWidth(KeyTail(disk, relative, fp), width);
    assert TotalWidth(width) == 104;
  }

  lemma {:induction false} KeyTailInjective(disk: Disk, relative: bytes, fp: Fingerprint, relative': bytes, fp': Fingerprint)
    requires Fields(KeyTail(disk, relative, fp)) == Fields(KeyTail(disk, relative', fp'))
    ensures fp == fp' && disk.sha(relative) == disk.sha(relative')
  {
    var tail, tail' := KeyTail(disk, relative, fp), KeyTail(disk, relative', fp');
    ReadFieldsInverse(tail);
    ReadFieldsInverse(tail');
    assert tail[0] == tail'[0] && tail[1..] == FingerprintFields(fp) && tail'[1..] == FingerprintFields(fp');
    FingerprintFieldsInjective(fp, fp');
  }

  lemma EqualSuffix(a: bytes, b: bytes, a': bytes, b': bytes)
    requires a + b == a' + b' && |b| == |b'|
    ensures b == b'
  {
    assert b == (a + b)[|a|..] && b' == (a' + b')[|a'|..];
  }

  /** A key determines the fingerprint in it, however long the target's strings are. */
  lemma {:induction false} KeyNamesOneFingerprint(
    disk: Disk, t: Target, relative: bytes, fp: Fingerprint, t': Target, relative': bytes, fp': Fingerprint)
    requires NewCacheKey(disk, t, relative, fp) == NewCacheKey(disk, t', relative', fp')
    ensures fp == fp' && disk.sha(relative) == disk.sha(relative')
  {
    var head, head' := [CACHE_FORMAT, t.observationID, t.kind, t.subject],
                       [CACHE_FORMAT, t'.observationID, t'.kind, t'.subject];
    FieldsAppend(head, KeyTail(disk, relative, fp));
    FieldsAppend(head', KeyTail(disk, relative', fp'));
    KeyTailWidth(disk, relative, fp);
    KeyTailWidth(disk, relative', fp');
    EqualSuffix(Fields(head), Fields(KeyTail(disk, relative, fp)), Fields(head'), Fields(KeyTail(disk, relative', fp')));
    KeyTailInjective(disk, relative, fp, relative', fp');
  }

  predicate ValidContentCacheEntry(e: CacheEntry) {
    e.status == Complete && e.algorithm == ALGORITHM && e.format == CACHE_FORMAT && e.digest.Some? && e.size >= 0
  }

  function EntryOf(key: Key, row: Row): CacheEntry {
    CacheEntry(key, Complete, row.algorithm, row.format, row.digest, row.size)
  }

  /** The entry records the digest of the leaf that its key names; readers check the size themselves. */
  ghost predicate TrueEntry(disk: Disk, e: CacheEntry) {
    forall t: Target, relative: bytes, fp: Fingerprint | e.key == NewCacheKey(disk, t, relative, fp) ::
      e.digest == Some(disk.Leaf(fp))
  }

  ghost predicate Truthful(disk: Disk, rows: map<Key, Row>) {
    forall key | key in rows :: ValidContentCacheEntry(EntryOf(key, rows[key])) ==> TrueEntry(disk, EntryOf(key, rows[key]))
  }

  ghost predicate TrueWrites(disk: Disk, writes: seq<CacheWrite>) {
    forall w | w in writes :: w.key == w.entry.key && TrueEntry(disk, w.entry)
  }

  function Upsert(rows: map<Key, Row>, w: CacheWrite, now: int): map<Key, Row> {
    if w.entry.key != w.key || !ValidContentCacheEntry(w.entry) then rows
    else rows[w.key := StoredRow(w.entry, now)]
  }

  function UpsertAll(rows: map<Key, Row>, writes: seq<CacheWrite>, now: int): map<Key, Row> {
    if writes == [] then rows else Upsert(UpsertAll(rows, writes[..|writes| - 1], now), writes[|writes| - 1], now)
  }

  /** What the store takes: a complete summary under its own key, in this format. */
  predicate Taken(w: CacheWrite) {
    && w.entry.key == w.key && w.entry.status == Complete && w.entry.algorithm == ALGORITHM
    && w.entry.format == CACHE_FORMAT && w.entry.digest.Some? && w.entry.size >= 0
  }

  /** The i-th write is the last one taken for its key. */
  ghost predicate LastFor(writes: seq<CacheWrite>, i: nat) {
    i < |writes| && Taken(writes[i]) && forall j | i < j < |writes| && Taken(writes[j]) :: writes[j].key != writes[i].key
  }

  lemma {:induction false} UpsertTakes(rows: map<Key, Row>, w: CacheWrite, now: int)
    ensures Upsert(rows, w, now) == if Taken(w) then rows[w.key := StoredRow(w.entry, now)] else rows
    ensures StoredRow(w.entry, now).lastUsed == now
  {}

  /** After the upserts, a key has the fields of its last write and the time, or is as it was before. */
  lemma {:induction false} UpsertsTake(rows: map<Key, Row>, writes: seq<CacheWrite>, now: int)
    ensures var table := UpsertAll(rows, writes, now);
            && (forall i | 0 <= i < |writes| && LastFor(writes, i) ::
                  writes[i].key in table && table[writes[i].key] == StoredRow(writes[i].entry, now))
            && (forall key | (forall w | w in writes && Taken(w) :: w.key != key) ::
                  (key in table <==> key in rows) && (key in rows ==> table[key] == rows[key]))
            && (forall key | key in rows :: key in table && (table[key] == rows[key] || table[key].lastUsed == now))
  {
    hide Upsert, Taken, StoredRow;
    if writes != [] {
      var n := |writes| - 1;
      var before := writes[..n];
      UpsertsTake(rows, before, now);
      UpsertTakes(UpsertAll(rows, before, now), writes[n], now);
      forall i | 0 <= i < n && LastFor(writes, i)
        ensures LastFor(before, i) && !(Taken(writes[n]) && writes[n].key == writes[i].key)
      {
        assert forall j | i < j < n && Taken(before[j]) :: before[j] == writes[j];
      }
      assert writes == before + [writes[n]];
      assert forall w | w in before :: w in writes;
      assert writes[n] in writes;
    }
  }

  function StoredRow(e: CacheEntry, now: int): Row {
    Row(e.algorithm, e.format, e.digest, e.size, now)
  }

  /** The pruning order: least recently used first, and by the key's own bytes among equals. */
  predicate Sooner(rows: map<Key, Row>, raw: Key -> bytes, a: Key, b: Key)
    requires a in rows && b in rows
  {
    rows[a].lastUsed < rows[b].lastUsed || (rows[a].lastUsed == rows[b].lastUsed && Less(raw(a), raw(b)))
  }

  /** Pruning keeps rows as they were, none stale, none to go before a row it dropped, and at most `limit`. */
  ghost predicate Pruned(before: map<Key, Row>, after: map<Key, Row>, raw: Key -> bytes, cutoff: int, limit: nat) {
    && after.Keys <= before.Keys
    && |after| <= limit
    && (forall key | key in after :: after[key] == before[key] && cutoff <= after[key].lastUsed)
    && (forall key | key in before :: key !in after ==>
          || before[key].lastUsed < cutoff
          || (|after| == limit
              && forall kept | kept in after ::
                   || before[key].lastUsed < before[kept].lastUsed
                   || (before[key].lastUsed == before[kept].lastUsed && !Less(raw(kept), raw(key)))))
  }

  lemma {:induction false} UpsertsStayTruthful(disk: Disk, rows: map<Key, Row>, writes: seq<CacheWrite>, now: int)
    requires Truthful(disk, rows) && TrueWrites(disk, writes)
    ensures Truthful(disk, UpsertAll(rows, writes, now))
  {
    if writes != [] {
      var last := writes[|writes| - 1];
      UpsertsStayTruthful(disk, rows, writes[..|writes| - 1], now);
      assert last in writes;
      assert ValidContentCacheEntry(last.entry) && last.key == last.entry.key ==>
          EntryOf(last.key, Row(last.entry.algorithm, last.entry.format, last.entry.digest, last.entry.size, now)) == last.entry;
    }
  }

  /** Malformed and future-format rows read as misses. */
  function Find(rows: map<Key, Row>, key: Key): (found: Option<CacheEntry>)
    ensures forall disk | Truthful(disk, rows) && found.Some? :: TrueEntry(disk, found.value)
    ensures found.Some? ==> ValidContentCacheEntry(found.value) && found.value.key == key
  {
    if key in rows && ValidContentCacheEntry(EntryOf(key, rows[key])) then Some(EntryOf(key, rows[key])) else None
  }

  /**
   * Lookup: an error, when the context is done or the query fails, never comes with an entry; otherwise there is
   * an entry exactly when a valid row is stored under the key, and it is that row.
   */
  method Lookup(rows: map<Key, Row>, key: Key, contextDone: bool, queryFails: bool)
    returns (found: Option<CacheEntry>, failed: bool)
    ensures failed <==> contextDone || queryFails
    ensures failed ==> found.None?
    ensures !failed ==>
              (found.Some? <==>
                 && key in rows && rows[key].algorithm == ALGORITHM && rows[key].format == CACHE_FORMAT
                 && rows[key].digest.Some? && rows[key].size >= 0)
    ensures found.Some? ==>
              found.value == CacheEntry(key, Complete, ALGORITHM, CACHE_FORMAT, rows[key].digest, rows[key].size)
    ensures found.Some? ==> found == Find(rows, key)
  {
    if contextDone { return None, true; }
    if queryFails { return None, true; }
    if key !in rows { return None, false; }
    var entry := EntryOf(key, rows[key]);
    if !ValidContentCacheEntry(entry) { return None, false; }
    return Some(entry), false;
  }

  /**
   * A commit leaves under each key the fields of the last write taken for it, used now, and under any other key what
   * was there; what it leaves out was too old or is over the limit.
   */
  ghost predicate Remembers(before: map<Key, Row>, after: map<Key, Row>, writes: seq<CacheWrite>, now: int, limit: nat) {
    && (forall i | 0 <= i < |writes| && LastFor(writes, i) ::
          var e := writes[i].entry;
          if e.key in after then after[e.key] == Row(e.algorithm, e.format, e.digest, e.size, now) else |after| == limit)
    && (forall key | key in after && (forall w | w in writes && Taken(w) :: w.key != key) ::
          key in before && after[key] == before[key])
    && (forall key | key in before && key !in after ::
          before[key].lastUsed < now - 90 * 24 * 3600 * 1_000_000_000 || |after| == limit)
  }

  lemma {:induction false} PrunedRemembers(
    before: map<Key, Row>, after: map<Key, Row>, writes: seq<CacheWrite>, now: int, raw: Key -> bytes, limit: nat)
    requires Pruned(UpsertAll(before, writes, now), after, raw, now - RETENTION, limit)
    ensures Remembers(before, after, writes, now, limit)
  {
    hide UpsertAll, Sooner;
    UpsertsTake(before, writes, now);
  }

  class ContentStore {
    var rows: map<Key, Row>
    const rowLimit: int
    // The 32 bytes of a key, by which the table orders rows used at one time.
    const raw: Key -> bytes

    constructor (rowLimit: int, raw: Key -> bytes)
      ensures rows == map[] && this.rowLimit == rowLimit && this.raw == raw
    {
      rows := map[];
      this.rowLimit, this.raw := rowLimit, raw;
    }

    function EffectiveLimit(): nat {
      if rowLimit <= 0 then DEFAULT_ROW_LIMIT else rowLimit
    }

    /** One transaction: it commits everything or leaves the table as it was. */
    method StoreContentCache(writes: seq<CacheWrite>, now: int, failing: bool) returns (committed: bool)
      modifies this
      ensures committed == !failing
      ensures failing || writes == [] ==> rows == old(rows)
      ensures !failing && writes != [] ==>
                Pruned(UpsertAll(old(rows), writes, now), rows, raw, now - RETENTION, EffectiveLimit())
      ensures !failing ==> Remembers(old(rows), rows, writes, now, if rowLimit <= 0 then 250_000 else rowLimit)
      ensures !failing && writes != [] ==>
                && |rows| <= (if rowLimit <= 0 then 250_000 else rowLimit)
                && forall key | key in rows :: now - 90 * 24 * 3600 * 1_000_000_000 <= rows[key].lastUsed
      ensures forall disk | Truthful(disk, old(rows)) && TrueWrites(disk, writes) :: Truthful(disk, rows)
    {
      if failing || writes == [] {
        return !failing;
      }
      var table := rows;
      for i := 0 to |writes|
        invariant table == UpsertAll(old(rows), writes[..i], now)
      {
        table := Upsert(table, writes[i], now);
        assert writes[..i + 1][..i] == writes[..i];
      }
      assert writes[..|writes|] == writes;
      rows := Prune(table, raw, now - RETENTION, EffectiveLimit());
      PrunedRemembers(old(rows), rows, writes, now, raw, EffectiveLimit());
      forall disk | Truthful(disk, old(rows)) && TrueWrites(disk, writes)
        ensures Truthful(disk, rows)
      {
        UpsertsStayTruthful(disk, old(rows), writes, now);
        PrunedStaysTruthful(disk, table, rows, raw, now - RETENTION, EffectiveLimit());
      }
      committed := true;
    }
  }

  lemma PrunedStaysTruthful(disk: Disk, before: map<Key, Row>, after: map<Key, Row>, raw: Key -> bytes, cutoff: int, limit: nat)
    requires Truthful(disk, before) && Pruned(before, after, raw, cutoff, limit)
    ensures Truthful(disk, after)
  {}

  /** The two deletes: rows unused since the cutoff, and then the rows above the cap. */
  method Prune(rows: map<Key, Row>, raw: Key -> bytes, cutoff: int, limit: nat) returns (kept: map<Key, Row>)
    ensures Pruned(rows, kept, raw, cutoff, limit)
  {
    var recent := map key | key in rows && cutoff <= rows[key].lastUsed :: rows[key];
    kept := DropOldest(recent, raw, limit);
    forall key <- rows, other <- kept | key !in kept && cutoff <= rows[key].lastUsed
      ensures !Sooner(rows, raw, other, key)
    {
      assert key in recent && other in recent;
    }
  }

  /** The rows above the cap go, in the pruning order. */
  method DropOldest(rows: map<Key, Row>, raw: Key -> bytes, limit: nat) returns (kept: map<Key, Row>)
    ensures kept.Keys <= rows.Keys && forall key | key in kept :: kept[key] == rows[key]
    ensures |kept| == if |rows| <= limit then |rows| else limit
    ensures forall key <- rows, other <- kept | key !in kept ::
              || rows[key].lastUsed < rows[other].lastUsed
              || (rows[key].lastUsed == rows[other].lastUsed && !Less(raw(other), raw(key)))
    ensures kept == rows || |kept| == limit
  {
    kept := rows;
    while |kept| > limit
      invariant kept.Keys <= rows.Keys && forall key | key in kept :: kept[key] == rows[key]
      invariant |kept| == |rows| || |kept| >= limit
      invariant |rows| <= limit ==> kept == rows
      invariant kept == rows || |kept| >= limit
      invariant forall key <- rows, other <- kept | key !in kept :: !Sooner(rows, raw, other, key)
    {
      var oldest := Oldest(kept, raw);
      assert kept.Keys - {oldest} == (kept - {oldest}).Keys;
      kept := kept - {oldest};
    }
  }

  method Oldest(rows: map<Key, Row>, raw: Key -> bytes) returns (oldest: Key)
    requires |rows| > 0
    ensures oldest in rows && forall key | key in rows :: !Sooner(rows, raw, key, oldest)
  {
    var left := rows.Keys;
    oldest :| oldest in left;
    LessIrreflexive(raw(oldest));
    while left != {}
      invariant left <= rows.Keys && oldest in rows
      invariant !Sooner(rows, raw, oldest, oldest)
      invariant forall key <- rows | key !in left :: !Sooner(rows, raw, key, oldest)
      decreases |left|
    {
      var key :| key in left;
      left := left - {key};
      if Sooner(rows, raw, key, oldest) {
        forall other <- rows | other !in left
          ensures !Sooner(rows, raw, other, key)
        {
          LessIrreflexive(raw(key));
          if Sooner(rows, raw, other, key) { SoonerIsTransitive(rows, raw, other, key, oldest); }
        }
        oldest := key;
      }
    }
  }

  lemma {:induction false} SoonerIsTransitive(rows: map<Key, Row>, raw: Key -> bytes, a: Key, b: Key, c: Key)
    requires a in rows && b in rows && c in rows && Sooner(rows, raw, a, b) && Sooner(rows, raw, b, c)
    ensures Sooner(rows, raw, a, c)
  {
    if rows[a].lastUsed == rows[c].lastUsed { LessTransitive(raw(a), raw(b), raw(c)); }
  }
}
