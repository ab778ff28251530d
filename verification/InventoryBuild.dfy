// Build: collector results merged into one inventory, whatever order they came in.
module InventoryBuild {
  import opened Framing
  import opened Ordering
  import opened Sorting
  import opened Inventory

  datatype CollectorResult = CollectorResult(
    assets: seq<Asset>, observations: seq<Observation>, relationships: seq<Relationship>)

  // Everything the collectors reported, without order or repetition.
  datatype Reported = Reported(assets: set<Asset>, observations: set<Observation>, relationships: set<Relationship>) {
    function Plus(r: CollectorResult): Reported {
      Reported(assets + Elements(r.assets), observations + Elements(r.observations), relationships + Elements(r.relationships))
    }
  }

  function AllReported(results: seq<CollectorResult>): Reported {
    if results == [] then Reported({}, {}, {}) else AllReported(results[..|results| - 1]).Plus(results[|results| - 1])
  }

  lemma NextResult(results: seq<CollectorResult>, i: nat)
    requires i < |results|
    ensures AllReported(results[..i + 1]) == AllReported(results[..i]).Plus(results[i])
  {
    assert results[..i + 1][..i] == results[..i];
  }

  lemma NextCandidate<T>(seen: set<T>, candidates: seq<T>, j: nat)
    requires j < |candidates|
    ensures seen + Elements(candidates[..j + 1]) == seen + Elements(candidates[..j]) + {candidates[j]}
  {
    assert candidates[..j + 1] == candidates[..j] + [candidates[j]];
  }

  function Bare(a: Asset): Asset {
    a.(metadata := map[])
  }

  /** The canonical forms tell candidates apart. */
  ghost predicate Faithful(canon: Canon, all: Reported) {
    && (forall a, b | a in all.assets && b in all.assets && canon.asset(Bare(a)) == canon.asset(Bare(b)) :: Bare(a) == Bare(b))
    && (forall o, p | o in all.observations && p in all.observations && canon.observation(o) == canon.observation(p) :: o == p)
  }

  // ------------------------------------------------------------ what Build gives

  function AssetIDs(assets: set<Asset>): set<bytes> {
    set a | a in assets :: a.id
  }

  function MetadataKeys(assets: set<Asset>, id: bytes): set<bytes> {
    set a, k | a in assets && a.id == id && k in a.metadata :: k
  }

  function Values(assets: set<Asset>, id: bytes, key: bytes): set<bytes> {
    set a | a in assets && a.id == id && key in a.metadata :: a.metadata[key]
  }

  function ConflictingKeys(assets: set<Asset>, id: bytes): set<bytes> {
    set k | k in MetadataKeys(assets, id) && |Values(assets, id, k)| != 1
  }

  /** The least variant of an asset, with the metadata on which its variants agree. */
  ghost predicate IsMerged(canon: Canon, assets: set<Asset>, id: bytes, merged: Asset) {
    && (exists a <- assets :: a.id == id && Bare(a) == Bare(merged))
    && (forall a <- assets | a.id == id :: !Less(canon.asset(Bare(a)), canon.asset(Bare(merged))))
    && merged.metadata.Keys == MetadataKeys(assets, id) - ConflictingKeys(assets, id)
    && (forall k | k in merged.metadata :: Values(assets, id, k) == {merged.metadata[k]})
  }

  /** The least variant of each observation. */
  ghost predicate AreWinners(canon: Canon, observations: set<Observation>, winners: map<bytes, Observation>) {
    && (forall o | o in observations :: o.id in winners && !Less(canon.observation(o), canon.observation(winners[o.id])))
    && (forall id | id in winners :: winners[id] in observations && winners[id].id == id)
  }

  function ConflictingObservations(canon: Canon, observations: set<Observation>): set<bytes> {
    set o, p | o in observations && p in observations && o.id == p.id && canon.observation(o) != canon.observation(p) :: o.id
  }

  ghost function MetadataErrors(assets: set<Asset>, ids: seq<bytes>): seq<CoverageError> {
    if ids == [] then []
    else
      var id := ids[|ids| - 1];
      MetadataErrors(assets, ids[..|ids| - 1]) + ConflictErrors(id, InOrder(ConflictingKeys(assets, id)))
  }

  function ConflictErrors(id: bytes, keys: seq<bytes>): seq<CoverageError> {
    seq(|keys|, i requires 0 <= i < |keys| => MetadataConflict(id, keys[i]))
  }

  function ObservationErrors(ids: seq<bytes>): seq<CoverageError> {
    seq(|ids|, i requires 0 <= i < |ids| => ObservationConflict(ids[i]))
  }

  function Kept(winners: map<bytes, Observation>, valid: set<bytes>, ids: seq<bytes>): seq<Observation>
    requires forall id | id in ids :: id in winners
  {
    if ids == [] then []
    else
      var before, o := Kept(winners, valid, ids[..|ids| - 1]), winners[ids[|ids| - 1]];
      if o.assetID in valid then before + [o] else before
  }

  function Orphans(winners: map<bytes, Observation>, valid: set<bytes>, ids: seq<bytes>): seq<CoverageError>
    requires forall id | id in ids :: id in winners
  {
    if ids == [] then []
    else
      var before, o := Orphans(winners, valid, ids[..|ids| - 1]), winners[ids[|ids| - 1]];
      if o.assetID in valid then before else before + [OrphanObservation]
  }

  predicate ValidRelationship(validKind: bytes -> bool, valid: set<bytes>, r: Relationship) {
    validKind(r.kind) && r.from != r.to && r.from in valid && r.to in valid
  }

  function RelationshipKey(r: Relationship): seq<bytes> {
    [r.from, r.kind, r.to]
  }

  /** The inventory built from what was reported. */
  ghost predicate IsBuild(canon: Canon, validKind: bytes -> bool, all: Reported, winners: map<bytes, Observation>, inv: Inventory) {
    var ids, valid := InOrder(AssetIDs(all.assets)), AssetIDs(all.assets);
    && AreWinners(canon, all.observations, winners)
    && |inv.assets| == |ids|
    && (forall i | 0 <= i < |ids| :: inv.assets[i].id == ids[i] && IsMerged(canon, all.assets, ids[i], inv.assets[i]))
    && inv.observations == Kept(winners, valid, InOrder(winners.Keys))
    && InKeyOrder(RelationshipKey, inv.relationships)
    && multiset(inv.relationships) == multiset(set r | r in all.relationships && ValidRelationship(validKind, valid, r))
    && inv.evidence == []
    && inv.errors == MetadataErrors(all.assets, ids) + Orphans(winners, valid, InOrder(winners.Keys))
                     + ObservationErrors(InOrder(ConflictingObservations(canon, all.observations)))
  }

  lemma MergedIsUnique(canon: Canon, all: Reported, id: bytes, a: Asset, b: Asset)
    requires Faithful(canon, all) && IsMerged(canon, all.assets, id, a) && IsMerged(canon, all.assets, id, b)
    ensures a == b
  {
    var x :| x in all.assets && x.id == id && Bare(x) == Bare(a);
    var y :| y in all.assets && y.id == id && Bare(y) == Bare(b);
    LessTotal(canon.asset(Bare(x)), canon.asset(Bare(y)));
    assert Bare(a) == Bare(b);
    SameMetadata(all.assets, id, a.metadata, b.metadata);
    assert a == Bare(a).(metadata := a.metadata) && b == Bare(b).(metadata := b.metadata);
  }

  lemma SameMetadata(assets: set<Asset>, id: bytes, m: map<bytes, bytes>, m': map<bytes, bytes>)
    requires m.Keys == m'.Keys
    requires (forall k | k in m :: Values(assets, id, k) == {m[k]}) && forall k | k in m' :: Values(assets, id, k) == {m'[k]}
    ensures m == m'
  {
    hide Values;
    forall k | k in m
      ensures m[k] == m'[k]
    {
      assert m[k] in Values(assets, id, k);
    }
  }

  lemma WinnersAreUnique(canon: Canon, all: Reported, w: map<bytes, Observation>, w': map<bytes, Observation>)
    requires Faithful(canon, all) && AreWinners(canon, all.observations, w) && AreWinners(canon, all.observations, w')
    ensures w == w'
  {
    forall id | id in w
      ensures id in w' && w[id] == w'[id]
    {
      assert w[id].id in w';
      LessTotal(canon.observation(w[id]), canon.observation(w'[id]));
    }
    forall id | id in w'
      ensures id in w
    {
      assert w'[id].id in w;
    }
  }

  /**
   * Build does not depend on the order or repetition of results, or of anything inside them:
   * the same variants win, the same conflicts are reported, in the same order.
   */
  lemma {:induction false} BuildIgnoresOrder(
    canon: Canon, validKind: bytes -> bool, results: seq<CollectorResult>, results': seq<CollectorResult>,
    w: map<bytes, Observation>, w': map<bytes, Observation>, inv: Inventory, inv': Inventory)
    requires AllReported(results) == AllReported(results') && Faithful(canon, AllReported(results))
    requires IsBuild(canon, validKind, AllReported(results), w, inv)
    requires IsBuild(canon, validKind, AllReported(results'), w', inv')
    ensures inv == inv'
  {
    var all := AllReported(results);
    WinnersAreUnique(canon, all, w, w');
    forall i | 0 <= i < |inv.assets|
      ensures inv.assets[i] == inv'.assets[i]
    {
      MergedIsUnique(canon, all, InOrder(AssetIDs(all.assets))[i], inv.assets[i], inv'.assets[i]);
    }
    OneListing(RelationshipKey, inv.relationships, inv'.relationships);
  }

  lemma {:induction false} KeptAreOwned(winners: map<bytes, Observation>, valid: set<bytes>, ids: seq<bytes>)
    requires forall id | id in ids :: id in winners
    ensures forall o | o in Kept(winners, valid, ids) :: o.assetID in valid && o in winners.Values
  {
    if ids != [] { KeptAreOwned(winners, valid, ids[..|ids| - 1]); }
  }

  ghost predicate Ascending(observations: seq<Observation>) {
    forall i, j | 0 <= i < j < |observations| :: Less(observations[i].id, observations[j].id)
  }

  lemma AppendAscends(before: seq<Observation>, o: Observation)
    requires Ascending(before) && forall b | b in before :: Less(b.id, o.id)
    ensures Ascending(before + [o])
  {
    hide Less;
  }

  /** Winners listed by ascending ID stay in order, whichever of them are dropped. */
  lemma {:induction false} KeptAscend(winners: map<bytes, Observation>, valid: set<bytes>, ids: seq<bytes>)
    requires (forall id | id in ids :: id in winners && winners[id].id == id) && StrictlySorted(ids)
    ensures forall o | o in Kept(winners, valid, ids) :: o.id in ids
    ensures Ascending(Kept(winners, valid, ids))
  {
    hide Less;
    if ids != [] {
      var n := |ids| - 1;
      KeptAscend(winners, valid, ids[..n]);
      assert forall id | id in ids[..n] :: Less(id, ids[n]);
      AppendAscends(Kept(winners, valid, ids[..n]), winners[ids[n]]);
    }
  }

  lemma {:induction false} WinnersAscend(
    canon: Canon, observations: set<Observation>, valid: set<bytes>, w: map<bytes, Observation>)
    requires AreWinners(canon, observations, w)
    ensures Ascending(Kept(w, valid, InOrder(w.Keys)))
  {
    hide Less, Ascending, Kept;
    KeptAscend(w, valid, InOrder(w.Keys));
  }

  /** Relationships come by where they start, then by their kind, and then by where they end. */
  predicate EndsBefore(a: Relationship, b: Relationship) {
    Less(a.from, b.from) || (a.from == b.from && (Less(a.kind, b.kind) || (a.kind == b.kind && Less(a.to, b.to))))
  }

  lemma EndsInOrder(s: seq<Relationship>)
    ensures InKeyOrder(RelationshipKey, s) ==> forall i, j | 0 <= i < j < |s| :: EndsBefore(s[i], s[j])
  {
    hide Less, ColumnsLess;
    ColumnsIrreflexive([]);
    forall i, j | 0 <= i < j < |s| && ColumnsLess(RelationshipKey(s[i]), RelationshipKey(s[j]))
      ensures EndsBefore(s[i], s[j])
    {
      var a, b := s[i], s[j];
      assert RelationshipKey(a) == [a.from] + [a.kind, a.to] && RelationshipKey(b) == [b.from] + [b.kind, b.to];
      NextColumn(a.from, [a.kind, a.to], b.from, [b.kind, b.to]);
      assert [a.kind, a.to] == [a.kind] + [a.to] && [b.kind, b.to] == [b.kind] + [b.to];
      NextColumn(a.kind, [a.to], b.kind, [b.to]);
      assert [a.to] == [a.to] + [] && [b.to] == [b.to] + [];
      NextColumn(a.to, [], b.to, []);
    }
  }

  /**
   * The graph is closed: every end of every edge is an asset that is there, and no edge is a loop. Every listing is
   * in strict order: assets and observations by ID, relationships by their three columns.
   */
  lemma BuildIsClosed(canon: Canon, validKind: bytes -> bool, all: Reported, w: map<bytes, Observation>, inv: Inventory)
    requires IsBuild(canon, validKind, all, w, inv)
    ensures IDs(inv.assets) == AssetIDs(all.assets)
    ensures forall i, j | 0 <= i < j < |inv.assets| :: Less(inv.assets[i].id, inv.assets[j].id)
    ensures forall o | o in inv.observations :: o.assetID in IDs(inv.assets)
    ensures Ascending(inv.observations)
    ensures forall r | r in inv.relationships :: r.from in IDs(inv.assets) && r.to in IDs(inv.assets) && r.from != r.to
    ensures InKeyOrder(RelationshipKey, inv.relationships)
    ensures forall i, j | 0 <= i < j < |inv.relationships| :: EndsBefore(inv.relationships[i], inv.relationships[j])
  {
    EndsInOrder(inv.relationships);
    hide IsMerged, Kept, Orphans, MetadataErrors, AreWinners, Less, InKeyOrder;
    SameIDs(inv.assets, InOrder(AssetIDs(all.assets)));
    KeptAreOwned(w, AssetIDs(all.assets), InOrder(w.Keys));
    WinnersAscend(canon, all.observations, AssetIDs(all.assets), w);
    EdgesAreValid(validKind, all, AssetIDs(all.assets), inv.relationships);
  }

  /** Two variants of an asset that disagree on a metadata key. */
  ghost predicate Disagree(assets: set<Asset>, id: bytes, key: bytes) {
    exists a, b :: a in assets && b in assets && a.id == b.id == id && key in a.metadata && key in b.metadata
                   && a.metadata[key] != b.metadata[key]
  }

  lemma ConflictsDisagree(assets: set<Asset>, id: bytes, key: bytes)
    ensures key in ConflictingKeys(assets, id) <==> Disagree(assets, id, key)
  {
    var values := Values(assets, id, key);
    if key in MetadataKeys(assets, id) {
      var a :| a in assets && a.id == id && key in a.metadata;
      var v := a.metadata[key];
      assert v in values;
      if |values| != 1 {
        assert values != {v};
        var w :| w in values && w != v;
        var b :| b in assets && b.id == id && key in b.metadata && b.metadata[key] == w;
      } else {
        assert |values - {v}| == 0;
        assert values == {v};
        assert forall b | b in assets && b.id == id && key in b.metadata :: b.metadata[key] in values;
      }
    }
  }

  lemma {:induction false} MetadataErrorsAre(assets: set<Asset>, ids: seq<bytes>, e: CoverageError)
    ensures e in MetadataErrors(assets, ids) <==>
              e.MetadataConflict? && e.assetID in ids && e.key in ConflictingKeys(assets, e.assetID)
  {
    hide ConflictingKeys, ConflictErrors, InOrder;
    if ids != [] {
      var n := |ids| - 1;
      MetadataErrorsAre(assets, ids[..n], e);
      ConflictErrorsAre(ids[n], InOrder(ConflictingKeys(assets, ids[n])), e);
      assert ids == ids[..n] + [ids[n]];
    }
  }

  lemma ConflictErrorsAre(id: bytes, keys: seq<bytes>, e: CoverageError)
    ensures e in ConflictErrors(id, keys) <==> e.MetadataConflict? && e.assetID == id && e.key in keys
  {
    var errors := ConflictErrors(id, keys);
    if e.MetadataConflict? && e.assetID == id && e.key in keys {
      var i :| 0 <= i < |keys| && keys[i] == e.key;
      assert errors[i] == e;
    }
  }

  lemma {:induction false} OrphansAre(w: map<bytes, Observation>, valid: set<bytes>, ids: seq<bytes>)
    requires forall id | id in ids :: id in w
    ensures forall e | e in Orphans(w, valid, ids) :: e == OrphanObservation
    ensures |Orphans(w, valid, ids)| + |Kept(w, valid, ids)| == |ids|
    ensures forall o :: o in Kept(w, valid, ids) <==> exists id <- ids :: w[id] == o && o.assetID in valid
  {
    if ids != [] {
      var n := |ids| - 1;
      OrphansAre(w, valid, ids[..n]);
      assert ids == ids[..n] + [ids[n]];
      assert forall id | id in ids :: id in ids[..n] || id == ids[n];
      assert ids[n] in ids;
    }
  }

  lemma ObservationErrorsAre(ids: seq<bytes>, e: CoverageError)
    ensures e in ObservationErrors(ids) <==> e.ObservationConflict? && e.id in ids
  {
    var errors := ObservationErrors(ids);
    if e.ObservationConflict? && e.id in ids {
      var i :| 0 <= i < |ids| && ids[i] == e.id;
      assert errors[i] == e;
    }
  }

  /**
   * What is reported and what is kept: a conflict for each metadata key on which two variants of an asset disagree, one for
   * each observation that came in two forms, and one orphan for each observation left out, which is each whose asset is
   * not there.
   */
  lemma BuildReports(canon: Canon, validKind: bytes -> bool, all: Reported, w: map<bytes, Observation>, inv: Inventory,
                     id: bytes, key: bytes)
    requires IsBuild(canon, validKind, all, w, inv)
    ensures MetadataConflict(id, key) in inv.errors <==> Disagree(all.assets, id, key)
    ensures ObservationConflict(id) in inv.errors <==>
              exists o, p :: && o in all.observations && p in all.observations && o.id == p.id == id
                             && canon.observation(o) != canon.observation(p)
    ensures multiset(inv.errors)[OrphanObservation] + |inv.observations| == |w|
    ensures forall o :: o in inv.observations <==> o.id in w && w[o.id] == o && exists a <- all.assets :: a.id == o.assetID
  {
    hide IsMerged, Less, InKeyOrder;
    var ids, valid := InOrder(AssetIDs(all.assets)), AssetIDs(all.assets);
    assert AreWinners(canon, all.observations, w);
    OrphansAre(w, valid, InOrder(w.Keys));
    MetadataErrorsAre(all.assets, ids, MetadataConflict(id, key));
    MetadataErrorsAre(all.assets, ids, ObservationConflict(id));
    ObservationErrorsAre(InOrder(ConflictingObservations(canon, all.observations)), MetadataConflict(id, key));
    ObservationErrorsAre(InOrder(ConflictingObservations(canon, all.observations)), ObservationConflict(id));
    ConflictsDisagree(all.assets, id, key);
    CountOrphans(canon, all, w, inv, validKind);
    hide Kept, Orphans, MetadataErrors, ObservationErrors, ConflictingKeys, AreWinners;
  }

  lemma CountOrphans(canon: Canon, all: Reported, w: map<bytes, Observation>, inv: Inventory, validKind: bytes -> bool)
    requires IsBuild(canon, validKind, all, w, inv)
    ensures multiset(inv.errors)[OrphanObservation] + |inv.observations| == |w|
  {
    hide IsMerged, Less, InKeyOrder, AreWinners;
    var ids, valid := InOrder(AssetIDs(all.assets)), AssetIDs(all.assets);
    var a, b := MetadataErrors(all.assets, ids), Orphans(w, valid, InOrder(w.Keys));
    var c := ObservationErrors(InOrder(ConflictingObservations(canon, all.observations)));
    assert AreWinners(canon, all.observations, w) ==> forall k | k in InOrder(w.Keys) :: k in w;
    OrphansAre(w, valid, InOrder(w.Keys));
    MetadataErrorsAre(all.assets, ids, OrphanObservation);
    ObservationErrorsAre(InOrder(ConflictingObservations(canon, all.observations)), OrphanObservation);
    assert multiset(inv.errors) == multiset(a) + multiset(b) + multiset(c);
    AllTheSame(b, OrphanObservation);
    assert |InOrder(w.Keys)| == |multiset(InOrder(w.Keys))| == |multiset(w.Keys)| == |w.Keys| == |w|;
  }

  lemma {:induction false} AllTheSame<T>(s: seq<T>, x: T)
    requires forall y | y in s :: y == x
    ensures multiset(s)[x] == |s|
  {
    if s != [] {
      assert s == [s[0]] + s[1..] && s[0] in s;
      assert forall y | y in s[1..] :: y in s;
      AllTheSame(s[1..], x);
    }
  }

  /** The relationships kept are those of a valid kind between two different assets that are there. */
  lemma RelationshipsKept(canon: Canon, validKind: bytes -> bool, all: Reported, w: map<bytes, Observation>, inv: Inventory,
                          r: Relationship)
    requires IsBuild(canon, validKind, all, w, inv)
    ensures r in inv.relationships <==>
              && r in all.relationships && validKind(r.kind) && r.from != r.to
              && (exists a <- all.assets :: a.id == r.from) && (exists a <- all.assets :: a.id == r.to)
  {
    hide IsMerged, Less, InKeyOrder, AreWinners, Kept, Orphans, MetadataErrors, ObservationErrors;
    assert r in inv.relationships <==> r in multiset(inv.relationships);
  }

  /** Each asset has the metadata on which all its variants agree that have it. */
  lemma MetadataKept(canon: Canon, validKind: bytes -> bool, all: Reported, w: map<bytes, Observation>, inv: Inventory,
                     a: Asset, key: bytes)
    requires IsBuild(canon, validKind, all, w, inv) && a in inv.assets
    ensures key in a.metadata <==>
              (exists b <- all.assets :: b.id == a.id && key in b.metadata) && !Disagree(all.assets, a.id, key)
    ensures key in a.metadata ==>
              forall b | b in all.assets && b.id == a.id && key in b.metadata :: b.metadata[key] == a.metadata[key]
  {
    hide Less, InKeyOrder, AreWinners, Kept, Orphans, MetadataErrors, ObservationErrors;
    ConflictsDisagree(all.assets, a.id, key);
    var i :| 0 <= i < |inv.assets| && inv.assets[i] == a;
    assert IsMerged(canon, all.assets, a.id, a);
    hide IsBuild, ConflictingKeys;
    if key in a.metadata {
      forall b | b in all.assets && b.id == a.id && key in b.metadata
        ensures b.metadata[key] == a.metadata[key]
      {
        assert b.metadata[key] in Values(all.assets, a.id, key);
      }
    }
  }

  lemma EdgesAreValid(validKind: bytes -> bool, all: Reported, valid: set<bytes>, edges: seq<Relationship>)
    requires multiset(edges) == multiset(set r | r in all.relationships && ValidRelationship(validKind, valid, r))
    ensures forall r | r in edges :: ValidRelationship(validKind, valid, r)
  {
    assert forall r | r in edges :: r in multiset(edges);
  }

  lemma SameIDs(assets: seq<Asset>, ids: seq<bytes>)
    requires |assets| == |ids| && forall i | 0 <= i < |ids| :: assets[i].id == ids[i]
    ensures forall id :: id in IDs(assets) <==> id in ids
  {
    forall id | id in ids
      ensures id in IDs(assets)
    {
      var i :| 0 <= i < |ids| && ids[i] == id;
      assert assets[i] in assets;
    }
  }

  // ------------------------------------------------------------------- the loops

  // What has been gathered for one asset ID: the least variant, and every value of each metadata key.
  datatype Accumulated = Accumulated(asset: Asset, canonical: bytes, values: map<bytes, set<bytes>>)

  ghost predicate Accumulates(canon: Canon, assets: set<Asset>, id: bytes, acc: Accumulated) {
    && acc.canonical == canon.asset(acc.asset) && acc.asset.metadata == map[]
    && (exists a <- assets :: a.id == id && Bare(a) == acc.asset)
    && (forall a <- assets | a.id == id :: !Less(canon.asset(Bare(a)), acc.canonical))
    && acc.values.Keys == MetadataKeys(assets, id)
    && (forall k | k in acc.values :: acc.values[k] == Values(assets, id, k))
  }

  ghost predicate AccumulatesAll(canon: Canon, assets: set<Asset>, accs: map<bytes, Accumulated>) {
    accs.Keys == AssetIDs(assets) && forall id | id in accs :: Accumulates(canon, assets, id, accs[id])
  }

  function ValuesAt(values: map<bytes, set<bytes>>, k: bytes): set<bytes> {
    if k in values then values[k] else {}
  }

  /** Each key of the candidate gains its one value. */
  function AddMetadata(values: map<bytes, set<bytes>>, metadata: map<bytes, bytes>): map<bytes, set<bytes>> {
    map k | k in values.Keys + metadata.Keys :: ValuesAt(values, k) + (if k in metadata then {metadata[k]} else {})
  }

  lemma ValuesGrow(assets: set<Asset>, c: Asset, id: bytes)
    ensures MetadataKeys(assets + {c}, id) == MetadataKeys(assets, id) + (if c.id == id then c.metadata.Keys else {})
    ensures forall k :: Values(assets + {c}, id, k)
                     == Values(assets, id, k) + (if c.id == id && k in c.metadata then {c.metadata[k]} else {})
    ensures forall k :: k !in MetadataKeys(assets, id) ==> Values(assets, id, k) == {}
  {
    forall k
      ensures Values(assets + {c}, id, k) == Values(assets, id, k) + (if c.id == id && k in c.metadata then {c.metadata[k]} else {})
    {
    }
    forall k | k in MetadataKeys(assets + {c}, id)
      ensures k in MetadataKeys(assets, id) + (if c.id == id then c.metadata.Keys else {})
    {
      var a :| a in assets + {c} && a.id == id && k in a.metadata;
    }
    forall k | k in MetadataKeys(assets, id)
      ensures k in MetadataKeys(assets + {c}, id)
    {
      var a :| a in assets && a.id == id && k in a.metadata;
      assert a in assets + {c};
    }
  }

  /** One more candidate: the lesser variant stays, and every metadata value is remembered. */
  function Accumulate(canon: Canon, before: Option<Accumulated>, c: Asset): Accumulated {
    var base, canonical := Bare(c), canon.asset(Bare(c));
    var acc := before.GetOr(Accumulated(base, canonical, map[]));
    var least := if Less(canonical, acc.canonical) then acc.(asset := base, canonical := canonical) else acc;
    least.(values := AddMetadata(acc.values, c.metadata))
  }

  lemma FirstOfItsID(canon: Canon, assets: set<Asset>, c: Asset)
    requires c.id !in AssetIDs(assets)
    ensures Accumulates(canon, assets + {c}, c.id, Accumulate(canon, None, c))
  {
    hide Less, Values, MetadataKeys;
    LessIrreflexive(canon.asset(Bare(c)));
    NoMetadataYet(assets, c.id);
    ValuesGrow(assets, c, c.id);
    assert c in assets + {c};
    assert forall a <- assets + {c} | a.id == c.id :: a == c;
  }

  lemma NoMetadataYet(assets: set<Asset>, id: bytes)
    requires id !in AssetIDs(assets)
    ensures MetadataKeys(assets, id) == {} && forall a | a in assets :: a.id != id
  {
    assert forall a | a in assets :: a.id != id;
  }

  lemma LeastGrows(canon: Canon, assets: set<Asset>, c: Asset, acc: Accumulated)
    requires Accumulates(canon, assets, c.id, acc)
    ensures var now := Accumulate(canon, Some(acc), c);
            && now.canonical == canon.asset(now.asset) && now.asset.metadata == map[]
            && (exists a <- assets + {c} :: a.id == c.id && Bare(a) == now.asset)
            && (forall a <- assets + {c} | a.id == c.id :: !Less(canon.asset(Bare(a)), now.canonical))
  {
    hide Values, MetadataKeys;
    var canonical := canon.asset(Bare(c));
    LessIrreflexive(canonical);
    var least :| least in assets && least.id == c.id && Bare(least) == acc.asset;
    assert least in assets + {c} && c in assets + {c};
    forall a | a in assets && a.id == c.id && Less(canonical, acc.canonical)
      ensures !Less(canon.asset(Bare(a)), canonical)
    {
      if Less(canon.asset(Bare(a)), canonical) { LessTransitive(canon.asset(Bare(a)), canonical, acc.canonical); }
    }
  }

  lemma ValuesAccumulate(canon: Canon, assets: set<Asset>, c: Asset, acc: Accumulated)
    requires Accumulates(canon, assets, c.id, acc)
    ensures var now := Accumulate(canon, Some(acc), c);
            && now.values.Keys == MetadataKeys(assets + {c}, c.id)
            && (forall k | k in now.values :: now.values[k] == Values(assets + {c}, c.id, k))
  {
    hide Values, MetadataKeys, Less;
    ValuesGrow(assets, c, c.id);
  }

  lemma OthersStay(canon: Canon, assets: set<Asset>, c: Asset, id: bytes, acc: Accumulated)
    requires Accumulates(canon, assets, id, acc) && id != c.id
    ensures Accumulates(canon, assets + {c}, id, acc)
  {
    hide Values, MetadataKeys, Less;
    ValuesGrow(assets, c, id);
    assert MetadataKeys(assets + {c}, id) == MetadataKeys(assets, id);
  }

  method AddAsset(canon: Canon, ghost assets: set<Asset>, accs: map<bytes, Accumulated>, c: Asset)
    returns (accs': map<bytes, Accumulated>)
    requires AccumulatesAll(canon, assets, accs)
    ensures AccumulatesAll(canon, assets + {c}, accs')
  {
    hide Accumulate;
    var before := if c.id in accs then Some(accs[c.id]) else None;
    accs' := accs[c.id := Accumulate(canon, before, c)];
    if c.id in accs {
      LeastGrows(canon, assets, c, accs[c.id]);
      ValuesAccumulate(canon, assets, c, accs[c.id]);
    } else {
      FirstOfItsID(canon, assets, c);
    }
    forall id | id in accs && id != c.id
      ensures Accumulates(canon, assets + {c}, id, accs[id])
    {
      OthersStay(canon, assets, c, id, accs[id]);
    }
    assert AssetIDs(assets + {c}) == AssetIDs(assets) + {c.id};
  }

  method AddAssets(canon: Canon, ghost seen: set<Asset>, accs0: map<bytes, Accumulated>, candidates: seq<Asset>)
    returns (accs: map<bytes, Accumulated>)
    requires AccumulatesAll(canon, seen, accs0)
    ensures AccumulatesAll(canon, seen + Elements(candidates), accs)
  {
    hide AccumulatesAll;
    accs := accs0;
    assert seen + Elements(candidates[..0]) == seen;
    for j := 0 to |candidates|
      invariant AccumulatesAll(canon, seen + Elements(candidates[..j]), accs)
    {
      accs := AddAsset(canon, seen + Elements(candidates[..j]), accs, candidates[j]);
      NextCandidate(seen, candidates, j);
    }
    assert candidates[..|candidates|] == candidates;
  }

  method GatherAssets(canon: Canon, results: seq<CollectorResult>) returns (accs: map<bytes, Accumulated>)
    ensures AccumulatesAll(canon, AllReported(results).assets, accs)
  {
    accs := map[];
    for i := 0 to |results|
      invariant AccumulatesAll(canon, AllReported(results[..i]).assets, accs)
    {
      hide AccumulatesAll, AllReported;
      accs := AddAssets(canon, AllReported(results[..i]).assets, accs, results[i].assets);
      NextResult(results, i);
    }
    assert results[..|results|] == results;
  }

  /** One asset with the metadata its variants agree on, and an error for every key they do not. */
  method MergeAsset(canon: Canon, ghost assets: set<Asset>, id: bytes, acc: Accumulated)
    returns (merged: Asset, errors: seq<CoverageError>)
    requires Accumulates(canon, assets, id, acc)
    ensures IsMerged(canon, assets, id, merged) && merged.id == id
    ensures errors == ConflictErrors(id, InOrder(ConflictingKeys(assets, id)))
  {
    var metadata := map k | k in acc.values && |acc.values[k]| == 1 :: TheOne(acc.values[k]);
    var conflicting := set k | k in acc.values && |acc.values[k]| != 1;
    assert conflicting == ConflictingKeys(assets, id);
    var keys := SortedListing(conflicting);
    errors := ConflictErrors(id, keys);
    merged := acc.asset.(metadata := metadata);
    assert Bare(merged) == acc.asset;
  }

  lemma OneMember(s: set<bytes>)
    requires |s| == 1
    ensures forall x, y | x in s && y in s :: x == y
  {
    forall x, y | x in s && y in s
      ensures x == y
    {
      assert |s - {x}| == 0;
      assert y !in s - {x};
    }
  }

  function TheOne(s: set<bytes>): (x: bytes)
    requires |s| == 1
    ensures s == {x}
  {
    OneMember(s);
    var x :| x in s;
    x
  }

  lemma {:induction false} NextErrors(assets: set<Asset>, ids: seq<bytes>, i: nat)
    requires i < |ids|
    ensures MetadataErrors(assets, ids[..i + 1])
         == MetadataErrors(assets, ids[..i]) + ConflictErrors(ids[i], InOrder(ConflictingKeys(assets, ids[i])))
  {
    assert ids[..i + 1][..i] == ids[..i];
  }

  method MergeAll(canon: Canon, ghost assets: set<Asset>, accs: map<bytes, Accumulated>)
    returns (merged: seq<Asset>, errors: seq<CoverageError>)
    requires AccumulatesAll(canon, assets, accs)
    ensures var ids := InOrder(AssetIDs(assets));
            && |merged| == |ids|
            && (forall i | 0 <= i < |ids| :: merged[i].id == ids[i] && IsMerged(canon, assets, ids[i], merged[i]))
            && errors == MetadataErrors(assets, ids)
  {
    hide IsMerged, Accumulates, ConflictErrors, ConflictingKeys;
    var ids := SortedListing(accs.Keys);
    merged, errors := [], [];
    for i := 0 to |ids|
      invariant |merged| == i
      invariant forall j | 0 <= j < i :: merged[j].id == ids[j] && IsMerged(canon, assets, ids[j], merged[j])
      invariant errors == MetadataErrors(assets, ids[..i])
    {
      hide MetadataErrors;
      assert ids[i] in ids;
      var one, conflicts := MergeAsset(canon, assets, ids[i], accs[ids[i]]);
      merged, errors := merged + [one], errors + conflicts;
      NextErrors(assets, ids, i);
    }
    assert ids[..|ids|] == ids;
  }

  method AddObservation(canon: Canon, ghost os: set<Observation>, winners: map<bytes, Observation>, conflicts: set<bytes>,
                        c: Observation) returns (winners': map<bytes, Observation>, conflicts': set<bytes>)
    requires AreWinners(canon, os, winners) && conflicts == ConflictingObservations(canon, os)
    ensures AreWinners(canon, os + {c}, winners') && conflicts' == ConflictingObservations(canon, os + {c})
  {
    winners', conflicts' := winners, conflicts;
    var canonical := canon.observation(c);
    LessIrreflexive(canonical);
    if c.id in winners && canon.observation(winners[c.id]) != canonical {
      conflicts' := conflicts + {c.id};
      assert winners[c.id] in os + {c} && c in os + {c};
    }
    if c.id !in winners || Less(canonical, canon.observation(winners[c.id])) {
      winners' := winners[c.id := c];
      forall o | o in os && o.id == c.id
        ensures !Less(canon.observation(o), canonical)
      {
        if Less(canon.observation(o), canonical) {
          LessTransitive(canon.observation(o), canonical, canon.observation(winners[c.id]));
        }
      }
    }
    forall id | id in ConflictingObservations(canon, os + {c})
      ensures id in conflicts'
    {
      var o, p :| o in os + {c} && p in os + {c} && o.id == p.id == id && canon.observation(o) != canon.observation(p);
      if o in os && p in os {
        assert id in ConflictingObservations(canon, os);
      } else {
        var other := if o in os then o else p;
        if canon.observation(winners[c.id]) == canonical {
          assert winners[c.id] in os && canon.observation(other) != canon.observation(winners[c.id]);
        }
      }
    }
    forall id | id in conflicts
      ensures id in ConflictingObservations(canon, os + {c})
    {
      var o, p :| o in os && p in os && o.id == p.id == id && canon.observation(o) != canon.observation(p);
      assert o in os + {c} && p in os + {c};
    }
  }

  method AddObservations(canon: Canon, ghost seen: set<Observation>, winners0: map<bytes, Observation>, conflicts0: set<bytes>,
                         candidates: seq<Observation>) returns (winners: map<bytes, Observation>, conflicts: set<bytes>)
    requires AreWinners(canon, seen, winners0) && conflicts0 == ConflictingObservations(canon, seen)
    ensures AreWinners(canon, seen + Elements(candidates), winners)
    ensures conflicts == ConflictingObservations(canon, seen + Elements(candidates))
  {
    hide AreWinners, ConflictingObservations;
    winners, conflicts := winners0, conflicts0;
    assert seen + Elements(candidates[..0]) == seen;
    for j := 0 to |candidates|
      invariant AreWinners(canon, seen + Elements(candidates[..j]), winners)
      invariant conflicts == ConflictingObservations(canon, seen + Elements(candidates[..j]))
    {
      winners, conflicts := AddObservation(canon, seen + Elements(candidates[..j]), winners, conflicts, candidates[j]);
      NextCandidate(seen, candidates, j);
    }
    assert candidates[..|candidates|] == candidates;
  }

  method GatherObservations(canon: Canon, results: seq<CollectorResult>)
    returns (winners: map<bytes, Observation>, conflicts: set<bytes>)
    ensures AreWinners(canon, AllReported(results).observations, winners)
    ensures conflicts == ConflictingObservations(canon, AllReported(results).observations)
  {
    winners, conflicts := map[], {};
    for i := 0 to |results|
      invariant AreWinners(canon, AllReported(results[..i]).observations, winners)
      invariant conflicts == ConflictingObservations(canon, AllReported(results[..i]).observations)
    {
      hide AreWinners, ConflictingObservations, AllReported;
      winners, conflicts :=
        AddObservations(canon, AllReported(results[..i]).observations, winners, conflicts, results[i].observations);
      NextResult(results, i);
    }
    assert results[..|results|] == results;
  }

  method GatherRelationships(validKind: bytes -> bool, valid: set<bytes>, results: seq<CollectorResult>)
    returns (rs: set<Relationship>)
    ensures rs == set r | r in AllReported(results).relationships && ValidRelationship(validKind, valid, r)
  {
    rs := {};
    for i := 0 to |results|
      invariant rs == set r | r in AllReported(results[..i]).relationships && ValidRelationship(validKind, valid, r)
    {
      rs := rs + set r | r in results[i].relationships && ValidRelationship(validKind, valid, r);
      assert results[..i + 1][..i] == results[..i];
    }
    assert results[..|results|] == results;
  }

  lemma {:induction false} NextKept(winners: map<bytes, Observation>, valid: set<bytes>, ids: seq<bytes>, i: nat)
    requires i < |ids| && forall id | id in ids :: id in winners
    ensures var o := winners[ids[i]];
            && Kept(winners, valid, ids[..i + 1]) == Kept(winners, valid, ids[..i]) + (if o.assetID in valid then [o] else [])
            && Orphans(winners, valid, ids[..i + 1])
               == Orphans(winners, valid, ids[..i]) + (if o.assetID in valid then [] else [OrphanObservation])
  {
    assert ids[..i + 1][..i] == ids[..i];
  }

  method KeepObservations(winners: map<bytes, Observation>, valid: set<bytes>)
    returns (kept: seq<Observation>, errors: seq<CoverageError>)
    ensures kept == Kept(winners, valid, InOrder(winners.Keys)) && errors == Orphans(winners, valid, InOrder(winners.Keys))
  {
    var ids := SortedListing(winners.Keys);
    kept, errors := [], [];
    for i := 0 to |ids|
      invariant kept == Kept(winners, valid, ids[..i]) && errors == Orphans(winners, valid, ids[..i])
    {
      hide Kept, Orphans;
      NextKept(winners, valid, ids, i);
      if winners[ids[i]].assetID in valid {
        kept := kept + [winners[ids[i]]];
      } else {
        errors := errors + [OrphanObservation];
      }
    }
    assert ids[..|ids|] == ids;
  }

  method Build(canon: Canon, validKind: bytes -> bool, results: seq<CollectorResult>)
    returns (inv: Inventory, ghost winners: map<bytes, Observation>)
    ensures IsBuild(canon, validKind, AllReported(results), winners, inv)
    ensures exists w :: IsBuild(canon, validKind, AllReported(results), w, inv)
  {
    ghost var all := AllReported(results);
    var accs := GatherAssets(canon, results);
    var assets, metadataErrors := MergeAll(canon, all.assets, accs);
    var valid := accs.Keys;
    var chosen, conflicts := GatherObservations(canon, results);
    var observations, orphans := KeepObservations(chosen, valid);
    var conflictIDs := SortedListing(conflicts);
    var edges := GatherRelationships(validKind, valid, results);
    var relationships := SortSet(RelationshipKey, edges);
    EdgesAreDistinguished(edges);
    winners := chosen;
    inv := Inventory(assets, observations, relationships, [],
                     metadataErrors + orphans + ObservationErrors(conflictIDs));
  }

  lemma EdgesAreDistinguished(edges: set<Relationship>)
    ensures Distinguishes(RelationshipKey, edges)
  {
    forall x, y | x in edges && y in edges && x != y
      ensures RelationshipKey(x) != RelationshipKey(y)
    {
      var a, b := RelationshipKey(x), RelationshipKey(y);
      assert a[0] != b[0] || a[1] != b[1] || a[2] != b[2];
    }
  }
}
