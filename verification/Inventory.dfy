// The inventory, and the difference of two inventories.
module Inventory {
  import opened Framing
  import opened Ordering
  import opened Sorting

  datatype EvidenceStatus = Complete | Partial | Oversize | Unavailable | Unsupported | Skipped

  datatype Asset = Asset(id: bytes, kind: bytes, name: bytes, source: bytes, rest: bytes, metadata: map<bytes, bytes>)

  datatype Observation = Observation(id: bytes, assetID: bytes, rest: bytes)

  datatype Evidence = Evidence(id: bytes, assetID: bytes, observationID: bytes, status: EvidenceStatus, rest: bytes)

  datatype Relationship = Relationship(from: bytes, kind: bytes, to: bytes)

  datatype CoverageError = MetadataConflict(assetID: bytes, key: bytes) | OrphanObservation | ObservationConflict(id: bytes)

  datatype Inventory = Inventory(
    assets: seq<Asset>, observations: seq<Observation>, relationships: seq<Relationship>, evidence: seq<Evidence>,
    errors: seq<CoverageError>)

  // The canonical JSON that Diff compares: without observation times or cache provenance.
  datatype Canon = Canon(asset: Asset -> bytes, observation: Observation -> bytes, evidence: Evidence -> bytes)

  datatype Kind = Added | Changed | Removed

  datatype Entity = AssetEntity | EvidenceEntity | ObservationEntity

  datatype Change = Change(kind: Kind, entity: Entity, id: bytes)

  function EntityName(e: Entity): bytes {
    match e
    case AssetEntity => Ascii("asset")
    case EvidenceEntity => Ascii("evidence")
    case ObservationEntity => Ascii("observation")
  }

  function KindName(k: Kind): bytes {
    match k case Added => Ascii("added") case Changed => Ascii("changed") case Removed => Ascii("removed")
  }

  function ChangeKey(c: Change): seq<bytes> {
    [EntityName(c.entity), c.id, KindName(c.kind)]
  }

  function AssetID(a: Asset): bytes { a.id }

  function EvidenceID(e: Evidence): bytes { e.id }

  function ObservationID(o: Observation): bytes { o.id }

  // --------------------------------------------------------- canonical values

  /** For each ID, the least canonical form among the values that carry it. */
  ghost predicate LeastByID<T(!new)>(values: set<T>, id: T -> bytes, canon: T -> bytes, m: map<bytes, bytes>) {
    && (forall v | v in values :: id(v) in m && !Less(canon(v), m[id(v)]))
    && (forall k | k in m :: exists v :: v in values && id(v) == k && canon(v) == m[k])
  }

  lemma LeastIsUnique<T(!new)>(values: set<T>, id: T -> bytes, canon: T -> bytes, m: map<bytes, bytes>, m': map<bytes, bytes>)
    requires LeastByID(values, id, canon, m) && LeastByID(values, id, canon, m')
    ensures m == m'
  {
    forall k | k in m
      ensures k in m' && m[k] == m'[k]
    {
      var v :| v in values && id(v) == k && canon(v) == m[k];
      assert k in m';
      var v' :| v' in values && id(v') == k && canon(v') == m'[k];
      LessTotal(m[k], m'[k]);
    }
    forall k | k in m'
      ensures k in m
    {
      var v :| v in values && id(v) == k && canon(v) == m'[k];
    }
  }

  function Elements<T>(s: seq<T>): set<T> {
    set x | x in s
  }

  method CanonicalValuesByID<T(!new)>(values: seq<T>, id: T -> bytes, canon: T -> bytes) returns (m: map<bytes, bytes>)
    ensures LeastByID(Elements(values), id, canon, m)
  {
    m := map[];
    for i := 0 to |values|
      invariant LeastByID(Elements(values[..i]), id, canon, m)
    {
      var v, before := values[i], m;
      var k, c := id(v), canon(v);
      assert values[..i + 1] == values[..i] + [v];
      if k !in m || Less(c, m[k]) { m := m[k := c]; }
      forall u | u in Elements(values[..i + 1])
        ensures id(u) in m && !Less(canon(u), m[id(u)])
      {
        LessIrreflexive(c);
        if u in values[..i] && id(u) == k && m[k] == c && k in before && before[k] != c && Less(canon(u), c) {
          LessTransitive(canon(u), c, before[k]);
        }
      }
      forall j | j in m
        ensures exists u :: u in Elements(values[..i + 1]) && id(u) == j && canon(u) == m[j]
      {
        if j in before && m[j] == before[j] {
          var u :| u in Elements(values[..i]) && id(u) == j && canon(u) == before[j];
          assert u in Elements(values[..i + 1]);
        } else {
          assert v in Elements(values[..i + 1]);
        }
      }
    }
    assert values[..|values|] == values;
  }

  // --------------------------------------------------------------------- Diff

  /** What became of one ID. */
  function ChangeOf(previous: map<bytes, bytes>, current: map<bytes, bytes>, id: bytes): Option<Kind> {
    if id !in previous then (if id in current then Some(Added) else None)
    else if id !in current then Some(Removed)
    else if previous[id] != current[id] then Some(Changed)
    else None
  }

  function ChangesAt(e: Entity, previous: map<bytes, bytes>, current: map<bytes, bytes>, ids: set<bytes>): set<Change> {
    set id | id in ids && ChangeOf(previous, current, id).Some? :: Change(ChangeOf(previous, current, id).value, e, id)
  }

  function EntityChanges(e: Entity, previous: map<bytes, bytes>, current: map<bytes, bytes>): set<Change> {
    ChangesAt(e, previous, current, previous.Keys + current.Keys)
  }

  lemma IsEntityChange(e: Entity, previous: map<bytes, bytes>, current: map<bytes, bytes>, c: Change)
    ensures c in EntityChanges(e, previous, current) <==> c.entity == e && ChangeOf(previous, current, c.id) == Some(c.kind)
  {}

  function Swap(c: Change): Change {
    c.(kind := match c.kind case Added => Removed case Removed => Added case Changed => Changed)
  }

  function SwapAll(cs: set<Change>): set<Change> {
    set c | c in cs :: Swap(c)
  }

  lemma EntityChangesSwap(e: Entity, a: map<bytes, bytes>, b: map<bytes, bytes>)
    ensures EntityChanges(e, b, a) == SwapAll(EntityChanges(e, a, b))
    ensures EntityChanges(e, a, a) == {}
  {
    hide EntityChanges, ChangesAt;
    forall c
      ensures c in EntityChanges(e, b, a) <==> c in SwapAll(EntityChanges(e, a, b))
      ensures c !in EntityChanges(e, a, a)
    {
      IsEntityChange(e, b, a, c);
      IsEntityChange(e, a, b, Swap(c));
      IsEntityChange(e, a, a, c);
      assert Swap(Swap(c)) == c;
      if c in SwapAll(EntityChanges(e, a, b)) {
        var d :| d in EntityChanges(e, a, b) && Swap(d) == c;
        assert d == Swap(c);
      }
    }
  }

  datatype Canonical = Canonical(assets: map<bytes, bytes>, evidence: map<bytes, bytes>, observations: map<bytes, bytes>)

  function ChangeSet(p: Canonical, c: Canonical): set<Change> {
    EntityChanges(AssetEntity, p.assets, c.assets) + EntityChanges(EvidenceEntity, p.evidence, c.evidence)
    + EntityChanges(ObservationEntity, p.observations, c.observations)
  }

  lemma ChangeSetSwaps(p: Canonical, c: Canonical)
    ensures ChangeSet(c, p) == SwapAll(ChangeSet(p, c))
    ensures ChangeSet(p, p) == {}
  {
    EntityChangesSwap(AssetEntity, p.assets, c.assets);
    EntityChangesSwap(EvidenceEntity, p.evidence, c.evidence);
    EntityChangesSwap(ObservationEntity, p.observations, c.observations);
    SwapUnion(EntityChanges(AssetEntity, p.assets, c.assets), EntityChanges(EvidenceEntity, p.evidence, c.evidence),
              EntityChanges(ObservationEntity, p.observations, c.observations));
  }

  lemma SwapUnion(x: set<Change>, y: set<Change>, z: set<Change>)
    ensures SwapAll(x + y + z) == SwapAll(x) + SwapAll(y) + SwapAll(z)
  {}

  ghost predicate IsCanonical(canon: Canon, i: Inventory, m: Canonical) {
    && LeastByID(Elements(i.assets), AssetID, canon.asset, m.assets)
    && LeastByID(Elements(i.evidence), EvidenceID, canon.evidence, m.evidence)
    && LeastByID(Elements(i.observations), ObservationID, canon.observation, m.observations)
  }

  /** The changes between two inventories, as a set; it depends on no order. */
  ghost predicate IsDiff(canon: Canon, previous: Inventory, current: Inventory, cs: set<Change>) {
    exists p, c :: IsCanonical(canon, previous, p) && IsCanonical(canon, current, c) && cs == ChangeSet(p, c)
  }

  method CanonicalMaps(canon: Canon, i: Inventory) returns (m: Canonical)
    ensures IsCanonical(canon, i, m)
  {
    var assets := CanonicalValuesByID(i.assets, AssetID, canon.asset);
    var evidence := CanonicalValuesByID(i.evidence, EvidenceID, canon.evidence);
    var observations := CanonicalValuesByID(i.observations, ObservationID, canon.observation);
    m := Canonical(assets, evidence, observations);
  }

  lemma NamesDiffer()
    ensures forall e, e' | e != e' :: EntityName(e) != EntityName(e')
    ensures forall k, k' | k != k' :: KindName(k) != KindName(k')
  {
    assert EntityName(AssetEntity)[0] == 97 && EntityName(EvidenceEntity)[0] == 101 && EntityName(ObservationEntity)[0] == 111;
    assert KindName(Added)[0] == 97 && KindName(Changed)[0] == 99 && KindName(Removed)[0] == 114;
  }

  lemma ChangesAreDistinguished(cs: set<Change>)
    ensures Distinguishes(ChangeKey, cs)
  {
    NamesDiffer();
    forall x, y | x in cs && y in cs && x != y
      ensures ChangeKey(x) != ChangeKey(y)
    {
      var a, b := ChangeKey(x), ChangeKey(y);
      assert a[0] != b[0] || a[1] != b[1] || a[2] != b[2];
    }
  }

  /** The changes of one kind of entity, appended in whatever order the map gives its IDs. */
  method AppendEntityChanges(changes: set<Change>, e: Entity, previous: map<bytes, bytes>, current: map<bytes, bytes>)
    returns (all: set<Change>)
    ensures all == changes + EntityChanges(e, previous, current)
  {
    var found := ChangesFrom(e, previous, current, previous.Keys + current.Keys);
    all := changes + found;
  }

  method ChangesFrom(e: Entity, previous: map<bytes, bytes>, current: map<bytes, bytes>, ids: set<bytes>)
    returns (found: set<Change>)
    ensures found == ChangesAt(e, previous, current, ids)
  {
    found := {};
    var left := ids;
    assert ChangesAt(e, previous, current, ids - left) == {};
    while left != {}
      invariant left <= ids && found == ChangesAt(e, previous, current, ids - left)
      decreases |left|
    {
      hide ChangeOf, ChangesAt;
      var id :| id in left;
      var change := ChangeOf(previous, current, id);
      if change.Some? { found := found + {Change(change.value, e, id)}; }
      NextChange(e, previous, current, ids - left, id);
      assert ids - (left - {id}) == ids - left + {id};
      left := left - {id};
    }
    assert ids - left == ids;
  }

  lemma NextChange(e: Entity, previous: map<bytes, bytes>, current: map<bytes, bytes>, done: set<bytes>, id: bytes)
    ensures var change := ChangeOf(previous, current, id);
            ChangesAt(e, previous, current, done + {id})
            == ChangesAt(e, previous, current, done) + (if change.Some? then {Change(change.value, e, id)} else {})
  {
    hide ChangeOf;
  }

  method Diff(canon: Canon, previous: Inventory, current: Inventory) returns (delta: seq<Change>)
    ensures InKeyOrder(ChangeKey, delta)
    ensures forall c :: c in delta <==> Means(canon, previous, current, c)
    ensures ListedInOrder(delta)
    ensures exists cs :: IsDiff(canon, previous, current, cs) && multiset(delta) == multiset(cs)
  {
    var p := CanonicalMaps(canon, previous);
    var c := CanonicalMaps(canon, current);
    var cs := AppendEntityChanges({}, AssetEntity, p.assets, c.assets);
    cs := AppendEntityChanges(cs, EvidenceEntity, p.evidence, c.evidence);
    cs := AppendEntityChanges(cs, ObservationEntity, p.observations, c.observations);
    delta := SortSet(ChangeKey, cs);
    ChangesAreDistinguished(cs);
    assert cs == ChangeSet(p, c);
    assert IsDiff(canon, previous, current, cs);
    forall x
      ensures x in delta <==> Means(canon, previous, current, x)
    {
      DiffSays(canon, previous, current, cs, x);
      assert x in delta <==> x in multiset(delta);
    }
    hide Means;
    NoneTwice(canon, previous, current, cs);
    InOrderOnce(delta, cs);
  }

  /** Assets before evidence before observations, and by ID among each of them. */
  ghost predicate ListedInOrder(delta: seq<Change>) {
    forall i, j | 0 <= i < j < |delta| ::
      if delta[i].entity == delta[j].entity then Less(delta[i].id, delta[j].id)
      else delta[i].entity == AssetEntity || delta[j].entity == ObservationEntity
  }

  lemma KeyLess(a: Change, b: Change)
    requires ColumnsLess(ChangeKey(a), ChangeKey(b)) && (a.entity == b.entity && a.id == b.id ==> a == b)
    ensures if a.entity == b.entity then Less(a.id, b.id) else a.entity == AssetEntity || b.entity == ObservationEntity
  {
    ColumnsIrreflexive(ChangeKey(a));
    LessIrreflexive(EntityName(a.entity));
    assert EntityName(AssetEntity)[0] == 97 && EntityName(EvidenceEntity)[0] == 101 && EntityName(ObservationEntity)[0] == 111;
    assert ChangeKey(a)[1..][0] == a.id && ChangeKey(b)[1..][0] == b.id;
  }

  lemma InOrderOnce(delta: seq<Change>, cs: set<Change>)
    requires InKeyOrder(ChangeKey, delta) && multiset(delta) == multiset(cs)
    requires forall c, d | c in cs && d in cs && c.entity == d.entity && c.id == d.id :: c == d
    ensures ListedInOrder(delta)
  {
    hide ColumnsLess, ChangeKey;
    forall i, j | 0 <= i < j < |delta|
      ensures if delta[i].entity == delta[j].entity then Less(delta[i].id, delta[j].id)
              else delta[i].entity == AssetEntity || delta[j].entity == ObservationEntity
    {
      assert delta[i] in multiset(delta) && delta[j] in multiset(delta);
      KeyLess(delta[i], delta[j]);
    }
  }

  lemma NoneTwice(canon: Canon, previous: Inventory, current: Inventory, cs: set<Change>)
    requires IsDiff(canon, previous, current, cs)
    ensures forall c, d | c in cs && d in cs && c.entity == d.entity && c.id == d.id :: c == d
  {
    DiffFacts(canon, previous, current, cs);
  }

  ghost predicate SameContents(a: Inventory, b: Inventory) {
    && Elements(a.assets) == Elements(b.assets) && Elements(a.evidence) == Elements(b.evidence)
    && Elements(a.observations) == Elements(b.observations)
  }

  lemma CanonicalIsUnique(canon: Canon, i: Inventory, i': Inventory, m: Canonical, m': Canonical)
    requires SameContents(i, i') && IsCanonical(canon, i, m) && IsCanonical(canon, i', m')
    ensures m == m'
  {
    LeastIsUnique(Elements(i.assets), AssetID, canon.asset, m.assets, m'.assets);
    LeastIsUnique(Elements(i.evidence), EvidenceID, canon.evidence, m.evidence, m'.evidence);
    LeastIsUnique(Elements(i.observations), ObservationID, canon.observation, m.observations, m'.observations);
  }

  /** Diff the other way round exchanges added and removed; equal contents have no difference. */
  lemma DiffSwaps(canon: Canon, a: Inventory, b: Inventory, cs: set<Change>, cs': set<Change>)
    requires IsDiff(canon, a, b, cs) && IsDiff(canon, b, a, cs')
    ensures cs' == SwapAll(cs)
    ensures SameContents(a, b) ==> cs == {}
  {
    var p, c :| IsCanonical(canon, a, p) && IsCanonical(canon, b, c) && cs == ChangeSet(p, c);
    var p', c' :| IsCanonical(canon, b, p') && IsCanonical(canon, a, c') && cs' == ChangeSet(p', c');
    CanonicalIsUnique(canon, b, b, c, p');
    CanonicalIsUnique(canon, a, a, p, c');
    ChangeSetSwaps(p, c);
    if SameContents(a, b) { CanonicalIsUnique(canon, a, b, p, c); }
  }

  function IDs(assets: seq<Asset>): set<bytes> {
    set a | a in assets :: a.id
  }

  /** What a diff's asset changes say about the two inventories; no entity changes twice. */
  lemma DiffFacts(canon: Canon, previous: Inventory, current: Inventory, cs: set<Change>)
    requires IsDiff(canon, previous, current, cs)
    ensures forall c <- cs | c.entity == AssetEntity ::
              && (c.kind == Added <==> c.id !in IDs(previous.assets)) && (c.kind == Removed <==> c.id !in IDs(current.assets))
    ensures forall id | id in IDs(current.assets) - IDs(previous.assets) :: Change(Added, AssetEntity, id) in cs
    ensures forall id | id in IDs(previous.assets) - IDs(current.assets) :: Change(Removed, AssetEntity, id) in cs
    ensures forall c, c' | c in cs && c' in cs && c.entity == c'.entity && c.id == c'.id :: c == c'
  {
    hide EntityChanges, ChangesAt, LeastByID;
    var p, c :| IsCanonical(canon, previous, p) && IsCanonical(canon, current, c) && cs == ChangeSet(p, c);
    KeysAreIDs(canon, previous, p);
    KeysAreIDs(canon, current, c);
    forall x: Change
      ensures x in cs <==> ChangeIn(p, c, x)
    {
      IsEntityChange(AssetEntity, p.assets, c.assets, x);
      IsEntityChange(EvidenceEntity, p.evidence, c.evidence, x);
      IsEntityChange(ObservationEntity, p.observations, c.observations, x);
    }
  }

  /** The canonical forms that an inventory has of one ID. */
  ghost function Forms(canon: Canon, i: Inventory, e: Entity, id: bytes): set<bytes> {
    match e
    case AssetEntity => set a | a in i.assets && a.id == id :: canon.asset(a)
    case EvidenceEntity => set v | v in i.evidence && v.id == id :: canon.evidence(v)
    case ObservationEntity => set o | o in i.observations && o.id == id :: canon.observation(o)
  }

  ghost predicate IsLeast(forms: set<bytes>, f: bytes) {
    f in forms && forall g | g in forms :: !Less(g, f)
  }

  /** What a change means: an ID that only one side has, or one whose least forms differ. */
  ghost predicate Means(canon: Canon, previous: Inventory, current: Inventory, c: Change) {
    var before, after := Forms(canon, previous, c.entity, c.id), Forms(canon, current, c.entity, c.id);
    match c.kind
    case Added => before == {} && after != {}
    case Removed => before != {} && after == {}
    case Changed => before != {} && after != {} && !exists f :: IsLeast(before, f) && IsLeast(after, f)
  }

  /** For each kind of entity, a diff holds exactly the changes that mean something. */
  lemma DiffSays(canon: Canon, previous: Inventory, current: Inventory, cs: set<Change>, c: Change)
    requires IsDiff(canon, previous, current, cs)
    ensures c in cs <==> Means(canon, previous, current, c)
  {
    hide LeastByID, EntityChanges, ChangesAt, Forms, IsLeast;
    var p, n :| IsCanonical(canon, previous, p) && IsCanonical(canon, current, n) && cs == ChangeSet(p, n);
    IsEntityChange(AssetEntity, p.assets, n.assets, c);
    IsEntityChange(EvidenceEntity, p.evidence, n.evidence, c);
    IsEntityChange(ObservationEntity, p.observations, n.observations, c);
    LeastForm(canon, previous, p, c.entity, c.id);
    LeastForm(canon, current, n, c.entity, c.id);
    forall f, g | IsLeast(Forms(canon, current, c.entity, c.id), f) && IsLeast(Forms(canon, current, c.entity, c.id), g)
      ensures f == g
    {
      OneLeast(Forms(canon, current, c.entity, c.id), f, g);
    }
    forall f, g | IsLeast(Forms(canon, previous, c.entity, c.id), f) && IsLeast(Forms(canon, previous, c.entity, c.id), g)
      ensures f == g
    {
      OneLeast(Forms(canon, previous, c.entity, c.id), f, g);
    }
  }

  lemma OneLeast(forms: set<bytes>, f: bytes, g: bytes)
    requires IsLeast(forms, f) && IsLeast(forms, g)
    ensures f == g
  {
    LessTotal(f, g);
  }

  function FormsOf(m: Canonical, e: Entity): map<bytes, bytes> {
    match e case AssetEntity => m.assets case EvidenceEntity => m.evidence case ObservationEntity => m.observations
  }

  lemma LeastForm(canon: Canon, i: Inventory, m: Canonical, e: Entity, id: bytes)
    requires IsCanonical(canon, i, m)
    ensures id in FormsOf(m, e) <==> Forms(canon, i, e, id) != {}
    ensures id in FormsOf(m, e) ==> IsLeast(Forms(canon, i, e, id), FormsOf(m, e)[id])
  {
    hide LeastByID, Less;
    match e
    case AssetEntity => LeastOf(Elements(i.assets), AssetID, canon.asset, m.assets, id, Forms(canon, i, e, id));
    case EvidenceEntity => LeastOf(Elements(i.evidence), EvidenceID, canon.evidence, m.evidence, id, Forms(canon, i, e, id));
    case ObservationEntity =>
      LeastOf(Elements(i.observations), ObservationID, canon.observation, m.observations, id, Forms(canon, i, e, id));
  }

  lemma LeastOf<T(!new)>(values: set<T>, id: T -> bytes, canon: T -> bytes, m: map<bytes, bytes>, k: bytes, forms: set<bytes>)
    requires LeastByID(values, id, canon, m) && forall f :: f in forms <==> exists v :: v in values && id(v) == k && canon(v) == f
    ensures k in m <==> forms != {}
    ensures k in m ==> IsLeast(forms, m[k])
  {
    hide Less;
    if f :| f in forms {
      var v :| v in values && id(v) == k && canon(v) == f;
    }
    if k in m {
      assert m[k] in forms;
    }
  }

  predicate ChangeIn(p: Canonical, c: Canonical, x: Change) {
    match x.entity
    case AssetEntity => ChangeOf(p.assets, c.assets, x.id) == Some(x.kind)
    case EvidenceEntity => ChangeOf(p.evidence, c.evidence, x.id) == Some(x.kind)
    case ObservationEntity => ChangeOf(p.observations, c.observations, x.id) == Some(x.kind)
  }

  lemma KeysAreIDs(canon: Canon, i: Inventory, m: Canonical)
    requires IsCanonical(canon, i, m)
    ensures m.assets.Keys == IDs(i.assets)
  {
    forall id | id in m.assets
      ensures id in IDs(i.assets)
    {
      var a :| a in Elements(i.assets) && AssetID(a) == id && canon.asset(a) == m.assets[id];
    }
    forall id | id in IDs(i.assets)
      ensures id in m.assets
    {
      var a :| a in i.assets && a.id == id;
      assert a in Elements(i.assets) && AssetID(a) in m.assets;
    }
  }

  /** Reordering either inventory does not change the diff, down to its listing. */
  lemma DiffIgnoresOrder(canon: Canon, a: Inventory, b: Inventory, a': Inventory, b': Inventory,
                         cs: set<Change>, cs': set<Change>, delta: seq<Change>, delta': seq<Change>)
    requires SameContents(a, a') && SameContents(b, b')
    requires IsDiff(canon, a, b, cs) && IsDiff(canon, a', b', cs')
    requires InKeyOrder(ChangeKey, delta) && multiset(delta) == multiset(cs)
    requires InKeyOrder(ChangeKey, delta') && multiset(delta') == multiset(cs')
    ensures cs == cs' && delta == delta'
  {
    var p, c :| IsCanonical(canon, a, p) && IsCanonical(canon, b, c) && cs == ChangeSet(p, c);
    var p', c' :| IsCanonical(canon, a', p') && IsCanonical(canon, b', c') && cs' == ChangeSet(p', c');
    CanonicalIsUnique(canon, a, a', p, p');
    CanonicalIsUnique(canon, b, b', c, c');
    OneListing(ChangeKey, delta, delta');
  }
}
