// Redaction of an audit record: every identity becomes an export token, display fields are
// cleared, and everything is sorted again under the new names.
module Redaction {
  import opened Framing
  import opened Ordering
  import opened Sorting
  import Delta = Inventory

  // For each entity: its identities, the display fields that redaction clears (`shown`, empty when all
  // of them are), and the remaining fields, which it leaves alone.
  datatype Asset = Asset(id: bytes, shown: bytes, rest: bytes)

  datatype Observation = Observation(id: bytes, assetID: bytes, projectID: bytes, shown: bytes, rest: bytes)

  datatype Evidence = Evidence(id: bytes, assetID: bytes, observationID: bytes, shown: bytes, rest: bytes)

  datatype Relationship = Relationship(from: bytes, to: bytes, kind: bytes)

  datatype Finding = Finding(id: bytes, assetID: bytes, evidenceIDs: seq<bytes>, shown: bytes, rest: bytes)

  datatype Fact = Fact(id: bytes, assetID: bytes, evidenceID: bytes, rest: bytes)

  datatype Target = Target(targetID: bytes, instance: bytes, rest: bytes)

  datatype EvidenceTarget = EvidenceTarget(
    targetID: bytes, assetID: bytes, observationID: bytes, evidenceID: bytes, rest: bytes)

  datatype Collector = Collector(
    name: bytes, assets: seq<Asset>, relationships: seq<Relationship>, observations: seq<Observation>,
    targets: seq<Target>, rest: bytes)

  datatype Inventory = Inventory(
    assets: seq<Asset>, observations: seq<Observation>, evidence: seq<Evidence>, relationships: seq<Relationship>,
    findings: seq<Finding>, facts: seq<Fact>)

  datatype Profile = Internal | Redacted

  datatype Run = Run(id: bytes, deviceID: bytes, scanID: bytes, shown: bytes)

  datatype Summary = Summary(
    assets: nat, observations: nat, evidence: nat, relationships: nat, findings: nat, collectors: nat,
    evidenceTargets: nat, changes: nat)

  datatype Record = Record(
    profile: Profile, failed: bool, run: Run, summary: Summary, inventory: Inventory, findings: seq<Finding>,
    coverage: seq<Collector>, evidenceCoverage: Option<seq<EvidenceTarget>>, changes: seq<Delta.Change>, rest: bytes)

  datatype Part =
    | OfAsset | OfObservation | OfEvidence | OfRelationship | OfFinding | OfFact | OfTarget | OfEvidenceTarget
    | OfChange | OfCollector | OfRecord | OfFailure

  // The checks that look at strings alone. `plain` is about fields redaction leaves alone, `display` about those
  // it clears; `safe` identifiers, `exported` tokens and `instance` tokens are patterns.
  datatype Checks = Checks(
    safe: bytes -> bool, exported: bytes -> bool, instance: bytes -> bool, runToken: bytes -> bool,
    internalRun: Run -> bool, redactedLabel: bytes, plain: (Part, bytes) -> bool, display: (Part, bytes, bytes, bytes) -> bool)

  // The token of an identity under the export's salt, and of the run's own identities.
  datatype Salt = Salt(token: bytes -> bytes, runToken: bytes -> bytes, hashed: bytes -> bytes)

  /** Tokens tell identities apart, and pass the patterns written for them. */
  ghost predicate TokensWork(k: Checks, s: Salt) {
    && s.token([]) == [] && !k.safe([]) && !k.exported([])
    && (forall x, y | s.token(x) == s.token(y) :: x == y)
    && (forall x | x != [] :: k.exported(s.token(x)) && k.safe(s.token(x)))
    && (forall x :: k.runToken(s.runToken(x)) && s.runToken(x) != [])
  }

  /** The token closure: it remembers what it has made, and what it gives is a function of the identity alone. */
  class Identities {
    const salt: Salt
    var made: map<bytes, bytes>

    ghost predicate Valid()
      reads this
    {
      salt.token([]) == [] && forall id | id in made :: made[id] == salt.token(id)
    }

    constructor (salt: Salt)
      requires salt.token([]) == []
      ensures Valid() && this.salt == salt
    {
      this.salt, made := salt, map[];
    }

    method Token(value: bytes) returns (t: bytes)
      requires Valid()
      modifies this
      ensures Valid() && t == salt.token(value)
      ensures made.Keys == old(made).Keys + (if value == [] then {} else {value})
    {
      if value == [] { return []; }
      if value in made { return made[value]; }
      t := salt.token(value);
      made := made[value := t];
    }
  }

  // ----------------------------------------------------------------------- order

  function SortBy<T>(key: T -> seq<bytes>, s: seq<T>): seq<T> {
    if s == [] then [] else InsertByKey(key, s[0], SortBy(key, s[1..]))
  }

  lemma {:induction false} SortByKeeps<T>(key: T -> seq<bytes>, s: seq<T>)
    ensures multiset(SortBy(key, s)) == multiset(s)
  {
    if s != [] {
      assert s == [s[0]] + s[1..];
      SortByKeeps(key, s[1..]);
      InsertByKeyAdds(key, s[0], SortBy(key, s[1..]));
    }
  }

  ghost predicate KeysDiffer<T>(key: T -> seq<bytes>, s: seq<T>) {
    forall i, j | 0 <= i < j < |s| :: key(s[i]) != key(s[j]) && |key(s[i])| == |key(s[j])|
  }

  lemma {:induction false} SortByUnfolds<T>(key: T -> seq<bytes>, s: seq<T>)
    ensures s == [] ==> SortBy(key, s) == [] && InKeyOrder(key, SortBy(key, s))
    ensures s != [] ==> SortBy(key, s) == InsertByKey(key, s[0], SortBy(key, s[1..]))
  {}

  /** Sorting a list whose keys differ puts it in strict order and loses nothing. */
  lemma {:induction false} SortByOrders<T>(key: T -> seq<bytes>, s: seq<T>)
    requires KeysDiffer(key, s)
    ensures InKeyOrder(key, SortBy(key, s)) && multiset(SortBy(key, s)) == multiset(s)
    ensures |SortBy(key, s)| == |s| && forall x :: x in SortBy(key, s) <==> x in s
  {
    hide SortBy, InKeyOrder;
    SortByKeeps(key, s);
    SortByUnfolds(key, s);
    if s != [] {
      var tail := SortBy(key, s[1..]);
      SortByOrders(key, s[1..]);
      forall y | y in tail
        ensures key(s[0]) != key(y) && |key(s[0])| == |key(y)|
      {
        SortByKeeps(key, s[1..]);
        assert y in multiset(tail) && y in multiset(s[1..]);
        var i :| 1 <= i < |s| && s[i] == y;
      }
      InsertByKeyKeepsOrder(key, s[0], tail);
    }
    SameElements(SortBy(key, s), s);
  }

  /** dedupeSorted: drops an element whose key is that of the one kept before it. */
  method DedupeSorted<T>(values: seq<T>, key: T -> seq<bytes>) returns (normalized: seq<T>)
    ensures normalized == Deduped(values, key)
    ensures InKeyOrder(key, values) ==> normalized == values
  {
    normalized := values;
    if |values| >= 2 {
      normalized := values[..1];
      for i := 1 to |values|
        invariant normalized != [] && normalized == Deduped(values[..i], key)
      {
        assert values[..i + 1][..i] == values[..i];
        if key(normalized[|normalized| - 1]) != key(values[i]) { normalized := normalized + [values[i]]; }
      }
      assert values[..|values|] == values;
    }
    if InKeyOrder(key, values) { DedupedInOrder(values, key); }
  }

  function Deduped<T>(values: seq<T>, key: T -> seq<bytes>): (r: seq<T>)
    ensures r != [] <==> values != []
  {
    if |values| < 2 then values
    else
      var before, last := Deduped(values[..|values| - 1], key), values[|values| - 1];
      if key(before[|before| - 1]) == key(last) then before else before + [last]
  }

  lemma {:induction false} DedupedInOrder<T>(values: seq<T>, key: T -> seq<bytes>)
    requires InKeyOrder(key, values)
    ensures Deduped(values, key) == values
  {
    if |values| >= 2 {
      DedupedInOrder(values[..|values| - 1], key);
      ColumnsIrreflexive(key(values[|values| - 1]));
    }
  }

  function AssetKey(a: Asset): seq<bytes> { [a.id] }

  function ObservationKey(o: Observation): seq<bytes> { [o.id] }

  function EvidenceKey(e: Evidence): seq<bytes> { [e.id] }

  function RelationshipKey(r: Relationship): seq<bytes> { [r.from, r.to, r.kind] }

  function FindingKey(f: Finding): seq<bytes> { [f.id] }

  function FactKey(f: Fact): seq<bytes> { [f.id] }

  function TargetKey(t: Target): seq<bytes> { [t.targetID, t.instance] }

  function EvidenceTargetKey(t: EvidenceTarget): seq<bytes> { [t.targetID, t.assetID, t.observationID, t.evidenceID] }

  function CollectorKey(c: Collector): seq<bytes> { [c.name] }

  function StringKey(s: bytes): seq<bytes> { [s] }

  // ------------------------------------------------------------------ validation

  predicate ValidReference(k: Checks, p: Profile, id: bytes) {
    if p == Redacted then k.exported(id) else k.safe(id)
  }

  predicate ValidShown(k: Checks, p: Profile, part: Part, id: bytes, shown: bytes, rest: bytes) {
    if p == Redacted then shown == [] else k.display(part, id, shown, rest)
  }

  function AssetIDs(s: seq<Asset>): set<bytes> { set a | a in s :: a.id }

  function ObservationIDs(s: seq<Observation>): set<bytes> { set o | o in s :: o.id }

  function EvidenceIDs(s: seq<Evidence>): set<bytes> { set e | e in s :: e.id }

  predicate ValidAsset(k: Checks, p: Profile, a: Asset) {
    ValidReference(k, p, a.id) && k.plain(OfAsset, a.rest) && ValidShown(k, p, OfAsset, a.id, a.shown, a.rest)
  }

  predicate ValidObservation(k: Checks, p: Profile, o: Observation, assets: set<bytes>) {
    && ValidReference(k, p, o.id) && ValidReference(k, p, o.assetID) && o.assetID in assets
    && (o.projectID == [] || (ValidReference(k, p, o.projectID) && o.projectID in assets))
    && o.shown == [] && k.plain(OfObservation, o.rest)
  }

  predicate ValidEvidence(k: Checks, p: Profile, e: Evidence, assets: set<bytes>, observations: set<bytes>) {
    && ValidReference(k, p, e.id) && ValidReference(k, p, e.assetID) && ValidReference(k, p, e.observationID)
    && e.assetID in assets && e.observationID in observations
    && k.plain(OfEvidence, e.rest) && ValidShown(k, p, OfEvidence, e.id, e.shown, e.rest)
  }

  predicate ValidRelationship(k: Checks, p: Profile, r: Relationship, assets: set<bytes>) {
    && ValidReference(k, p, r.from) && ValidReference(k, p, r.to) && k.plain(OfRelationship, r.kind)
    && r.from in assets && r.to in assets
  }

  ghost predicate ValidFinding(k: Checks, p: Profile, f: Finding, assets: set<bytes>, evidence: set<bytes>) {
    && ValidReference(k, p, f.id) && ValidReference(k, p, f.assetID) && f.assetID in assets
    && (forall e | e in f.evidenceIDs :: ValidReference(k, p, e) && e in evidence) && InKeyOrder(StringKey, f.evidenceIDs)
    && k.plain(OfFinding, f.rest) && ValidShown(k, p, OfFinding, f.id, f.shown, f.rest)
  }

  predicate ValidFact(k: Checks, p: Profile, f: Fact, assets: set<bytes>, evidence: set<bytes>) {
    && ValidReference(k, p, f.id) && ValidReference(k, p, f.assetID) && f.assetID in assets
    && (f.evidenceID == [] || (ValidReference(k, p, f.evidenceID) && f.evidenceID in evidence)) && k.plain(OfFact, f.rest)
  }

  predicate ValidTarget(k: Checks, p: Profile, t: Target) {
    && ValidReference(k, p, t.targetID) && k.plain(OfTarget, t.rest)
    && (t.instance == [] || (if p == Redacted then k.exported(t.instance) else k.instance(t.instance)))
  }

  predicate ValidEvidenceTarget(k: Checks, p: Profile, t: EvidenceTarget, assets: set<bytes>, observations: set<bytes>,
                                evidence: set<bytes>)
  {
    && ValidReference(k, p, t.targetID) && ValidReference(k, p, t.assetID) && ValidReference(k, p, t.observationID)
    && ValidReference(k, p, t.evidenceID) && k.plain(OfEvidenceTarget, t.rest)
    && t.assetID in assets && t.observationID in observations && t.evidenceID in evidence
  }

  predicate ValidChange(k: Checks, p: Profile, c: Delta.Change, assets: set<bytes>, observations: set<bytes>,
                        evidence: set<bytes>)
  {
    && ValidReference(k, p, c.id)
    && (c.kind == Delta.Removed
        || match c.entity
           case AssetEntity => c.id in assets
           case ObservationEntity => c.id in observations
           case EvidenceEntity => c.id in evidence)
  }

  ghost predicate ValidInventory(k: Checks, p: Profile, inv: Inventory) {
    var assets, observations, evidence := AssetIDs(inv.assets), ObservationIDs(inv.observations), EvidenceIDs(inv.evidence);
    && (forall a | a in inv.assets :: ValidAsset(k, p, a)) && InKeyOrder(AssetKey, inv.assets)
    && (forall o | o in inv.observations :: ValidObservation(k, p, o, assets)) && InKeyOrder(ObservationKey, inv.observations)
    && (forall e | e in inv.evidence :: ValidEvidence(k, p, e, assets, observations)) && InKeyOrder(EvidenceKey, inv.evidence)
    && (forall r | r in inv.relationships :: ValidRelationship(k, p, r, assets)) && InKeyOrder(RelationshipKey, inv.relationships)
    && (forall f | f in inv.findings :: ValidFinding(k, p, f, assets, evidence)) && InKeyOrder(FindingKey, inv.findings)
    && (forall f | f in inv.facts :: ValidFact(k, p, f, assets, evidence)) && InKeyOrder(FactKey, inv.facts)
  }

  /** A collector's own graph is closed over its own assets; its relationships' spelling is not checked. */
  ghost predicate ValidCollector(k: Checks, p: Profile, c: Collector) {
    var assets := AssetIDs(c.assets);
    && k.plain(OfCollector, c.rest)
    && (forall a | a in c.assets :: ValidAsset(k, p, a)) && InKeyOrder(AssetKey, c.assets)
    && (forall r | r in c.relationships :: k.plain(OfRelationship, r.kind) && r.from in assets && r.to in assets)
    && InKeyOrder(RelationshipKey, c.relationships)
    && (forall o | o in c.observations :: ValidObservation(k, p, o, assets)) && InKeyOrder(ObservationKey, c.observations)
    && (forall t | t in c.targets :: ValidTarget(k, p, t)) && InKeyOrder(TargetKey, c.targets)
  }

  ghost predicate NotAfter<T>(key: T -> seq<bytes>, s: seq<T>) {
    forall i, j | 0 <= i < j < |s| :: !ColumnsLess(key(s[j]), key(s[i]))
  }

  ghost predicate ValidTop(k: Checks, p: Profile, r: Record) {
    var assets, observations, evidence :=
      AssetIDs(r.inventory.assets), ObservationIDs(r.inventory.observations), EvidenceIDs(r.inventory.evidence);
    && (forall f | f in r.findings :: ValidFinding(k, p, f, assets, evidence)) && InKeyOrder(FindingKey, r.findings)
    && (forall c | c in r.changes :: ValidChange(k, p, c, assets, observations, evidence)) && NotAfter(Delta.ChangeKey, r.changes)
    && (r.evidenceCoverage.Some? ==>
          && (forall t | t in r.evidenceCoverage.value :: ValidEvidenceTarget(k, p, t, assets, observations, evidence))
          && InKeyOrder(EvidenceTargetKey, r.evidenceCoverage.value))
  }

  predicate ValidRun(k: Checks, p: Profile, failed: bool, run: Run) {
    if p == Internal then k.internalRun(run) && (run.scanID == [] ==> failed)
    else k.runToken(run.id) && k.runToken(run.deviceID) && run.shown == k.redactedLabel
         && (if run.scanID == [] then failed else k.runToken(run.scanID))
  }

  function Summarize(r: Record): Summary {
    Summary(|r.inventory.assets|, |r.inventory.observations|, |r.inventory.evidence|, |r.inventory.relationships|, |r.findings|,
            |r.coverage|, if r.evidenceCoverage.Some? then |r.evidenceCoverage.value| else 0, |r.changes|)
  }

  const NOTHING := Inventory([], [], [], [], [], [])

  /** Validate. */
  ghost predicate Valid(k: Checks, r: Record) {
    && r.summary == Summarize(r) && ValidRun(k, r.profile, r.failed, r.run)
    && if r.failed then
         k.plain(OfFailure, r.rest) && r.inventory == NOTHING && r.findings == [] && r.coverage == [] && r.evidenceCoverage.None?
         && r.changes == []
       else
         && k.plain(OfRecord, r.rest)
         && ValidInventory(k, r.profile, r.inventory)
         && (forall c | c in r.coverage :: ValidCollector(k, r.profile, c)) && InKeyOrder(CollectorKey, r.coverage)
         && ValidTop(k, r.profile, r)
  }

  // ------------------------------------------------------------------- redaction

  /** The new name of an identity, once normalization has replaced any that is not a safe identifier. */
  function NewName(k: Checks, s: Salt, id: bytes): bytes {
    var t := s.token(id);
    if t == [] || k.safe(t) then t else s.hashed(t)
  }

  function NewInstance(k: Checks, s: Salt, instance: bytes): bytes {
    var t := s.token(instance);
    if t != [] && !k.instance(t) && !k.exported(t) then s.hashed(t) else t
  }

  function NewNames(k: Checks, s: Salt, ids: seq<bytes>): (r: seq<bytes>)
    ensures |r| == |ids| && forall i | 0 <= i < |ids| :: r[i] == NewName(k, s, ids[i])
  {
    seq(|ids|, i requires 0 <= i < |ids| => NewName(k, s, ids[i]))
  }

  function NewAsset(k: Checks, s: Salt, a: Asset): Asset { a.(id := NewName(k, s, a.id), shown := []) }

  function NewObservation(k: Checks, s: Salt, o: Observation): Observation {
    o.(id := NewName(k, s, o.id), assetID := NewName(k, s, o.assetID), projectID := NewName(k, s, o.projectID), shown := [])
  }

  function NewEvidence(k: Checks, s: Salt, e: Evidence): Evidence {
    e.(id := NewName(k, s, e.id), assetID := NewName(k, s, e.assetID), observationID := NewName(k, s, e.observationID), shown := [])
  }

  function NewRelationship(k: Checks, s: Salt, r: Relationship): Relationship {
    r.(from := NewName(k, s, r.from), to := NewName(k, s, r.to))
  }

  function NewFinding(k: Checks, s: Salt, f: Finding): Finding {
    f.(id := NewName(k, s, f.id), assetID := NewName(k, s, f.assetID), shown := [],
       evidenceIDs := SortBy(StringKey, NewNames(k, s, f.evidenceIDs)))
  }

  function NewFact(k: Checks, s: Salt, f: Fact): Fact {
    f.(id := NewName(k, s, f.id), assetID := NewName(k, s, f.assetID), evidenceID := NewName(k, s, f.evidenceID))
  }

  function NewTarget(k: Checks, s: Salt, t: Target): Target {
    t.(targetID := NewName(k, s, t.targetID), instance := NewInstance(k, s, t.instance))
  }

  function NewEvidenceTarget(k: Checks, s: Salt, t: EvidenceTarget): EvidenceTarget {
    t.(targetID := NewName(k, s, t.targetID), assetID := NewName(k, s, t.assetID),
       observationID := NewName(k, s, t.observationID), evidenceID := NewName(k, s, t.evidenceID))
  }

  function NewChange(k: Checks, s: Salt, c: Delta.Change): Delta.Change { c.(id := NewName(k, s, c.id)) }

  function NewAssets(k: Checks, s: Salt, xs: seq<Asset>): (r: seq<Asset>)
    ensures |r| == |xs| && forall i | 0 <= i < |xs| :: r[i] == NewAsset(k, s, xs[i])
  {
    seq(|xs|, i requires 0 <= i < |xs| => NewAsset(k, s, xs[i]))
  }

  function NewObservations(k: Checks, s: Salt, xs: seq<Observation>): (r: seq<Observation>)
    ensures |r| == |xs| && forall i | 0 <= i < |xs| :: r[i] == NewObservation(k, s, xs[i])
  {
    seq(|xs|, i requires 0 <= i < |xs| => NewObservation(k, s, xs[i]))
  }

  function NewEvidences(k: Checks, s: Salt, xs: seq<Evidence>): (r: seq<Evidence>)
    ensures |r| == |xs| && forall i | 0 <= i < |xs| :: r[i] == NewEvidence(k, s, xs[i])
  {
    seq(|xs|, i requires 0 <= i < |xs| => NewEvidence(k, s, xs[i]))
  }

  function NewRelationships(k: Checks, s: Salt, xs: seq<Relationship>): (r: seq<Relationship>)
    ensures |r| == |xs| && forall i | 0 <= i < |xs| :: r[i] == NewRelationship(k, s, xs[i])
  {
    seq(|xs|, i requires 0 <= i < |xs| => NewRelationship(k, s, xs[i]))
  }

  function NewFindings(k: Checks, s: Salt, xs: seq<Finding>): (r: seq<Finding>)
    ensures |r| == |xs| && forall i | 0 <= i < |xs| :: r[i] == NewFinding(k, s, xs[i])
  {
    seq(|xs|, i requires 0 <= i < |xs| => NewFinding(k, s, xs[i]))
  }

  function NewFacts(k: Checks, s: Salt, xs: seq<Fact>): (r: seq<Fact>)
    ensures |r| == |xs| && forall i | 0 <= i < |xs| :: r[i] == NewFact(k, s, xs[i])
  {
    seq(|xs|, i requires 0 <= i < |xs| => NewFact(k, s, xs[i]))
  }

  function NewTargets(k: Checks, s: Salt, xs: seq<Target>): (r: seq<Target>)
    ensures |r| == |xs| && forall i | 0 <= i < |xs| :: r[i] == NewTarget(k, s, xs[i])
  {
    seq(|xs|, i requires 0 <= i < |xs| => NewTarget(k, s, xs[i]))
  }

  function NewEvidenceTargets(k: Checks, s: Salt, xs: seq<EvidenceTarget>): (r: seq<EvidenceTarget>)
    ensures |r| == |xs| && forall i | 0 <= i < |xs| :: r[i] == NewEvidenceTarget(k, s, xs[i])
  {
    seq(|xs|, i requires 0 <= i < |xs| => NewEvidenceTarget(k, s, xs[i]))
  }

  function NewChanges(k: Checks, s: Salt, xs: seq<Delta.Change>): (r: seq<Delta.Change>)
    ensures |r| == |xs| && forall i | 0 <= i < |xs| :: r[i] == NewChange(k, s, xs[i])
  {
    seq(|xs|, i requires 0 <= i < |xs| => NewChange(k, s, xs[i]))
  }

  function NewCollector(k: Checks, s: Salt, c: Collector): Collector {
    c.(assets := Deduped(SortBy(AssetKey, NewAssets(k, s, c.assets)), AssetKey),
       relationships := Deduped(SortBy(RelationshipKey, NewRelationships(k, s, c.relationships)), RelationshipKey),
       observations := Deduped(SortBy(ObservationKey, NewObservations(k, s, c.observations)), ObservationKey),
       targets := Deduped(SortBy(TargetKey, NewTargets(k, s, c.targets)), TargetKey))
  }

  function NewCollectors(k: Checks, s: Salt, xs: seq<Collector>): (r: seq<Collector>)
    ensures |r| == |xs| && forall i | 0 <= i < |xs| :: r[i] == NewCollector(k, s, xs[i])
  {
    seq(|xs|, i requires 0 <= i < |xs| => NewCollector(k, s, xs[i]))
  }

  function NewInventory(k: Checks, s: Salt, inv: Inventory): Inventory {
    Inventory(SortBy(AssetKey, NewAssets(k, s, inv.assets)),
              SortBy(ObservationKey, NewObservations(k, s, inv.observations)),
              SortBy(EvidenceKey, NewEvidences(k, s, inv.evidence)),
              SortBy(RelationshipKey, NewRelationships(k, s, inv.relationships)),
              SortBy(FindingKey, NewFindings(k, s, inv.findings)),
              SortBy(FactKey, NewFacts(k, s, inv.facts)))
  }

  function NewRun(k: Checks, s: Salt, run: Run): Run {
    Run(s.runToken(run.id), s.runToken(run.deviceID), if run.scanID == [] then [] else s.runToken(run.scanID), k.redactedLabel)
  }

  function NewRecord(k: Checks, s: Salt, r: Record): Record {
    var renamed := r.(
      profile := Redacted, run := NewRun(k, s, r.run), inventory := NewInventory(k, s, r.inventory),
      findings := SortBy(FindingKey, NewFindings(k, s, r.findings)),
      coverage := SortBy(CollectorKey, NewCollectors(k, s, r.coverage)),
      changes := SortBy(Delta.ChangeKey, NewChanges(k, s, r.changes)),
      evidenceCoverage := match r.evidenceCoverage
        case None => None
        case Some(ts) => Some(SortBy(EvidenceTargetKey, NewEvidenceTargets(k, s, ts))));
    renamed.(summary := Summarize(renamed))
  }

  /** Redact; None is its error. */
  ghost function Redact(k: Checks, s: Salt, r: Record): Option<Record> {
    if Valid(k, r) && Valid(k, NewRecord(k, s, r)) then Some(NewRecord(k, s, r)) else None
  }
}
