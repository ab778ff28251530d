// What validation promises of an audit record, and what redaction makes of the record as a whole.
module ValidRecord {
  import opened Framing
  import opened Ordering
  import opened Sorting
  import Delta = Inventory
  import opened Redaction
  import opened RedactedGraph

  // --------------------------------------------------------------------- closure

  predicate HasAsset(assets: seq<Asset>, id: bytes) { exists a <- assets :: a.id == id }

  predicate HasObservation(inv: Inventory, id: bytes) { exists o <- inv.observations :: o.id == id }

  predicate HasEvidence(inv: Inventory, id: bytes) { exists e <- inv.evidence :: e.id == id }

  /** Both ends of a reference inside one list of assets. */
  predicate StandsAmong(assets: seq<Asset>, l: Link) {
    match l
    case ObservationOf(_, a, p) => HasAsset(assets, a) && (p == [] || HasAsset(assets, p))
    case Related(f, _, t) => HasAsset(assets, f) && HasAsset(assets, t)
    case _ => false
  }

  /** Everything a reference leads to is in the record. */
  predicate Stands(r: Record, l: Link) {
    var inv := r.inventory;
    match l
    case ObservationOf(_, _, _) => StandsAmong(inv.assets, l)
    case Related(_, _, _) => StandsAmong(inv.assets, l)
    case EvidenceOf(_, a, o) => HasAsset(inv.assets, a) && HasObservation(inv, o)
    case FindingOn(_, a) => HasAsset(inv.assets, a)
    case Cited(_, e) => HasEvidence(inv, e)
    case FactOn(_, a, e) => HasAsset(inv.assets, a) && (e == [] || HasEvidence(inv, e))
    case Covered(_, a, o, e) => HasAsset(inv.assets, a) && HasObservation(inv, o) && HasEvidence(inv, e)
    case ChangeTo(Removed, _, _) => true
    case ChangeTo(_, AssetEntity, id) => HasAsset(inv.assets, id)
    case ChangeTo(_, ObservationEntity, id) => HasObservation(inv, id)
    case ChangeTo(_, EvidenceEntity, id) => HasEvidence(inv, id)
    case InCollector(name, link) => exists c <- r.coverage :: c.name == name && StandsAmong(c.assets, link)
  }

  /** Membership in the sets that validation works with is being there. */
  lemma BeingThere(assets: seq<Asset>, inv: Inventory)
    ensures forall id :: id in AssetIDs(assets) <==> HasAsset(assets, id)
    ensures forall id :: id in ObservationIDs(inv.observations) <==> HasObservation(inv, id)
    ensures forall id :: id in EvidenceIDs(inv.evidence) <==> HasEvidence(inv, id)
  {}

  // ------------------------------------------------------------ names and fields

  /** An identity in the spelling of the profile: an export token, or a safe identifier. */
  predicate Spells(k: Checks, p: Profile, id: bytes) { if p == Internal then k.safe(id) else k.exported(id) }

  /** What is shown passes its pattern, and a redacted record shows nothing. */
  predicate Shows(k: Checks, p: Profile, part: Part, id: bytes, shown: bytes, rest: bytes) {
    (p == Redacted ==> shown == []) && (p == Internal ==> k.display(part, id, shown, rest))
  }

  predicate PlainAsset(k: Checks, p: Profile, a: Asset) {
    Spells(k, p, a.id) && k.plain(OfAsset, a.rest) && Shows(k, p, OfAsset, a.id, a.shown, a.rest)
  }

  predicate PlainObservation(k: Checks, p: Profile, o: Observation) {
    && Spells(k, p, o.id) && Spells(k, p, o.assetID) && (o.projectID == [] || Spells(k, p, o.projectID))
    && k.plain(OfObservation, o.rest) && o.shown == []
  }

  predicate PlainEvidence(k: Checks, p: Profile, e: Evidence) {
    && Spells(k, p, e.id) && Spells(k, p, e.assetID) && Spells(k, p, e.observationID)
    && k.plain(OfEvidence, e.rest) && Shows(k, p, OfEvidence, e.id, e.shown, e.rest)
  }

  predicate PlainRelationship(k: Checks, p: Profile, x: Relationship) {
    Spells(k, p, x.from) && Spells(k, p, x.to) && k.plain(OfRelationship, x.kind)
  }

  ghost predicate PlainFinding(k: Checks, p: Profile, f: Finding) {
    && Spells(k, p, f.id) && Spells(k, p, f.assetID) && (forall e | e in f.evidenceIDs :: Spells(k, p, e))
    && StrictlySorted(f.evidenceIDs) && k.plain(OfFinding, f.rest) && Shows(k, p, OfFinding, f.id, f.shown, f.rest)
  }

  predicate PlainFact(k: Checks, p: Profile, f: Fact) {
    && Spells(k, p, f.id) && Spells(k, p, f.assetID) && (f.evidenceID == [] || Spells(k, p, f.evidenceID))
    && k.plain(OfFact, f.rest)
  }

  predicate PlainTarget(k: Checks, p: Profile, t: Target) {
    && Spells(k, p, t.targetID) && k.plain(OfTarget, t.rest)
    && (t.instance == [] || (if p == Internal then k.instance(t.instance) else k.exported(t.instance)))
  }

  predicate PlainEvidenceTarget(k: Checks, p: Profile, t: EvidenceTarget) {
    && Spells(k, p, t.targetID) && Spells(k, p, t.assetID) && Spells(k, p, t.observationID) && Spells(k, p, t.evidenceID)
    && k.plain(OfEvidenceTarget, t.rest)
  }

  // ------------------------------------------------------------- one entity at a time

  lemma AssetIff(k: Checks, p: Profile, x: Asset)
    ensures ValidAsset(k, p, x) <==> PlainAsset(k, p, x)
  {}

  lemma ObservationIff(k: Checks, p: Profile, assets: seq<Asset>, x: Observation)
    ensures ValidObservation(k, p, x, AssetIDs(assets))
            <==> PlainObservation(k, p, x) && forall l | l in ObservationLinks(x) :: StandsAmong(assets, l)
  {
    hide HasAsset, AssetIDs;
    BeingThere(assets, NOTHING);
    assert ObservationOf(x.id, x.assetID, x.projectID) in ObservationLinks(x);
  }

  lemma RelationshipIff(k: Checks, p: Profile, assets: seq<Asset>, x: Relationship)
    ensures ValidRelationship(k, p, x, AssetIDs(assets))
            <==> PlainRelationship(k, p, x) && forall l | l in RelationshipLinks(x) :: StandsAmong(assets, l)
  {
    hide HasAsset, AssetIDs;
    BeingThere(assets, NOTHING);
    assert Related(x.from, x.kind, x.to) in RelationshipLinks(x);
  }

  lemma EvidenceIff(k: Checks, p: Profile, r: Record, x: Evidence)
    ensures ValidEvidence(k, p, x, AssetIDs(r.inventory.assets), ObservationIDs(r.inventory.observations))
            <==> PlainEvidence(k, p, x) && forall l | l in EvidenceLinks(x) :: Stands(r, l)
  {
    hide HasAsset, HasObservation, AssetIDs, ObservationIDs;
    BeingThere(r.inventory.assets, r.inventory);
    assert EvidenceOf(x.id, x.assetID, x.observationID) in EvidenceLinks(x);
  }

  lemma FindingIff(k: Checks, p: Profile, r: Record, x: Finding)
    ensures ValidFinding(k, p, x, AssetIDs(r.inventory.assets), EvidenceIDs(r.inventory.evidence))
            <==> PlainFinding(k, p, x) && forall l | l in FindingLinks(x) :: Stands(r, l)
  {
    hide HasAsset, HasEvidence, AssetIDs, EvidenceIDs, InKeyOrder;
    BeingThere(r.inventory.assets, r.inventory);
    OneColumnOrders((e: bytes) => e, StringKey, x.evidenceIDs);
    assert FindingOn(x.id, x.assetID) in FindingLinks(x);
    assert forall e | e in x.evidenceIDs :: Cited(x.id, e) in FindingLinks(x);
  }

  lemma FactIff(k: Checks, p: Profile, r: Record, x: Fact)
    ensures ValidFact(k, p, x, AssetIDs(r.inventory.assets), EvidenceIDs(r.inventory.evidence))
            <==> PlainFact(k, p, x) && forall l | l in FactLinks(x) :: Stands(r, l)
  {
    hide HasAsset, HasEvidence, AssetIDs, EvidenceIDs;
    BeingThere(r.inventory.assets, r.inventory);
    assert FactOn(x.id, x.assetID, x.evidenceID) in FactLinks(x);
  }

  lemma TargetIff(k: Checks, p: Profile, x: Target)
    ensures ValidTarget(k, p, x) <==> PlainTarget(k, p, x)
  {}

  lemma EvidenceTargetIff(k: Checks, p: Profile, r: Record, x: EvidenceTarget)
    ensures var inv := r.inventory;
            ValidEvidenceTarget(k, p, x, AssetIDs(inv.assets), ObservationIDs(inv.observations), EvidenceIDs(inv.evidence))
            <==> PlainEvidenceTarget(k, p, x) && forall l | l in EvidenceTargetLinks(x) :: Stands(r, l)
  {
    hide HasAsset, HasObservation, HasEvidence, AssetIDs, ObservationIDs, EvidenceIDs;
    BeingThere(r.inventory.assets, r.inventory);
    assert Covered(x.targetID, x.assetID, x.observationID, x.evidenceID) in EvidenceTargetLinks(x);
  }

  lemma ChangeIff(k: Checks, p: Profile, r: Record, x: Delta.Change)
    ensures var inv := r.inventory;
            ValidChange(k, p, x, AssetIDs(inv.assets), ObservationIDs(inv.observations), EvidenceIDs(inv.evidence))
            <==> Spells(k, p, x.id) && forall l | l in ChangeLinks(x) :: Stands(r, l)
  {
    hide HasAsset, HasObservation, HasEvidence, AssetIDs, ObservationIDs, EvidenceIDs;
    BeingThere(r.inventory.assets, r.inventory);
    assert ChangeTo(x.kind, x.entity, x.id) in ChangeLinks(x);
  }

  /** What holds of each element and each of its references holds of the list and of all references in it. */
  lemma ListIff<T(!new)>(valid: T -> bool, plain: T -> bool, links: T -> set<Link>, stands: Link -> bool, xs: seq<T>)
    requires forall x | x in xs :: valid(x) <==> plain(x) && forall l | l in links(x) :: stands(l)
    ensures (forall x | x in xs :: valid(x))
            <==> (forall x | x in xs :: plain(x)) && forall l | l in LinksOf(links, xs) :: stands(l)
  {
    forall x, l | x in xs && l in links(x)
      ensures l in LinksOf(links, xs)
    {}
  }

  // ----------------------------------------------------------------------- order

  predicate RelationshipBefore(a: Relationship, b: Relationship) {
    Less(a.from, b.from) || (a.from == b.from && (Less(a.to, b.to) || (a.to == b.to && Less(a.kind, b.kind))))
  }

  ghost predicate InOrderOf<T>(id: T -> bytes, s: seq<T>) {
    forall i, j | 0 <= i < j < |s| :: Less(id(s[i]), id(s[j]))
  }

  ghost predicate RelationshipsInOrder(s: seq<Relationship>) {
    forall i, j | 0 <= i < j < |s| :: RelationshipBefore(s[i], s[j])
  }

  lemma OneColumnOrders<T>(id: T -> bytes, key: T -> seq<bytes>, s: seq<T>)
    requires forall i | 0 <= i < |s| :: key(s[i]) == [id(s[i])]
    ensures InKeyOrder(key, s) <==> InOrderOf(id, s)
  {
    hide Less, ColumnsLess;
    forall i, j | 0 <= i < j < |s|
      ensures ColumnsLess(key(s[i]), key(s[j])) <==> Less(id(s[i]), id(s[j]))
    {
      var a, b := id(s[i]), id(s[j]);
      NextColumn(a, [], b, []);
      assert [a] + [] == [a] && [b] + [] == [b];
      ColumnsIrreflexive([]);
    }
  }

  lemma RelationshipKeysOrder(s: seq<Relationship>)
    ensures InKeyOrder(RelationshipKey, s) <==> RelationshipsInOrder(s)
  {
    hide Less, ColumnsLess;
    ColumnsIrreflexive([]);
    forall i, j | 0 <= i < j < |s|
      ensures ColumnsLess(RelationshipKey(s[i]), RelationshipKey(s[j])) <==> RelationshipBefore(s[i], s[j])
    {
      var a, b := s[i], s[j];
      assert RelationshipKey(a) == [a.from] + [a.to, a.kind] && RelationshipKey(b) == [b.from] + [b.to, b.kind];
      NextColumn(a.from, [a.to, a.kind], b.from, [b.to, b.kind]);
      assert [a.to, a.kind] == [a.to] + [a.kind] && [b.to, b.kind] == [b.to] + [b.kind];
      NextColumn(a.to, [a.kind], b.to, [b.kind]);
      assert [a.kind] == [a.kind] + [] && [b.kind] == [b.kind] + [];
      NextColumn(a.kind, [], b.kind, []);
    }
  }

  /** Every list in strict order of ID, and relationships of their ends and then their kind. */
  ghost predicate InventoryInOrder(inv: Inventory) {
    && InOrderOf((a: Asset) => a.id, inv.assets) && InOrderOf((o: Observation) => o.id, inv.observations)
    && InOrderOf((e: Evidence) => e.id, inv.evidence) && InOrderOf((f: Finding) => f.id, inv.findings)
    && InOrderOf((f: Fact) => f.id, inv.facts) && RelationshipsInOrder(inv.relationships)
  }

  lemma InventoryKeysOrder(inv: Inventory)
    ensures InventoryInOrder(inv) <==>
              && InKeyOrder(AssetKey, inv.assets) && InKeyOrder(ObservationKey, inv.observations)
              && InKeyOrder(EvidenceKey, inv.evidence) && InKeyOrder(RelationshipKey, inv.relationships)
              && InKeyOrder(FindingKey, inv.findings) && InKeyOrder(FactKey, inv.facts)
  {
    hide InKeyOrder, InOrderOf, RelationshipsInOrder;
    OneColumnOrders((a: Asset) => a.id, AssetKey, inv.assets);
    OneColumnOrders((o: Observation) => o.id, ObservationKey, inv.observations);
    OneColumnOrders((e: Evidence) => e.id, EvidenceKey, inv.evidence);
    OneColumnOrders((f: Finding) => f.id, FindingKey, inv.findings);
    OneColumnOrders((f: Fact) => f.id, FactKey, inv.facts);
    RelationshipKeysOrder(inv.relationships);
  }

  // ---------------------------------------------------------------- whole records

  ghost predicate PlainInventory(k: Checks, p: Profile, inv: Inventory) {
    && (forall x | x in inv.assets :: PlainAsset(k, p, x)) && (forall x | x in inv.observations :: PlainObservation(k, p, x))
    && (forall x | x in inv.evidence :: PlainEvidence(k, p, x))
    && (forall x | x in inv.relationships :: PlainRelationship(k, p, x))
    && (forall x | x in inv.findings :: PlainFinding(k, p, x)) && (forall x | x in inv.facts :: PlainFact(k, p, x))
  }

  /** An inventory is valid exactly when its entities are plain, its references lead somewhere, and its lists are in order. */
  lemma InventoryIff(k: Checks, r: Record)
    ensures ValidInventory(k, r.profile, r.inventory) <==>
              && PlainInventory(k, r.profile, r.inventory) && (forall l | l in InventoryLinks(r.inventory) :: Stands(r, l))
              && InventoryInOrder(r.inventory)
  {
    hide InKeyOrder, InventoryInOrder, StandsAmong, LinksOf, ValidAsset, ValidObservation, ValidEvidence, ValidRelationship,
         ValidFinding, ValidFact, PlainAsset, PlainObservation, PlainEvidence, PlainRelationship, PlainFinding, PlainFact,
         AssetIDs, ObservationIDs, EvidenceIDs, ObservationLinks, EvidenceLinks, RelationshipLinks, FindingLinks, FactLinks;
    var p, inv := r.profile, r.inventory;
    InventoryKeysOrder(inv);
    forall x: Asset
      ensures ValidAsset(k, p, x) <==> PlainAsset(k, p, x)
    {
      AssetIff(k, p, x);
    }
    ObservationsIff(k, p, r);
    RelationshipsIff(k, p, r);
    EvidencesIff(k, p, r);
    FindingsIff(k, p, r, inv.findings);
    FactsIff(k, p, r);
    hide Stands;
  }

  lemma ObservationsIff(k: Checks, p: Profile, r: Record)
    ensures var inv := r.inventory;
            (forall x | x in inv.observations :: ValidObservation(k, p, x, AssetIDs(inv.assets)))
            <==> (forall x | x in inv.observations :: PlainObservation(k, p, x))
                 && forall l | l in LinksOf(ObservationLinks, inv.observations) :: Stands(r, l)
  {
    hide LinksOf, AssetIDs, HasAsset, ValidObservation, PlainObservation;
    forall x | x in r.inventory.observations
      ensures ValidObservation(k, p, x, AssetIDs(r.inventory.assets))
              <==> PlainObservation(k, p, x) && forall l | l in ObservationLinks(x) :: Stands(r, l)
    {
      ObservationIff(k, p, r.inventory.assets, x);
    }
    ListIff((x: Observation) => ValidObservation(k, p, x, AssetIDs(r.inventory.assets)),
            (x: Observation) => PlainObservation(k, p, x), ObservationLinks, l => Stands(r, l), r.inventory.observations);
  }

  lemma RelationshipsIff(k: Checks, p: Profile, r: Record)
    ensures var inv := r.inventory;
            (forall x | x in inv.relationships :: ValidRelationship(k, p, x, AssetIDs(inv.assets)))
            <==> (forall x | x in inv.relationships :: PlainRelationship(k, p, x))
                 && forall l | l in LinksOf(RelationshipLinks, inv.relationships) :: Stands(r, l)
  {
    hide LinksOf, AssetIDs, HasAsset, ValidRelationship, PlainRelationship;
    forall x | x in r.inventory.relationships
      ensures ValidRelationship(k, p, x, AssetIDs(r.inventory.assets))
              <==> PlainRelationship(k, p, x) && forall l | l in RelationshipLinks(x) :: Stands(r, l)
    {
      RelationshipIff(k, p, r.inventory.assets, x);
    }
    ListIff((x: Relationship) => ValidRelationship(k, p, x, AssetIDs(r.inventory.assets)),
            (x: Relationship) => PlainRelationship(k, p, x), RelationshipLinks, l => Stands(r, l), r.inventory.relationships);
  }

  lemma EvidencesIff(k: Checks, p: Profile, r: Record)
    ensures var inv := r.inventory;
            (forall x | x in inv.evidence :: ValidEvidence(k, p, x, AssetIDs(inv.assets), ObservationIDs(inv.observations)))
            <==> (forall x | x in inv.evidence :: PlainEvidence(k, p, x))
                 && forall l | l in LinksOf(EvidenceLinks, inv.evidence) :: Stands(r, l)
  {
    hide LinksOf, AssetIDs, ObservationIDs, Stands, ValidEvidence, PlainEvidence, EvidenceLinks;
    var inv := r.inventory;
    forall x | x in inv.evidence
      ensures ValidEvidence(k, p, x, AssetIDs(inv.assets), ObservationIDs(inv.observations))
              <==> PlainEvidence(k, p, x) && forall l | l in EvidenceLinks(x) :: Stands(r, l)
    {
      EvidenceIff(k, p, r, x);
    }
    ListIff((x: Evidence) => ValidEvidence(k, p, x, AssetIDs(inv.assets), ObservationIDs(inv.observations)),
            (x: Evidence) => PlainEvidence(k, p, x), EvidenceLinks, l => Stands(r, l), inv.evidence);
  }

  lemma FindingsIff(k: Checks, p: Profile, r: Record, findings: seq<Finding>)
    ensures var inv := r.inventory;
            (forall x | x in findings :: ValidFinding(k, p, x, AssetIDs(inv.assets), EvidenceIDs(inv.evidence)))
            <==> (forall x | x in findings :: PlainFinding(k, p, x))
                 && forall l | l in LinksOf(FindingLinks, findings) :: Stands(r, l)
  {
    hide LinksOf, AssetIDs, EvidenceIDs, Stands, ValidFinding, PlainFinding, FindingLinks;
    var inv := r.inventory;
    forall x | x in findings
      ensures ValidFinding(k, p, x, AssetIDs(inv.assets), EvidenceIDs(inv.evidence))
              <==> PlainFinding(k, p, x) && forall l | l in FindingLinks(x) :: Stands(r, l)
    {
      FindingIff(k, p, r, x);
    }
    ListIff((x: Finding) => ValidFinding(k, p, x, AssetIDs(inv.assets), EvidenceIDs(inv.evidence)),
            (x: Finding) => PlainFinding(k, p, x), FindingLinks, l => Stands(r, l), findings);
  }

  lemma FactsIff(k: Checks, p: Profile, r: Record)
    ensures var inv := r.inventory;
            (forall x | x in inv.facts :: ValidFact(k, p, x, AssetIDs(inv.assets), EvidenceIDs(inv.evidence)))
            <==> (forall x | x in inv.facts :: PlainFact(k, p, x))
                 && forall l | l in LinksOf(FactLinks, inv.facts) :: Stands(r, l)
  {
    hide LinksOf, AssetIDs, EvidenceIDs, Stands, ValidFact, PlainFact, FactLinks;
    var inv := r.inventory;
    forall x | x in inv.facts
      ensures ValidFact(k, p, x, AssetIDs(inv.assets), EvidenceIDs(inv.evidence))
              <==> PlainFact(k, p, x) && forall l | l in FactLinks(x) :: Stands(r, l)
    {
      FactIff(k, p, r, x);
    }
    ListIff((x: Fact) => ValidFact(k, p, x, AssetIDs(inv.assets), EvidenceIDs(inv.evidence)), (x: Fact) => PlainFact(k, p, x),
            FactLinks, l => Stands(r, l), inv.facts);
  }

  ghost predicate PlainTop(k: Checks, p: Profile, r: Record) {
    && (forall x | x in r.findings :: PlainFinding(k, p, x)) && (forall x | x in r.changes :: Spells(k, p, x.id))
    && (r.evidenceCoverage.Some? ==> forall x | x in r.evidenceCoverage.value :: PlainEvidenceTarget(k, p, x))
  }

  ghost predicate TopInOrder(r: Record) {
    && InOrderOf((f: Finding) => f.id, r.findings) && NotAfter(Delta.ChangeKey, r.changes)
    && (r.evidenceCoverage.Some? ==> InKeyOrder(EvidenceTargetKey, r.evidenceCoverage.value))
  }

  function TopLinks(r: Record): set<Link> {
    LinksOf(FindingLinks, r.findings) + LinksOf(ChangeLinks, r.changes) + CoverageLinks(r)
  }

  /** The same of findings, changes and evidence coverage, which refer to the inventory. */
  lemma TopIff(k: Checks, r: Record)
    ensures ValidTop(k, r.profile, r) <==>
              PlainTop(k, r.profile, r) && (forall l | l in TopLinks(r) :: Stands(r, l)) && TopInOrder(r)
  {
    hide InKeyOrder, NotAfter, InOrderOf, LinksOf, ValidFinding, ValidChange, ValidEvidenceTarget, PlainFinding,
         PlainEvidenceTarget, AssetIDs, ObservationIDs, EvidenceIDs, Stands, FindingLinks, ChangeLinks, EvidenceTargetLinks,
         Spells;
    var p, inv := r.profile, r.inventory;
    OneColumnOrders((f: Finding) => f.id, FindingKey, r.findings);
    FindingsIff(k, p, r, r.findings);
    forall x | x in r.changes
      ensures ValidChange(k, p, x, AssetIDs(inv.assets), ObservationIDs(inv.observations), EvidenceIDs(inv.evidence))
              <==> Spells(k, p, x.id) && forall l | l in ChangeLinks(x) :: Stands(r, l)
    {
      ChangeIff(k, p, r, x);
    }
    ListIff((x: Delta.Change) =>
              ValidChange(k, p, x, AssetIDs(inv.assets), ObservationIDs(inv.observations), EvidenceIDs(inv.evidence)),
            (x: Delta.Change) => Spells(k, p, x.id), ChangeLinks, l => Stands(r, l), r.changes);
    if r.evidenceCoverage.Some? { EvidenceTargetsIff(k, p, r, r.evidenceCoverage.value); }
  }

  lemma EvidenceTargetsIff(k: Checks, p: Profile, r: Record, targets: seq<EvidenceTarget>)
    ensures var inv := r.inventory;
            (forall x | x in targets ::
               ValidEvidenceTarget(k, p, x, AssetIDs(inv.assets), ObservationIDs(inv.observations), EvidenceIDs(inv.evidence)))
            <==> (forall x | x in targets :: PlainEvidenceTarget(k, p, x))
                 && forall l | l in LinksOf(EvidenceTargetLinks, targets) :: Stands(r, l)
  {
    hide LinksOf, AssetIDs, ObservationIDs, EvidenceIDs, Stands, ValidEvidenceTarget, PlainEvidenceTarget, EvidenceTargetLinks;
    var inv := r.inventory;
    forall x | x in targets
      ensures ValidEvidenceTarget(k, p, x, AssetIDs(inv.assets), ObservationIDs(inv.observations), EvidenceIDs(inv.evidence))
              <==> PlainEvidenceTarget(k, p, x) && forall l | l in EvidenceTargetLinks(x) :: Stands(r, l)
    {
      EvidenceTargetIff(k, p, r, x);
    }
    ListIff((x: EvidenceTarget) =>
              ValidEvidenceTarget(k, p, x, AssetIDs(inv.assets), ObservationIDs(inv.observations), EvidenceIDs(inv.evidence)),
            (x: EvidenceTarget) => PlainEvidenceTarget(k, p, x), EvidenceTargetLinks, l => Stands(r, l), targets);
  }

  /** A collector keeps a graph of its own assets, whose relationships may spell them as they like. */
  ghost predicate GoodCollector(k: Checks, p: Profile, c: Collector) {
    && k.plain(OfCollector, c.rest)
    && (forall x | x in c.assets :: PlainAsset(k, p, x)) && (forall x | x in c.observations :: PlainObservation(k, p, x))
    && (forall x | x in c.relationships :: k.plain(OfRelationship, x.kind)) && (forall x | x in c.targets :: PlainTarget(k, p, x))
    && (forall l | l in LinksOf(ObservationLinks, c.observations) + LinksOf(RelationshipLinks, c.relationships) ::
          StandsAmong(c.assets, l))
    && InOrderOf((a: Asset) => a.id, c.assets) && InOrderOf((o: Observation) => o.id, c.observations)
    && RelationshipsInOrder(c.relationships) && InKeyOrder(TargetKey, c.targets)
  }

  lemma CollectorIff(k: Checks, p: Profile, c: Collector)
    ensures ValidCollector(k, p, c) <==> GoodCollector(k, p, c)
  {
    hide InKeyOrder, InOrderOf, RelationshipsInOrder, LinksOf, ValidAsset, ValidObservation, ValidTarget, PlainAsset,
         PlainObservation, PlainTarget, AssetIDs, HasAsset;
    OneColumnOrders((a: Asset) => a.id, AssetKey, c.assets);
    OneColumnOrders((o: Observation) => o.id, ObservationKey, c.observations);
    RelationshipKeysOrder(c.relationships);
    BeingThere(c.assets, NOTHING);
    forall x: Asset
      ensures ValidAsset(k, p, x) <==> PlainAsset(k, p, x)
    {
      AssetIff(k, p, x);
    }
    forall x: Target
      ensures ValidTarget(k, p, x) <==> PlainTarget(k, p, x)
    {
      TargetIff(k, p, x);
    }
    forall x | x in c.observations
      ensures ValidObservation(k, p, x, AssetIDs(c.assets))
              <==> PlainObservation(k, p, x) && forall l | l in ObservationLinks(x) :: StandsAmong(c.assets, l)
    {
      ObservationIff(k, p, c.assets, x);
    }
    ListIff((x: Observation) => ValidObservation(k, p, x, AssetIDs(c.assets)), (x: Observation) => PlainObservation(k, p, x),
            ObservationLinks, l => StandsAmong(c.assets, l), c.observations);
    forall x | x in c.relationships
      ensures k.plain(OfRelationship, x.kind) && x.from in AssetIDs(c.assets) && x.to in AssetIDs(c.assets)
              <==> k.plain(OfRelationship, x.kind) && forall l | l in RelationshipLinks(x) :: StandsAmong(c.assets, l)
    {
      assert Related(x.from, x.kind, x.to) in RelationshipLinks(x);
    }
    ListIff((x: Relationship) => k.plain(OfRelationship, x.kind) && x.from in AssetIDs(c.assets) && x.to in AssetIDs(c.assets),
            (x: Relationship) => k.plain(OfRelationship, x.kind), RelationshipLinks, l => StandsAmong(c.assets, l),
            c.relationships);
  }

  /** The run in the spelling of its profile; only a failed record may lack a scan. */
  predicate GoodRun(k: Checks, r: Record) {
    && (r.run.scanID == [] ==> r.failed)
    && (r.profile == Internal ==> k.internalRun(r.run))
    && (r.profile == Redacted ==>
          && k.runToken(r.run.id) && k.runToken(r.run.deviceID) && r.run.shown == k.redactedLabel
          && (r.run.scanID != [] ==> k.runToken(r.run.scanID)))
  }

  predicate GoodCounts(r: Record) {
    var n := r.summary;
    && n.assets == |r.inventory.assets| && n.observations == |r.inventory.observations|
    && n.evidence == |r.inventory.evidence| && n.relationships == |r.inventory.relationships|
    && n.findings == |r.findings| && n.collectors == |r.coverage| && n.changes == |r.changes|
    && n.evidenceTargets == match r.evidenceCoverage case None => 0 case Some(ts) => |ts|
  }

  predicate Empty(r: Record) {
    && r.inventory == Inventory([], [], [], [], [], []) && r.findings == [] && r.coverage == [] && r.changes == []
    && r.evidenceCoverage.None?
  }

  /**
   * A record is valid exactly when its run is spelled for its profile, its summary counts its lists, and it is empty, if it
   * failed, or else everything in it is plain, in order, and refers to what is there.
   */
  lemma RecordIff(k: Checks, r: Record)
    ensures Valid(k, r) <==>
              && GoodRun(k, r) && GoodCounts(r)
              && (r.failed ==> Empty(r) && k.plain(OfFailure, r.rest))
              && (!r.failed ==>
                    && k.plain(OfRecord, r.rest) && PlainInventory(k, r.profile, r.inventory) && PlainTop(k, r.profile, r)
                    && (forall l | l in InventoryLinks(r.inventory) + TopLinks(r) :: Stands(r, l))
                    && InventoryInOrder(r.inventory) && TopInOrder(r)
                    && (forall c | c in r.coverage :: GoodCollector(k, r.profile, c))
                    && InOrderOf((c: Collector) => c.name, r.coverage))
  {
    hide ValidInventory, ValidTop, ValidCollector, GoodCollector, PlainInventory, PlainTop, InventoryInOrder, TopInOrder, Stands,
         InKeyOrder, InOrderOf, InventoryLinks, TopLinks;
    InventoryIff(k, r);
    TopIff(k, r);
    OneColumnOrders((c: Collector) => c.name, CollectorKey, r.coverage);
    forall c: Collector
      ensures ValidCollector(k, r.profile, c) <==> GoodCollector(k, r.profile, c)
    {
      CollectorIff(k, r.profile, c);
    }
  }

  /** The graph of a valid record is closed: whatever is referred to, anywhere in it, is there. */
  lemma ValidIsClosed(k: Checks, r: Record, l: Link)
    requires Valid(k, r) && l in Links(r)
    ensures Stands(r, l)
  {
    hide LinksOf, InOrderOf, NotAfter, InKeyOrder, PlainInventory, PlainTop, InventoryInOrder, TopInOrder, GoodRun, GoodCounts,
         Valid, InventoryLinks, StandsAmong, CoverageLinks;
    RecordIff(k, r);
    if r.failed {
      NoLinks(r, l);
    } else if l in LinksOf(CollectorLinks, r.coverage) {
      CollectorsAreClosed(k, r, l);
    }
  }

  lemma NoLinks(r: Record, l: Link)
    requires Empty(r)
    ensures l !in Links(r)
  {}

  lemma CollectorsAreClosed(k: Checks, r: Record, l: Link)
    requires l in LinksOf(CollectorLinks, r.coverage) && forall c | c in r.coverage :: GoodCollector(k, r.profile, c)
    ensures Stands(r, l)
  {
    hide StandsAmong, InOrderOf, RelationshipsInOrder, InKeyOrder;
    var c :| c in r.coverage && l in CollectorLinks(c);
    var m :| m in LinksOf(ObservationLinks, c.observations) + LinksOf(RelationshipLinks, c.relationships)
             && l == InCollector(c.name, m);
    assert StandsAmong(c.assets, l.link);
  }

  // ------------------------------------------------------------------- redaction

  /** Redaction rejects exactly the records that are not valid, and never returns one that is not. */
  lemma RedactsExactlyValid(k: Checks, s: Salt, r: Record)
    ensures Redact(k, s, r).Some? ==> Valid(k, r) && Valid(k, Redact(k, s, r).value) && Redact(k, s, r).value.profile == Redacted
    ensures TokensWork(k, s) ==> (Redact(k, s, r).Some? <==> Valid(k, r))
  {
    hide Valid;
    if TokensWork(k, s) && Valid(k, r) { RedactionSucceeds(k, s, r); }
  }

  /** The redacted run: its own identities under their run tokens, and nothing of it shown. */
  lemma RunIsRedacted(k: Checks, s: Salt, r: Record)
    requires Redact(k, s, r).Some?
    ensures var run := Redact(k, s, r).value.run;
            && run.id == s.runToken(r.run.id) && run.deviceID == s.runToken(r.run.deviceID) && run.shown == k.redactedLabel
            && run.scanID == if r.run.scanID == [] then [] else s.runToken(r.run.scanID)
  {
    hide Valid, NewInventory, NewFindings, NewCollectors, NewChanges, NewEvidenceTargets, SortBy;
  }

  /** A name whose token is not a safe identifier is hashed once more, so every new name is empty or safe. */
  lemma NewNamesAreSafe(k: Checks, s: Salt, id: bytes)
    requires forall t :: k.safe(s.hashed(t))
    ensures NewName(k, s, id) == [] || k.safe(NewName(k, s, id))
    ensures s.token(id) == [] || k.safe(s.token(id)) ==> NewName(k, s, id) == s.token(id)
  {}

  /** And an instance is empty, or passes one of its two patterns. */
  lemma NewInstancesAreExported(k: Checks, s: Salt, instance: bytes)
    requires forall t :: k.exported(s.hashed(t))
    ensures var t := NewInstance(k, s, instance); t == [] || k.instance(t) || k.exported(t)
    ensures var t := s.token(instance); t == [] || k.instance(t) || k.exported(t) ==> NewInstance(k, s, instance) == t
  {}
}
