// What redaction keeps: a record that is valid stays valid under its new names, and its graph is the same.
module RedactedGraph {
  import opened Framing
  import opened Ordering
  import opened Sorting
  import Delta = Inventory
  import opened Redaction

  // ------------------------------------------------------- what the new names keep

  function Image(s: Salt, ids: set<bytes>): set<bytes> { set id | id in ids :: s.token(id) }

  lemma NamesAreTokens(k: Checks, s: Salt, p: Profile)
    requires TokensWork(k, s)
    ensures forall id | ValidReference(k, p, id) :: ValidReference(k, Redacted, NewName(k, s, id))
    ensures forall id :: NewName(k, s, id) == s.token(id)
    ensures forall id :: s.token(id) == [] <==> id == []
  {
    forall id
      ensures NewName(k, s, id) == s.token(id)
    {
      if id != [] { assert k.safe(s.token(id)); }
    }
    forall id | s.token(id) == []
      ensures id == []
    {
      assert s.token(id) == s.token([]);
    }
  }

  /** One identity: its new name is its token, valid where it was, and in the image of a set that had it. */
  lemma NameAgain(k: Checks, s: Salt, p: Profile, id: bytes, ids: set<bytes>)
    requires TokensWork(k, s)
    ensures NewName(k, s, id) == [] <==> id == []
    ensures ValidReference(k, p, id) ==> ValidReference(k, Redacted, NewName(k, s, id))
    ensures id in ids ==> NewName(k, s, id) in Image(s, ids)
  {
    NamesAreTokens(k, s, p);
    hide NewName, ValidReference;
  }

  // What sorting makes of a renamed list: strict order, the same elements, each of them valid.
  ghost predicate SortsTo<T(!new)>(key: T -> seq<bytes>, valid: T -> bool, renamed: seq<T>, r: seq<T>) {
    && InKeyOrder(key, r) && |r| == |renamed| && multiset(r) == multiset(renamed) && Deduped(r, key) == r
    && forall x | x in r :: valid(x)
  }

  /** The first `named` columns become tokens, the others stay. */
  predicate ColumnsRenamed(s: Salt, named: nat, before: seq<bytes>, after: seq<bytes>) {
    && |after| == |before|
    && forall c | 0 <= c < |before| :: after[c] == if c < named then s.token(before[c]) else before[c]
  }

  lemma ColumnsApart(k: Checks, s: Salt, named: nat, a: seq<bytes>, b: seq<bytes>, renamed: seq<bytes>)
    requires TokensWork(k, s) && ColumnsRenamed(s, named, a, renamed) && ColumnsRenamed(s, named, b, renamed)
    ensures a == b
  {
    forall c | 0 <= c < |a|
      ensures a[c] == b[c]
    {
      if c < named { assert s.token(a[c]) == s.token(b[c]); }
    }
  }

  /**
   * Renaming by tokens keeps keys apart, so sorting again gives strict order and the same elements, and what is
   * valid element by element is valid in the new list.
   */
  lemma {:induction false} SortedAgain<T(!new)>(
    k: Checks, s: Salt, key: T -> seq<bytes>, width: nat, named: nat, valid: T -> bool, before: seq<T>, renamed: seq<T>)
    requires TokensWork(k, s) && InKeyOrder(key, before) && |renamed| == |before|
    requires forall i | 0 <= i < |before| :: |key(before[i])| == width
    requires forall i | 0 <= i < |before| :: ColumnsRenamed(s, named, key(before[i]), key(renamed[i])) && valid(renamed[i])
    ensures SortsTo(key, valid, renamed, SortBy(key, renamed))
  {
    hide TokensWork, SortBy, Deduped, ColumnsLess;
    forall i, j | 0 <= i < j < |before|
      ensures key(renamed[i]) != key(renamed[j]) && |key(renamed[i])| == |key(renamed[j])|
    {
      ColumnsIrreflexive(key(before[i]));
      assert ColumnsLess(key(before[i]), key(before[j]));
      if key(renamed[i]) == key(renamed[j]) {
        ColumnsApart(k, s, named, key(before[i]), key(before[j]), key(renamed[i]));
      }
    }
    SortByOrders(key, renamed);
    DedupedInOrder(SortBy(key, renamed), key);
    assert forall x | x in renamed :: valid(x);
  }

  ghost function Names<T(!new)>(id: T -> bytes, xs: seq<T>): set<bytes> { set x | x in xs :: id(x) }

  /** The identities of a renamed and sorted list are the tokens of the identities of the list. */
  lemma {:induction false} NamesAgain<T(!new)>(s: Salt, key: T -> seq<bytes>, id: T -> bytes, before: seq<T>, renamed: seq<T>)
    requires |renamed| == |before| && forall i | 0 <= i < |before| :: id(renamed[i]) == s.token(id(before[i]))
    ensures Names(id, SortBy(key, renamed)) == Image(s, Names(id, before))
  {
    SortByKeeps(key, renamed);
    SameElements(SortBy(key, renamed), renamed);
    hide SortBy;
    forall x | x in renamed
      ensures id(x) in Image(s, Names(id, before))
    {
      var i :| 0 <= i < |renamed| && renamed[i] == x;
      assert before[i] in before;
    }
    forall n | n in Image(s, Names(id, before))
      ensures n in Names(id, SortBy(key, renamed))
    {
      var x :| x in before && s.token(id(x)) == n;
      var i :| 0 <= i < |before| && before[i] == x;
      assert renamed[i] in renamed;
    }
  }

  lemma AssetsAgain(k: Checks, s: Salt, p: Profile, xs: seq<Asset>)
    requires TokensWork(k, s) && InKeyOrder(AssetKey, xs) && forall x | x in xs :: ValidAsset(k, p, x)
    ensures var renamed := NewAssets(k, s, xs);
            SortsTo(AssetKey, (x: Asset) => ValidAsset(k, Redacted, x), renamed, SortBy(AssetKey, renamed))
    ensures AssetIDs(SortBy(AssetKey, NewAssets(k, s, xs))) == Image(s, AssetIDs(xs))
  {
    hide SortBy, Deduped, InKeyOrder, NewName, ValidReference, Image, TokensWork, SortsTo;
    NamesAreTokens(k, s, p);
    var renamed := NewAssets(k, s, xs);
    forall i | 0 <= i < |xs|
      ensures ValidAsset(k, Redacted, renamed[i])
    {
      assert xs[i] in xs;
    }
    SortedAgain(k, s, AssetKey, 1, 1, (x: Asset) => ValidAsset(k, Redacted, x), xs, renamed);
    NamesAgain(s, AssetKey, (x: Asset) => x.id, xs, renamed);
    assert AssetIDs(xs) == Names((x: Asset) => x.id, xs);
    assert AssetIDs(SortBy(AssetKey, renamed)) == Names((x: Asset) => x.id, SortBy(AssetKey, renamed));
  }

  lemma ObservationsAgain(k: Checks, s: Salt, p: Profile, xs: seq<Observation>, assets: set<bytes>)
    requires TokensWork(k, s) && InKeyOrder(ObservationKey, xs) && forall x | x in xs :: ValidObservation(k, p, x, assets)
    ensures var renamed := NewObservations(k, s, xs);
            SortsTo(ObservationKey, (x: Observation) => ValidObservation(k, Redacted, x, Image(s, assets)),
                    renamed, SortBy(ObservationKey, renamed))
    ensures ObservationIDs(SortBy(ObservationKey, NewObservations(k, s, xs))) == Image(s, ObservationIDs(xs))
  {
    hide SortBy, Deduped, InKeyOrder, NewName, ValidReference, Image, TokensWork, SortsTo;
    NamesAreTokens(k, s, p);
    var renamed := NewObservations(k, s, xs);
    forall i | 0 <= i < |xs|
      ensures ValidObservation(k, Redacted, renamed[i], Image(s, assets))
    {
      assert xs[i] in xs;
      NameAgain(k, s, p, xs[i].assetID, assets);
      NameAgain(k, s, p, xs[i].projectID, assets);
    }
    SortedAgain(k, s, ObservationKey, 1, 1, (x: Observation) => ValidObservation(k, Redacted, x, Image(s, assets)), xs, renamed);
    NamesAgain(s, ObservationKey, (x: Observation) => x.id, xs, renamed);
    assert ObservationIDs(xs) == Names((x: Observation) => x.id, xs);
    assert ObservationIDs(SortBy(ObservationKey, renamed)) == Names((x: Observation) => x.id, SortBy(ObservationKey, renamed));
  }

  lemma EvidenceAgain(k: Checks, s: Salt, p: Profile, xs: seq<Evidence>, assets: set<bytes>, observations: set<bytes>)
    requires TokensWork(k, s) && InKeyOrder(EvidenceKey, xs) && forall x | x in xs :: ValidEvidence(k, p, x, assets, observations)
    ensures var renamed := NewEvidences(k, s, xs);
            SortsTo(EvidenceKey, (x: Evidence) => ValidEvidence(k, Redacted, x, Image(s, assets), Image(s, observations)),
                    renamed, SortBy(EvidenceKey, renamed))
    ensures EvidenceIDs(SortBy(EvidenceKey, NewEvidences(k, s, xs))) == Image(s, EvidenceIDs(xs))
  {
    hide SortBy, Deduped, InKeyOrder, NewName, ValidReference, Image, TokensWork, SortsTo;
    NamesAreTokens(k, s, p);
    var renamed := NewEvidences(k, s, xs);
    forall i | 0 <= i < |xs|
      ensures ValidEvidence(k, Redacted, renamed[i], Image(s, assets), Image(s, observations))
    {
      assert xs[i] in xs;
      NameAgain(k, s, p, xs[i].assetID, assets);
      NameAgain(k, s, p, xs[i].observationID, observations);
    }
    SortedAgain(k, s, EvidenceKey, 1, 1, (x: Evidence) => ValidEvidence(k, Redacted, x, Image(s, assets), Image(s, observations)),
                xs, renamed);
    NamesAgain(s, EvidenceKey, (x: Evidence) => x.id, xs, renamed);
    assert EvidenceIDs(xs) == Names((x: Evidence) => x.id, xs);
    assert EvidenceIDs(SortBy(EvidenceKey, renamed)) == Names((x: Evidence) => x.id, SortBy(EvidenceKey, renamed));
  }

  lemma RelationshipsAgain(k: Checks, s: Salt, p: Profile, xs: seq<Relationship>, assets: set<bytes>)
    requires TokensWork(k, s) && InKeyOrder(RelationshipKey, xs) && forall x | x in xs :: ValidRelationship(k, p, x, assets)
    ensures var renamed := NewRelationships(k, s, xs);
            SortsTo(RelationshipKey, (x: Relationship) => ValidRelationship(k, Redacted, x, Image(s, assets)),
                    renamed, SortBy(RelationshipKey, renamed))
  {
    hide SortBy, Deduped, InKeyOrder, NewName, ValidReference, Image, TokensWork, SortsTo;
    NamesAreTokens(k, s, p);
    var renamed := NewRelationships(k, s, xs);
    forall i | 0 <= i < |xs|
      ensures ValidRelationship(k, Redacted, renamed[i], Image(s, assets))
    {
      assert xs[i] in xs;
      NameAgain(k, s, p, xs[i].from, assets);
      NameAgain(k, s, p, xs[i].to, assets);
    }
    SortedAgain(k, s, RelationshipKey, 3, 2, (x: Relationship) => ValidRelationship(k, Redacted, x, Image(s, assets)),
                xs, renamed);
  }

  lemma ReferencesAgain(k: Checks, s: Salt, p: Profile, ids: seq<bytes>, all: set<bytes>)
    requires TokensWork(k, s) && InKeyOrder(StringKey, ids) && forall e | e in ids :: ValidReference(k, p, e) && e in all
    ensures var r := SortBy(StringKey, NewNames(k, s, ids));
            InKeyOrder(StringKey, r) && forall e | e in r :: ValidReference(k, Redacted, e) && e in Image(s, all)
  {
    var renamed := NewNames(k, s, ids);
    NamesAreTokens(k, s, p);
    hide NewName, ValidReference, Image, SortBy, InKeyOrder, Deduped, TokensWork;
    forall i | 0 <= i < |ids|
      ensures ValidReference(k, Redacted, renamed[i]) && renamed[i] in Image(s, all)
    {
      assert ids[i] in ids;
      NameAgain(k, s, p, ids[i], all);
    }
    SortedAgain(k, s, StringKey, 1, 1, e => ValidReference(k, Redacted, e) && e in Image(s, all), ids, renamed);
  }

  lemma FindingAgain(k: Checks, s: Salt, p: Profile, x: Finding, assets: set<bytes>, evidence: set<bytes>)
    requires TokensWork(k, s) && ValidFinding(k, p, x, assets, evidence)
    ensures ValidFinding(k, Redacted, NewFinding(k, s, x), Image(s, assets), Image(s, evidence))
  {
    hide NewName, ValidReference, Image, TokensWork, SortBy, InKeyOrder, Deduped;
    NameAgain(k, s, p, x.id, {});
    NameAgain(k, s, p, x.assetID, assets);
    ReferencesAgain(k, s, p, x.evidenceIDs, evidence);
  }

  lemma FindingsAgain(k: Checks, s: Salt, p: Profile, xs: seq<Finding>, assets: set<bytes>, evidence: set<bytes>)
    requires TokensWork(k, s) && InKeyOrder(FindingKey, xs) && forall x | x in xs :: ValidFinding(k, p, x, assets, evidence)
    ensures var renamed := NewFindings(k, s, xs);
            SortsTo(FindingKey, (x: Finding) => ValidFinding(k, Redacted, x, Image(s, assets), Image(s, evidence)),
                    renamed, SortBy(FindingKey, renamed))
  {
    hide SortBy, Deduped, InKeyOrder, NewName, ValidReference, Image, TokensWork, SortsTo;
    NamesAreTokens(k, s, p);
    var renamed := NewFindings(k, s, xs);
    hide ValidFinding;
    forall i | 0 <= i < |xs|
      ensures ValidFinding(k, Redacted, renamed[i], Image(s, assets), Image(s, evidence))
    {
      assert xs[i] in xs;
      FindingAgain(k, s, p, xs[i], assets, evidence);
    }
    SortedAgain(k, s, FindingKey, 1, 1, (x: Finding) => ValidFinding(k, Redacted, x, Image(s, assets), Image(s, evidence)),
                xs, renamed);
  }

  lemma FactsAgain(k: Checks, s: Salt, p: Profile, xs: seq<Fact>, assets: set<bytes>, evidence: set<bytes>)
    requires TokensWork(k, s) && InKeyOrder(FactKey, xs) && forall x | x in xs :: ValidFact(k, p, x, assets, evidence)
    ensures var renamed := NewFacts(k, s, xs);
            SortsTo(FactKey, (x: Fact) => ValidFact(k, Redacted, x, Image(s, assets), Image(s, evidence)),
                    renamed, SortBy(FactKey, renamed))
  {
    hide SortBy, Deduped, InKeyOrder, NewName, ValidReference, Image, TokensWork, SortsTo;
    NamesAreTokens(k, s, p);
    var renamed := NewFacts(k, s, xs);
    forall i | 0 <= i < |xs|
      ensures ValidFact(k, Redacted, renamed[i], Image(s, assets), Image(s, evidence))
    {
      assert xs[i] in xs;
      NameAgain(k, s, p, xs[i].assetID, assets);
      NameAgain(k, s, p, xs[i].evidenceID, evidence);
    }
    SortedAgain(k, s, FactKey, 1, 1, (x: Fact) => ValidFact(k, Redacted, x, Image(s, assets), Image(s, evidence)), xs, renamed);
  }

  lemma InstancesAreTokens(k: Checks, s: Salt)
    requires TokensWork(k, s)
    ensures forall t :: NewInstance(k, s, t) == s.token(t) && (t == [] || k.exported(s.token(t)))
    ensures s.token([]) == []
  {
    forall t
      ensures NewInstance(k, s, t) == s.token(t) && (t == [] || k.exported(s.token(t)))
    {
      if t != [] { assert k.exported(s.token(t)); }
    }
  }

  lemma TargetsAgain(k: Checks, s: Salt, p: Profile, xs: seq<Target>)
    requires TokensWork(k, s) && InKeyOrder(TargetKey, xs) && forall x | x in xs :: ValidTarget(k, p, x)
    ensures var renamed := NewTargets(k, s, xs);
            SortsTo(TargetKey, (x: Target) => ValidTarget(k, Redacted, x), renamed, SortBy(TargetKey, renamed))
  {
    hide SortBy, Deduped, InKeyOrder, NewName, ValidReference, Image, TokensWork, SortsTo;
    NamesAreTokens(k, s, p);
    InstancesAreTokens(k, s);
    hide NewInstance;
    var renamed := NewTargets(k, s, xs);
    forall i | 0 <= i < |xs|
      ensures ValidTarget(k, Redacted, renamed[i])
    {
      assert xs[i] in xs;
    }
    SortedAgain(k, s, TargetKey, 2, 2, (x: Target) => ValidTarget(k, Redacted, x), xs, renamed);
  }

  lemma EvidenceTargetAgain(k: Checks, s: Salt, p: Profile, x: EvidenceTarget, assets: set<bytes>,
                            observations: set<bytes>, evidence: set<bytes>)
    requires TokensWork(k, s) && ValidEvidenceTarget(k, p, x, assets, observations, evidence)
    ensures var y := NewEvidenceTarget(k, s, x);
            ValidEvidenceTarget(k, Redacted, y, Image(s, assets), Image(s, observations), Image(s, evidence))
  {
    hide NewName, ValidReference, Image, TokensWork;
    NameAgain(k, s, p, x.targetID, {});
    NameAgain(k, s, p, x.assetID, assets);
    NameAgain(k, s, p, x.observationID, observations);
    NameAgain(k, s, p, x.evidenceID, evidence);
  }

  lemma EvidenceTargetColumns(k: Checks, s: Salt, x: EvidenceTarget)
    requires TokensWork(k, s)
    ensures ColumnsRenamed(s, 4, EvidenceTargetKey(x), EvidenceTargetKey(NewEvidenceTarget(k, s, x)))
  {
    NamesAreTokens(k, s, Internal);
    hide NewName, TokensWork, ValidReference;
  }

  lemma EvidenceTargetsAgain(k: Checks, s: Salt, p: Profile, xs: seq<EvidenceTarget>, assets: set<bytes>,
                             observations: set<bytes>, evidence: set<bytes>)
    requires TokensWork(k, s) && InKeyOrder(EvidenceTargetKey, xs)
    requires forall x | x in xs :: ValidEvidenceTarget(k, p, x, assets, observations, evidence)
    ensures var renamed := NewEvidenceTargets(k, s, xs);
            SortsTo(EvidenceTargetKey,
                    (x: EvidenceTarget) =>
                      ValidEvidenceTarget(k, Redacted, x, Image(s, assets), Image(s, observations), Image(s, evidence)),
                    renamed, SortBy(EvidenceTargetKey, renamed))
  {
    hide SortBy, Deduped, InKeyOrder, NewName, ValidReference, Image, TokensWork, SortsTo;
    var renamed := NewEvidenceTargets(k, s, xs);
    hide ValidEvidenceTarget, ColumnsRenamed;
    forall i | 0 <= i < |xs|
      ensures ValidEvidenceTarget(k, Redacted, renamed[i], Image(s, assets), Image(s, observations), Image(s, evidence))
      ensures ColumnsRenamed(s, 4, EvidenceTargetKey(xs[i]), EvidenceTargetKey(renamed[i]))
    {
      assert xs[i] in xs;
      EvidenceTargetAgain(k, s, p, xs[i], assets, observations, evidence);
      EvidenceTargetColumns(k, s, xs[i]);
    }
    SortedAgain(k, s, EvidenceTargetKey, 4, 4,
                (x: EvidenceTarget) =>
                  ValidEvidenceTarget(k, Redacted, x, Image(s, assets), Image(s, observations), Image(s, evidence)),
                xs, renamed);
  }

  lemma {:induction false} InsertByKeyWeakly<T>(key: T -> seq<bytes>, x: T, s: seq<T>)
    requires NotAfter(key, s)
    ensures NotAfter(key, InsertByKey(key, x, s))
  {
    if s != [] {
      if ColumnsLess(key(x), key(s[0])) {
        forall j | 0 <= j < |s|
          ensures !ColumnsLess(key(s[j]), key(x))
        {
          if ColumnsLess(key(s[j]), key(x)) { ColumnsTransitive(key(s[j]), key(x), key(s[0])); }
          ColumnsIrreflexive(key(s[0]));
        }
      } else {
        var tail := InsertByKey(key, x, s[1..]);
        InsertByKeyWeakly(key, x, s[1..]);
        InsertByKeyAdds(key, x, s[1..]);
        forall j | 0 <= j < |tail|
          ensures !ColumnsLess(key(tail[j]), key(s[0]))
        {
          assert tail[j] in multiset(tail);
        }
      }
    }
  }

  lemma {:induction false} SortByWeakly<T>(key: T -> seq<bytes>, s: seq<T>)
    ensures NotAfter(key, SortBy(key, s)) && multiset(SortBy(key, s)) == multiset(s)
    ensures |SortBy(key, s)| == |s| && forall x :: x in SortBy(key, s) <==> x in s
  {
    hide NotAfter;
    SortByKeeps(key, s);
    if s == [] {
      NothingIsAfter(key);
    } else {
      SortByWeakly(key, s[1..]);
      InsertByKeyWeakly(key, s[0], SortBy(key, s[1..]));
    }
    SameElements(SortBy(key, s), s);
  }

  lemma NothingIsAfter<T>(key: T -> seq<bytes>)
    ensures NotAfter(key, [])
  {}

  lemma ChangeAgain(k: Checks, s: Salt, p: Profile, c: Delta.Change, assets: set<bytes>, observations: set<bytes>,
                    evidence: set<bytes>)
    requires TokensWork(k, s) && ValidChange(k, p, c, assets, observations, evidence)
    ensures ValidChange(k, Redacted, NewChange(k, s, c), Image(s, assets), Image(s, observations), Image(s, evidence))
  {
    hide NewName, ValidReference, Image, TokensWork;
    NameAgain(k, s, p, c.id, assets);
    NameAgain(k, s, p, c.id, observations);
    NameAgain(k, s, p, c.id, evidence);
  }

  lemma ChangesAgain(k: Checks, s: Salt, p: Profile, xs: seq<Delta.Change>, assets: set<bytes>, observations: set<bytes>,
                     evidence: set<bytes>)
    requires TokensWork(k, s) && forall x | x in xs :: ValidChange(k, p, x, assets, observations, evidence)
    ensures var r := SortBy(Delta.ChangeKey, NewChanges(k, s, xs));
            && NotAfter(Delta.ChangeKey, r) && |r| == |xs| && multiset(r) == multiset(NewChanges(k, s, xs))
            && forall x | x in r :: ValidChange(k, Redacted, x, Image(s, assets), Image(s, observations), Image(s, evidence))
  {
    hide SortBy, NotAfter, NewName, ValidReference, ValidChange, TokensWork;
    var renamed := NewChanges(k, s, xs);
    SortByWeakly(Delta.ChangeKey, renamed);
    forall x | x in SortBy(Delta.ChangeKey, renamed)
      ensures ValidChange(k, Redacted, x, Image(s, assets), Image(s, observations), Image(s, evidence))
    {
      var i :| 0 <= i < |xs| && renamed[i] == x;
      assert xs[i] in xs;
      ChangeAgain(k, s, p, xs[i], assets, observations, evidence);
    }
  }

  /** A collector's own graph, redacted: nothing in it is merged, and it is closed again. */
  lemma CollectorAgain(k: Checks, s: Salt, p: Profile, c: Collector)
    requires TokensWork(k, s) && ValidCollector(k, p, c)
    ensures ValidCollector(k, Redacted, NewCollector(k, s, c)) && CollectorIs(k, s, c, NewCollector(k, s, c))
  {
    hide SortBy, Deduped, InKeyOrder, NewName, TokensWork, ValidReference, ValidObservation, ValidTarget;
    var assets := AssetIDs(c.assets);
    forall r | r in c.relationships
      ensures ValidRelationship(k, p, r, assets)
    {
      var a :| a in c.assets && a.id == r.from;
      var b :| b in c.assets && b.id == r.to;
    }
    AssetsAgain(k, s, p, c.assets);
    RelationshipsAgain(k, s, p, c.relationships, assets);
    ObservationsAgain(k, s, p, c.observations, assets);
    TargetsAgain(k, s, p, c.targets);
  }

  /** c' is c renamed: the same lists, element by element and up to their order. */
  ghost predicate CollectorIs(k: Checks, s: Salt, c: Collector, c': Collector) {
    && c'.name == c.name && c'.rest == c.rest
    && multiset(c'.assets) == multiset(NewAssets(k, s, c.assets))
    && multiset(c'.relationships) == multiset(NewRelationships(k, s, c.relationships))
    && multiset(c'.observations) == multiset(NewObservations(k, s, c.observations))
    && multiset(c'.targets) == multiset(NewTargets(k, s, c.targets))
  }

  lemma CoverageAgain(k: Checks, s: Salt, p: Profile, xs: seq<Collector>)
    requires TokensWork(k, s) && InKeyOrder(CollectorKey, xs) && forall c | c in xs :: ValidCollector(k, p, c)
    ensures var r := SortBy(CollectorKey, NewCollectors(k, s, xs));
            InKeyOrder(CollectorKey, r) && multiset(r) == multiset(NewCollectors(k, s, xs)) && |r| == |xs|
            && forall c | c in r :: ValidCollector(k, Redacted, c)
  {
    hide SortBy, Deduped, InKeyOrder, TokensWork, ValidCollector;
    var renamed := NewCollectors(k, s, xs);
    forall i | 0 <= i < |xs|
      ensures ValidCollector(k, Redacted, renamed[i])
    {
      assert xs[i] in xs;
      CollectorAgain(k, s, p, xs[i]);
    }
    SortedAgain(k, s, CollectorKey, 1, 0, c => ValidCollector(k, Redacted, c), xs, renamed);
  }

  ghost predicate InventoryIs(k: Checks, s: Salt, inv: Inventory, inv': Inventory) {
    && multiset(inv'.assets) == multiset(NewAssets(k, s, inv.assets))
    && multiset(inv'.observations) == multiset(NewObservations(k, s, inv.observations))
    && multiset(inv'.evidence) == multiset(NewEvidences(k, s, inv.evidence))
    && multiset(inv'.relationships) == multiset(NewRelationships(k, s, inv.relationships))
    && multiset(inv'.findings) == multiset(NewFindings(k, s, inv.findings))
    && multiset(inv'.facts) == multiset(NewFacts(k, s, inv.facts))
  }

  ghost predicate SameSizes(a: Inventory, b: Inventory) {
    && |a.assets| == |b.assets| && |a.observations| == |b.observations| && |a.evidence| == |b.evidence|
    && |a.relationships| == |b.relationships|
  }

  lemma InventoryAgain(k: Checks, s: Salt, p: Profile, inv: Inventory)
    requires TokensWork(k, s) && ValidInventory(k, p, inv)
    ensures var inv' := NewInventory(k, s, inv);
            && ValidInventory(k, Redacted, inv') && InventoryIs(k, s, inv, inv') && SameSizes(inv, inv')
            && AssetIDs(inv'.assets) == Image(s, AssetIDs(inv.assets))
            && ObservationIDs(inv'.observations) == Image(s, ObservationIDs(inv.observations))
            && EvidenceIDs(inv'.evidence) == Image(s, EvidenceIDs(inv.evidence))
  {
    hide SortBy, Deduped, InKeyOrder, NewName, TokensWork, ValidReference, ValidAsset, ValidObservation, ValidEvidence,
         ValidRelationship, ValidFinding, ValidFact, AssetIDs, ObservationIDs, EvidenceIDs, Image;
    var assets, observations, evidence := AssetIDs(inv.assets), ObservationIDs(inv.observations), EvidenceIDs(inv.evidence);
    AssetsAgain(k, s, p, inv.assets);
    ObservationsAgain(k, s, p, inv.observations, assets);
    EvidenceAgain(k, s, p, inv.evidence, assets, observations);
    RelationshipsAgain(k, s, p, inv.relationships, assets);
    FindingsAgain(k, s, p, inv.findings, assets, evidence);
    FactsAgain(k, s, p, inv.facts, assets, evidence);
  }

  lemma TopAgain(k: Checks, s: Salt, r: Record)
    requires TokensWork(k, s) && ValidInventory(k, r.profile, r.inventory) && ValidTop(k, r.profile, r)
    ensures ValidTop(k, Redacted, NewRecord(k, s, r)) && TopIs(k, s, r, NewRecord(k, s, r))
  {
    hide SortBy, Deduped, InKeyOrder, NotAfter, NewName, TokensWork, ValidReference, ValidFinding, ValidEvidenceTarget,
         ValidChange, AssetIDs, ObservationIDs, EvidenceIDs, Image, ValidInventory, NewInventory, Summarize;
    var p, inv := r.profile, r.inventory;
    var assets, observations, evidence := AssetIDs(inv.assets), ObservationIDs(inv.observations), EvidenceIDs(inv.evidence);
    InventoryAgain(k, s, p, inv);
    FindingsAgain(k, s, p, r.findings, assets, evidence);
    ChangesAgain(k, s, p, r.changes, assets, observations, evidence);
    if r.evidenceCoverage.Some? {
      EvidenceTargetsAgain(k, s, p, r.evidenceCoverage.value, assets, observations, evidence);
    }
  }

  ghost predicate TopIs(k: Checks, s: Salt, r: Record, r': Record) {
    && multiset(r'.findings) == multiset(NewFindings(k, s, r.findings)) && |r'.findings| == |r.findings|
    && multiset(r'.changes) == multiset(NewChanges(k, s, r.changes)) && |r'.changes| == |r.changes|
    && (r'.evidenceCoverage.Some? <==> r.evidenceCoverage.Some?)
    && (r.evidenceCoverage.Some? ==>
          && multiset(r'.evidenceCoverage.value) == multiset(NewEvidenceTargets(k, s, r.evidenceCoverage.value))
          && |r'.evidenceCoverage.value| == |r.evidenceCoverage.value|)
  }

  // --------------------------------------------------------------- the same graph

  /** ys is xs, element by element under rel, in some order. */
  ghost predicate Corresponds<T(!new)>(rel: (T, T) -> bool, xs: seq<T>, ys: seq<T>) {
    exists zs: seq<T> :: Pairwise(rel, xs, zs) && multiset(zs) == multiset(ys)
  }

  ghost predicate Pairwise<T(!new)>(rel: (T, T) -> bool, xs: seq<T>, zs: seq<T>) {
    |zs| == |xs| && forall i | 0 <= i < |xs| :: rel(xs[i], zs[i])
  }

  // What redaction makes of one entity: tokens for identities, nothing shown, the rest as it was.
  predicate IsAsset(s: Salt, x: Asset, y: Asset) { y == Asset(s.token(x.id), [], x.rest) }

  predicate IsObservation(s: Salt, x: Observation, y: Observation) {
    y == Observation(s.token(x.id), s.token(x.assetID), s.token(x.projectID), [], x.rest)
  }

  predicate IsEvidence(s: Salt, x: Evidence, y: Evidence) {
    y == Evidence(s.token(x.id), s.token(x.assetID), s.token(x.observationID), [], x.rest)
  }

  predicate IsRelationship(s: Salt, x: Relationship, y: Relationship) {
    y == Relationship(s.token(x.from), s.token(x.to), x.kind)
  }

  predicate IsFinding(s: Salt, x: Finding, y: Finding) {
    && y.id == s.token(x.id) && y.assetID == s.token(x.assetID) && y.shown == [] && y.rest == x.rest
    && (set e | e in y.evidenceIDs) == Image(s, set e | e in x.evidenceIDs) && |y.evidenceIDs| == |x.evidenceIDs|
  }

  predicate IsFact(s: Salt, x: Fact, y: Fact) {
    y == Fact(s.token(x.id), s.token(x.assetID), s.token(x.evidenceID), x.rest)
  }

  predicate IsTarget(s: Salt, x: Target, y: Target) { y == Target(s.token(x.targetID), s.token(x.instance), x.rest) }

  predicate IsEvidenceTarget(s: Salt, x: EvidenceTarget, y: EvidenceTarget) {
    y == EvidenceTarget(s.token(x.targetID), s.token(x.assetID), s.token(x.observationID), s.token(x.evidenceID), x.rest)
  }

  predicate IsChange(s: Salt, x: Delta.Change, y: Delta.Change) { y == Delta.Change(x.kind, x.entity, s.token(x.id)) }

  ghost predicate IsCollector(s: Salt, x: Collector, y: Collector) {
    && y.name == x.name && y.rest == x.rest
    && Corresponds((a, b) => IsAsset(s, a, b), x.assets, y.assets)
    && Corresponds((a, b) => IsRelationship(s, a, b), x.relationships, y.relationships)
    && Corresponds((a, b) => IsObservation(s, a, b), x.observations, y.observations)
    && Corresponds((a, b) => IsTarget(s, a, b), x.targets, y.targets)
  }

  ghost predicate SameInventory(s: Salt, x: Inventory, y: Inventory) {
    && Corresponds((a, b) => IsAsset(s, a, b), x.assets, y.assets)
    && Corresponds((a, b) => IsObservation(s, a, b), x.observations, y.observations)
    && Corresponds((a, b) => IsEvidence(s, a, b), x.evidence, y.evidence)
    && Corresponds((a, b) => IsRelationship(s, a, b), x.relationships, y.relationships)
    && Corresponds((a, b) => IsFinding(s, a, b), x.findings, y.findings)
    && Corresponds((a, b) => IsFact(s, a, b), x.facts, y.facts)
  }

  /** Every list of y is the list of x, with each identity replaced by its token and nothing added, dropped or merged. */
  ghost predicate SameGraph(s: Salt, x: Record, y: Record) {
    && SameInventory(s, x.inventory, y.inventory)
    && Corresponds((a, b) => IsFinding(s, a, b), x.findings, y.findings)
    && Corresponds((a, b) => IsCollector(s, a, b), x.coverage, y.coverage)
    && Corresponds((a, b) => IsChange(s, a, b), x.changes, y.changes)
    && (x.evidenceCoverage.Some? <==> y.evidenceCoverage.Some?)
    && (x.evidenceCoverage.Some? ==>
          Corresponds((a, b) => IsEvidenceTarget(s, a, b), x.evidenceCoverage.value, y.evidenceCoverage.value))
  }

  lemma Witness<T(!new)>(rel: (T, T) -> bool, xs: seq<T>, zs: seq<T>, ys: seq<T>)
    requires Pairwise(rel, xs, zs) && multiset(zs) == multiset(ys)
    ensures Corresponds(rel, xs, ys)
  {}

  lemma NewNamesAre(k: Checks, s: Salt, ids: seq<bytes>)
    requires TokensWork(k, s)
    ensures var r := SortBy(StringKey, NewNames(k, s, ids));
            |r| == |ids| && (set e | e in r) == Image(s, set e | e in ids)
  {
    NamesAreTokens(k, s, Internal);
    var renamed := NewNames(k, s, ids);
    SortByKeeps(StringKey, renamed);
    hide NewName, TokensWork, SortBy;
    SameElements(SortBy(StringKey, renamed), renamed);
    forall e | e in Image(s, set d | d in ids)
      ensures e in renamed
    {
      var d :| d in ids && s.token(d) == e;
      var i :| 0 <= i < |ids| && ids[i] == d;
      assert renamed[i] in renamed;
    }
  }

  lemma NewFindingIs(k: Checks, s: Salt, x: Finding)
    requires TokensWork(k, s)
    ensures IsFinding(s, x, NewFinding(k, s, x))
  {
    NamesAreTokens(k, s, Internal);
    NewNamesAre(k, s, x.evidenceIDs);
    hide NewName, TokensWork, SortBy, Image, NewNames;
  }

  lemma InventoryIsSame(k: Checks, s: Salt, x: Inventory, y: Inventory)
    requires TokensWork(k, s) && InventoryIs(k, s, x, y)
    ensures SameInventory(s, x, y)
  {
    NamesAreTokens(k, s, Internal);
    forall f
      ensures IsFinding(s, f, NewFinding(k, s, f))
    {
      NewFindingIs(k, s, f);
    }
    hide NewName, NewFinding, IsFinding, TokensWork, Corresponds;
    Witness((a, b) => IsAsset(s, a, b), x.assets, NewAssets(k, s, x.assets), y.assets);
    Witness((a, b) => IsObservation(s, a, b), x.observations, NewObservations(k, s, x.observations), y.observations);
    Witness((a, b) => IsEvidence(s, a, b), x.evidence, NewEvidences(k, s, x.evidence), y.evidence);
    Witness((a, b) => IsRelationship(s, a, b), x.relationships, NewRelationships(k, s, x.relationships), y.relationships);
    Witness((a, b) => IsFinding(s, a, b), x.findings, NewFindings(k, s, x.findings), y.findings);
    Witness((a, b) => IsFact(s, a, b), x.facts, NewFacts(k, s, x.facts), y.facts);
  }

  lemma NewCollectorIs(k: Checks, s: Salt, p: Profile, c: Collector)
    requires TokensWork(k, s) && ValidCollector(k, p, c)
    ensures IsCollector(s, c, NewCollector(k, s, c))
  {
    CollectorAgain(k, s, p, c);
    NamesAreTokens(k, s, p);
    InstancesAreTokens(k, s);
    var c' := NewCollector(k, s, c);
    hide NewName, NewInstance, TokensWork, Corresponds, NewCollector, ValidCollector;
    Witness((a, b) => IsAsset(s, a, b), c.assets, NewAssets(k, s, c.assets), c'.assets);
    Witness((a, b) => IsRelationship(s, a, b), c.relationships, NewRelationships(k, s, c.relationships), c'.relationships);
    Witness((a, b) => IsObservation(s, a, b), c.observations, NewObservations(k, s, c.observations), c'.observations);
    Witness((a, b) => IsTarget(s, a, b), c.targets, NewTargets(k, s, c.targets), c'.targets);
  }

  lemma TopIsSame(k: Checks, s: Salt, r: Record, r': Record)
    requires TokensWork(k, s) && TopIs(k, s, r, r')
    ensures |r'.findings| == |r.findings| && |r'.changes| == |r.changes|
    ensures r'.evidenceCoverage.Some? <==> r.evidenceCoverage.Some?
    ensures r.evidenceCoverage.Some? ==> |r'.evidenceCoverage.value| == |r.evidenceCoverage.value|
    ensures Corresponds((a, b) => IsFinding(s, a, b), r.findings, r'.findings)
    ensures Corresponds((a, b) => IsChange(s, a, b), r.changes, r'.changes)
    ensures r.evidenceCoverage.Some? ==>
              Corresponds((a, b) => IsEvidenceTarget(s, a, b), r.evidenceCoverage.value, r'.evidenceCoverage.value)
  {
    NamesAreTokens(k, s, Internal);
    forall f
      ensures IsFinding(s, f, NewFinding(k, s, f))
    {
      NewFindingIs(k, s, f);
    }
    hide NewName, NewFinding, IsFinding, TokensWork, Corresponds;
    Witness((a, b) => IsFinding(s, a, b), r.findings, NewFindings(k, s, r.findings), r'.findings);
    Witness((a, b) => IsChange(s, a, b), r.changes, NewChanges(k, s, r.changes), r'.changes);
    if r.evidenceCoverage.Some? {
      var before, after := r.evidenceCoverage.value, r'.evidenceCoverage.value;
      Witness((a, b) => IsEvidenceTarget(s, a, b), before, NewEvidenceTargets(k, s, before), after);
    }
  }

  lemma CoverageIsSame(k: Checks, s: Salt, p: Profile, xs: seq<Collector>, ys: seq<Collector>)
    requires TokensWork(k, s) && multiset(ys) == multiset(NewCollectors(k, s, xs)) && forall c | c in xs :: ValidCollector(k, p, c)
    ensures Corresponds((a, b) => IsCollector(s, a, b), xs, ys)
  {
    forall i | 0 <= i < |xs|
      ensures IsCollector(s, xs[i], NewCollector(k, s, xs[i]))
    {
      assert xs[i] in xs;
      NewCollectorIs(k, s, p, xs[i]);
    }
    hide IsCollector, TokensWork, Corresponds, NewCollector, ValidCollector;
    Witness((a, b) => IsCollector(s, a, b), xs, NewCollectors(k, s, xs), ys);
  }

  // ------------------------------------------------------------------ main results

  /**
   * Redacting any valid record succeeds: the result passes Validate under the redacted profile, has the same graph
   * under an injective renaming, and the same counts.
   */
  lemma RedactionSucceeds(k: Checks, s: Salt, r: Record)
    requires TokensWork(k, s) && Valid(k, r)
    ensures Redact(k, s, r).Some?
    ensures var r' := Redact(k, s, r).value;
            && r'.profile == Redacted && r'.summary == r.summary && r'.rest == r.rest && SameGraph(s, r, r')
  {
    hide ValidInventory, ValidTop, ValidCollector, TokensWork, InKeyOrder, SortBy, InventoryIs, NewInventory, NewCollector, TopIs,
         SameInventory, Corresponds;
    RunAgain(k, s, r);
    var r' := NewRecord(k, s, r);
    if r.failed {
      NothingAgain(k, s, r);
    } else {
      InventoryAgain(k, s, r.profile, r.inventory);
      CoverageAgain(k, s, r.profile, r.coverage);
      TopAgain(k, s, r);
      InventoryIsSame(k, s, r.inventory, r'.inventory);
      CoverageIsSame(k, s, r.profile, r.coverage, r'.coverage);
      TopIsSame(k, s, r, r');
    }
  }

  lemma RunAgain(k: Checks, s: Salt, r: Record)
    requires TokensWork(k, s) && ValidRun(k, r.profile, r.failed, r.run)
    ensures ValidRun(k, Redacted, r.failed, NewRun(k, s, r.run))
  {}

  lemma NothingAgain(k: Checks, s: Salt, r: Record)
    requires r.inventory == NOTHING && r.findings == [] && r.coverage == [] && r.evidenceCoverage.None? && r.changes == []
    ensures var r' := NewRecord(k, s, r);
            && r'.inventory == NOTHING && r'.findings == [] && r'.coverage == [] && r'.changes == []
            && r'.evidenceCoverage.None?
            && Summarize(r') == Summarize(r) && SameGraph(s, r, r')
  {
    var r' := NewRecord(k, s, r);
    hide Corresponds;
    Witness((a, b) => IsAsset(s, a, b), [], [], []);
    Witness((a, b) => IsObservation(s, a, b), [], [], []);
    Witness((a, b) => IsEvidence(s, a, b), [], [], []);
    Witness((a, b) => IsRelationship(s, a, b), [], [], []);
    Witness((a, b) => IsFinding(s, a, b), [], [], []);
    Witness((a, b) => IsFact(s, a, b), [], [], []);
    Witness((a, b) => IsCollector(s, a, b), [], [], []);
    Witness((a, b) => IsChange(s, a, b), [], [], []);
  }

  // ---------------------------------------------------------------- what refers to what

  // One reference in a record: which identity it leads from, and to which.
  datatype Link =
    | ObservationOf(observation: bytes, asset: bytes, project: bytes)
    | EvidenceOf(evidence: bytes, asset: bytes, observation: bytes)
    | Related(from: bytes, kind: bytes, to: bytes)
    | FindingOn(finding: bytes, asset: bytes)
    | Cited(finding: bytes, evidence: bytes)
    | FactOn(fact: bytes, asset: bytes, evidence: bytes)
    | Covered(target: bytes, asset: bytes, observation: bytes, evidence: bytes)
    | ChangeTo(change: Delta.Kind, entity: Delta.Entity, id: bytes)
    | InCollector(name: bytes, link: Link)

  function Renamed(s: Salt, l: Link): Link {
    match l
    case ObservationOf(o, a, p) => ObservationOf(s.token(o), s.token(a), s.token(p))
    case EvidenceOf(e, a, o) => EvidenceOf(s.token(e), s.token(a), s.token(o))
    case Related(f, kind, t) => Related(s.token(f), kind, s.token(t))
    case FindingOn(f, a) => FindingOn(s.token(f), s.token(a))
    case Cited(f, e) => Cited(s.token(f), s.token(e))
    case FactOn(f, a, e) => FactOn(s.token(f), s.token(a), s.token(e))
    case Covered(t, a, o, e) => Covered(s.token(t), s.token(a), s.token(o), s.token(e))
    case ChangeTo(c, entity, id) => ChangeTo(c, entity, s.token(id))
    case InCollector(name, link) => InCollector(name, Renamed(s, link))
  }

  function AllRenamed(s: Salt, links: set<Link>): set<Link> { set l | l in links :: Renamed(s, l) }

  function ObservationLinks(x: Observation): set<Link> { {ObservationOf(x.id, x.assetID, x.projectID)} }

  function EvidenceLinks(x: Evidence): set<Link> { {EvidenceOf(x.id, x.assetID, x.observationID)} }

  function RelationshipLinks(x: Relationship): set<Link> { {Related(x.from, x.kind, x.to)} }

  function FindingLinks(x: Finding): set<Link> {
    {FindingOn(x.id, x.assetID)} + set e | e in x.evidenceIDs :: Cited(x.id, e)
  }

  function FactLinks(x: Fact): set<Link> { {FactOn(x.id, x.assetID, x.evidenceID)} }

  function EvidenceTargetLinks(x: EvidenceTarget): set<Link> {
    {Covered(x.targetID, x.assetID, x.observationID, x.evidenceID)}
  }

  function ChangeLinks(x: Delta.Change): set<Link> { {ChangeTo(x.kind, x.entity, x.id)} }

  function CollectorLinks(x: Collector): set<Link> {
    set l | l in LinksOf(ObservationLinks, x.observations) + LinksOf(RelationshipLinks, x.relationships) ::
      InCollector(x.name, l)
  }

  function LinksOf<T(==)>(links: T -> set<Link>, xs: seq<T>): set<Link> {
    set x, l | x in xs && l in links(x) :: l
  }

  function CoverageLinks(r: Record): set<Link> {
    match r.evidenceCoverage case None => {} case Some(ts) => LinksOf(EvidenceTargetLinks, ts)
  }

  function InventoryLinks(inv: Inventory): set<Link> {
    LinksOf(ObservationLinks, inv.observations) + LinksOf(EvidenceLinks, inv.evidence)
    + LinksOf(RelationshipLinks, inv.relationships) + LinksOf(FindingLinks, inv.findings) + LinksOf(FactLinks, inv.facts)
  }

  /** Every reference of a record, its inventory and its collectors included. */
  function Links(r: Record): set<Link> {
    InventoryLinks(r.inventory) + LinksOf(FindingLinks, r.findings) + LinksOf(ChangeLinks, r.changes)
    + CoverageLinks(r) + LinksOf(CollectorLinks, r.coverage)
  }

  lemma {:induction false} RenamedApart(k: Checks, s: Salt, l: Link, m: Link)
    requires TokensWork(k, s) && Renamed(s, l) == Renamed(s, m)
    ensures l == m
  {
    if l.InCollector? { RenamedApart(k, s, l.link, m.link); }
  }

  /** Lists that correspond have the same references, renamed. */
  lemma LinksFollow<T(!new)>(s: Salt, rel: (T, T) -> bool, links: T -> set<Link>, xs: seq<T>, ys: seq<T>)
    requires Corresponds(rel, xs, ys)
    requires forall x, y | rel(x, y) :: links(y) == AllRenamed(s, links(x))
    ensures LinksOf(links, ys) == AllRenamed(s, LinksOf(links, xs))
  {
    hide AllRenamed;
    var zs :| Pairwise(rel, xs, zs) && multiset(zs) == multiset(ys);
    SameElements(zs, ys);
    forall l | l in LinksOf(links, ys)
      ensures l in AllRenamed(s, LinksOf(links, xs))
    {
      var y :| y in ys && l in links(y);
      var i :| 0 <= i < |zs| && zs[i] == y;
      RenamedWithin(s, links(xs[i]), LinksOf(links, xs));
    }
    forall l | l in AllRenamed(s, LinksOf(links, xs))
      ensures l in LinksOf(links, ys)
    {
      var m := Origin(s, LinksOf(links, xs), l);
      var x :| x in xs && m in links(x);
      var i :| 0 <= i < |xs| && xs[i] == x;
      IsRenamed(s, links(x), m);
      assert zs[i] in zs;
    }
  }

  lemma RenamedWithin(s: Salt, part: set<Link>, all: set<Link>)
    requires part <= all
    ensures AllRenamed(s, part) <= AllRenamed(s, all)
  {}

  lemma {:induction false} IsRenamed(s: Salt, links: set<Link>, l: Link)
    requires l in links
    ensures Renamed(s, l) in AllRenamed(s, links)
  {}

  lemma Origin(s: Salt, links: set<Link>, l: Link) returns (m: Link)
    requires l in AllRenamed(s, links)
    ensures m in links && l == Renamed(s, m)
  {
    m :| m in links && l == Renamed(s, m);
  }

  lemma FindingLinksFollow(s: Salt, x: Finding, y: Finding)
    requires IsFinding(s, x, y)
    ensures FindingLinks(y) == AllRenamed(s, FindingLinks(x))
  {
    var before, after := set e | e in x.evidenceIDs, set e | e in y.evidenceIDs;
    assert forall e | e in before :: s.token(e) in after;
    forall l | l in FindingLinks(y)
      ensures l in AllRenamed(s, FindingLinks(x))
    {
      if l.Cited? {
        assert l.evidence in after;
        var e :| e in before && s.token(e) == l.evidence;
        IsRenamed(s, FindingLinks(x), Cited(x.id, e));
      } else {
        IsRenamed(s, FindingLinks(x), FindingOn(x.id, x.assetID));
      }
    }
  }

  lemma CollectorLinksFollow(s: Salt, x: Collector, y: Collector)
    requires IsCollector(s, x, y)
    ensures CollectorLinks(y) == AllRenamed(s, CollectorLinks(x))
  {
    hide Corresponds, LinksOf;
    LinksFollow(s, (a, b) => IsObservation(s, a, b), ObservationLinks, x.observations, y.observations);
    LinksFollow(s, (a, b) => IsRelationship(s, a, b), RelationshipLinks, x.relationships, y.relationships);
    var before := LinksOf(ObservationLinks, x.observations) + LinksOf(RelationshipLinks, x.relationships);
    var after := LinksOf(ObservationLinks, y.observations) + LinksOf(RelationshipLinks, y.relationships);
    assert after == AllRenamed(s, before);
    forall l | l in CollectorLinks(y)
      ensures l in AllRenamed(s, CollectorLinks(x))
    {
      var m := Origin(s, before, l.link);
      IsRenamed(s, CollectorLinks(x), InCollector(x.name, m));
    }
    forall l | l in AllRenamed(s, CollectorLinks(x))
      ensures l in CollectorLinks(y)
    {
      var m := Origin(s, CollectorLinks(x), l);
      IsRenamed(s, before, m.link);
    }
  }

  lemma RenamedTogether(s: Salt, a: set<Link>, b: set<Link>)
    ensures AllRenamed(s, a + b) == AllRenamed(s, a) + AllRenamed(s, b)
  {}

  lemma FindingsFollow(s: Salt, xs: seq<Finding>, ys: seq<Finding>)
    requires Corresponds((a, b) => IsFinding(s, a, b), xs, ys)
    ensures LinksOf(FindingLinks, ys) == AllRenamed(s, LinksOf(FindingLinks, xs))
  {
    hide Corresponds, LinksOf, IsFinding, FindingLinks, AllRenamed;
    forall a, b | IsFinding(s, a, b)
      ensures FindingLinks(b) == AllRenamed(s, FindingLinks(a))
    {
      FindingLinksFollow(s, a, b);
    }
    LinksFollow(s, (a, b) => IsFinding(s, a, b), FindingLinks, xs, ys);
  }

  lemma CollectorsFollow(s: Salt, xs: seq<Collector>, ys: seq<Collector>)
    requires Corresponds((a, b) => IsCollector(s, a, b), xs, ys)
    ensures LinksOf(CollectorLinks, ys) == AllRenamed(s, LinksOf(CollectorLinks, xs))
  {
    hide Corresponds, LinksOf, IsCollector, CollectorLinks, AllRenamed;
    forall a, b | IsCollector(s, a, b)
      ensures CollectorLinks(b) == AllRenamed(s, CollectorLinks(a))
    {
      CollectorLinksFollow(s, a, b);
    }
    LinksFollow(s, (a, b) => IsCollector(s, a, b), CollectorLinks, xs, ys);
  }

  lemma InventoryLinksFollow(s: Salt, x: Inventory, y: Inventory)
    requires SameInventory(s, x, y)
    ensures InventoryLinks(y) == AllRenamed(s, InventoryLinks(x))
  {
    hide Corresponds, LinksOf, FindingLinks;
    LinksFollow(s, (a, b) => IsObservation(s, a, b), ObservationLinks, x.observations, y.observations);
    LinksFollow(s, (a, b) => IsEvidence(s, a, b), EvidenceLinks, x.evidence, y.evidence);
    LinksFollow(s, (a, b) => IsRelationship(s, a, b), RelationshipLinks, x.relationships, y.relationships);
    FindingsFollow(s, x.findings, y.findings);
    LinksFollow(s, (a, b) => IsFact(s, a, b), FactLinks, x.facts, y.facts);
    hide AllRenamed;
    var os, es := LinksOf(ObservationLinks, x.observations), LinksOf(EvidenceLinks, x.evidence);
    var rs, fs, ts :=
      LinksOf(RelationshipLinks, x.relationships), LinksOf(FindingLinks, x.findings), LinksOf(FactLinks, x.facts);
    RenamedTogether(s, os, es);
    RenamedTogether(s, os + es, rs);
    RenamedTogether(s, os + es + rs, fs);
    RenamedTogether(s, os + es + rs + fs, ts);
  }

  lemma CoverageFollows(s: Salt, x: Record, y: Record)
    requires SameGraph(s, x, y)
    ensures CoverageLinks(y) == AllRenamed(s, CoverageLinks(x))
  {
    hide Corresponds, LinksOf, SameInventory;
    if x.evidenceCoverage.Some? {
      LinksFollow(s, (a, b) => IsEvidenceTarget(s, a, b), EvidenceTargetLinks,
                  x.evidenceCoverage.value, y.evidenceCoverage.value);
    }
  }

  lemma LinksAreRenamed(s: Salt, x: Record, y: Record)
    requires SameGraph(s, x, y)
    ensures Links(y) == AllRenamed(s, Links(x))
  {
    hide Corresponds, LinksOf, SameInventory, InventoryLinks, CoverageLinks;
    InventoryLinksFollow(s, x.inventory, y.inventory);
    FindingsFollow(s, x.findings, y.findings);
    LinksFollow(s, (a, b) => IsChange(s, a, b), ChangeLinks, x.changes, y.changes);
    CoverageFollows(s, x, y);
    CollectorsFollow(s, x.coverage, y.coverage);
    hide AllRenamed;
    var inv, fs := InventoryLinks(x.inventory), LinksOf(FindingLinks, x.findings);
    var cs, es := LinksOf(ChangeLinks, x.changes), CoverageLinks(x);
    RenamedTogether(s, inv, fs);
    RenamedTogether(s, inv + fs, cs);
    RenamedTogether(s, inv + fs + cs, es);
    RenamedTogether(s, inv + fs + cs + es, LinksOf(CollectorLinks, x.coverage));
  }

  /**
   * In the redacted record, one token refers to another exactly when the identity refers to the other in the original,
   * at every place of a record where identities are referred to; and there are no other references in it.
   */
  lemma {:induction false} ReferencesAreKept(k: Checks, s: Salt, r: Record)
    requires TokensWork(k, s) && Valid(k, r)
    ensures Redact(k, s, r).Some?
    ensures forall l :: Renamed(s, l) in Links(Redact(k, s, r).value) <==> l in Links(r)
    ensures forall l | l in Links(Redact(k, s, r).value) :: exists m <- Links(r) :: l == Renamed(s, m)
  {
    RedactionSucceeds(k, s, r);
    var r' := Redact(k, s, r).value;
    LinksAreRenamed(s, r, r');
    hide Links, SameGraph, Redact, Valid, TokensWork, Renamed;
    forall l
      ensures Renamed(s, l) in Links(r') <==> l in Links(r)
    {
      if Renamed(s, l) in Links(r') {
        var m := Origin(s, Links(r), Renamed(s, l));
        RenamedApart(k, s, m, l);
      }
    }
  }
}
