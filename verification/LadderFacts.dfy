// What the facts and columns of the ladder say, read off an inventory whose records have distinct IDs.
module LadderFacts {
  import opened Framing
  import opened Ordering
  import opened Sorting
  import opened Inventory
  import opened Ladder

  /** Every ID names one asset, one observation or one piece of evidence. */
  ghost predicate OneEach(inv: Inventory) {
    && (forall a, b | a in inv.assets && b in inv.assets && a.id == b.id :: a == b)
    && (forall o, p | o in inv.observations && p in inv.observations && o.id == p.id :: o == p)
    && (forall e, f | e in inv.evidence && f in inv.evidence && e.id == f.id :: e == f)
  }

  lemma {:induction false} LastAssetIs(assets: seq<Asset>, id: bytes)
    requires forall a, b | a in assets && b in assets && a.id == b.id :: a == b
    ensures forall a | a in assets && a.id == id :: LastAsset(assets, id) == Some(a)
    ensures (forall a | a in assets :: a.id != id) ==> LastAsset(assets, id) == None
  {
    if assets != [] {
      var n := |assets| - 1;
      LastAssetIs(assets[..n], id);
      assert assets == assets[..n] + [assets[n]];
      assert assets[n] in assets;
    }
  }

  lemma {:induction false} OwnerIs(observations: seq<Observation>, id: bytes)
    requires forall o, p | o in observations && p in observations && o.id == p.id :: o == p
    ensures forall o | o in observations && o.id == id :: OwnerOf(observations, id) == o.assetID
    ensures (forall o | o in observations :: o.id != id) ==> OwnerOf(observations, id) == []
  {
    if observations != [] {
      var n := |observations| - 1;
      OwnerIs(observations[..n], id);
      assert observations == observations[..n] + [observations[n]];
      assert observations[n] in observations;
    }
  }

  lemma {:induction false} LastEvidenceIs(evidence: seq<Evidence>, id: bytes)
    requires forall e, f | e in evidence && f in evidence && e.id == f.id :: e == f
    ensures forall e | e in evidence && e.id == id :: LastEvidence(evidence, id) == Some(e)
    ensures (forall e | e in evidence :: e.id != id) ==> LastEvidence(evidence, id) == None
  {
    if evidence != [] {
      var n := |evidence| - 1;
      LastEvidenceIs(evidence[..n], id);
      assert evidence == evidence[..n] + [evidence[n]];
      assert evidence[n] in evidence;
    }
  }

  /** A record that is there and is new or differs from before. */
  predicate Touched(cs: set<Change>, e: Entity, id: bytes) {
    Change(Added, e, id) in cs || Change(Changed, e, id) in cs
  }

  /** The asset that evidence is about: its own, or else that of its observation. */
  ghost predicate IsAbout(inv: Inventory, e: Evidence, a: bytes) {
    if e.assetID != [] then e.assetID == a else exists o <- inv.observations :: o.id == e.observationID && o.assetID == a
  }

  /** What evidence of a status says of its asset: gaps in it are not changes, and a deliberate non-claim is no gap. */
  predicate Tells(status: EvidenceStatus, rung: Rung) {
    rung == (if status == Complete || status == Unsupported then RungChanged else RungUnverified)
  }

  /** An observation, or a piece of evidence, that says so. */
  ghost predicate SomeRecordSays(inv: Inventory, cs: set<Change>, a: bytes, rung: Rung) {
    || (rung == RungChanged && exists o <- inv.observations :: o.assetID == a && Touched(cs, ObservationEntity, o.id))
    || exists e <- inv.evidence :: IsAbout(inv, e, a) && Touched(cs, EvidenceEntity, e.id) && Tells(e.status, rung)
  }

  lemma ChangeOfObservation(inv: Inventory, cs: set<Change>, o: Observation, c: Change)
    requires OneEach(inv) && o in inv.observations && c.entity == ObservationEntity && c.id == o.id
    ensures RecordAsset(inv, c) == o.assetID && RecordRung(inv, c) == RungChanged
  {
    OwnerIs(inv.observations, o.id);
  }

  lemma ChangeOfEvidence(inv: Inventory, cs: set<Change>, e: Evidence, c: Change)
    requires OneEach(inv) && e in inv.evidence && c.entity == EvidenceEntity && c.id == e.id
    ensures forall a | a != [] :: RecordAsset(inv, c) == a <==> IsAbout(inv, e, a)
    ensures Tells(e.status, RecordRung(inv, c))
  {
    LastEvidenceIs(inv.evidence, e.id);
    OwnerIs(inv.observations, e.observationID);
  }

  lemma RecordIsThere(canon: Canon, previous: Inventory, inv: Inventory, cs: set<Change>, c: Change)
    requires IsDiff(canon, previous, inv, cs) && c in cs && c.kind != Removed
    ensures c.entity == ObservationEntity ==> exists o <- inv.observations :: o.id == c.id
    ensures c.entity == EvidenceEntity ==> exists e <- inv.evidence :: e.id == c.id
  {
    hide IsDiff;
    DiffSays(canon, previous, inv, cs, c);
    var forms := Forms(canon, inv, c.entity, c.id);
    assert forms != {};
    var f :| f in forms;
  }

  /**
   * Records establish of an asset exactly what some observation or evidence of it says that is new or changed, except
   * that one of a new asset does not say that the asset changed.
   */
  lemma RecordFactsSay(canon: Canon, previous: Inventory, inv: Inventory, cs: set<Change>, a: bytes, rung: Rung)
    requires IsDiff(canon, previous, inv, cs) && OneEach(inv) && a != []
    ensures Fact(a, rung) in RecordFacts(inv, cs, cs)
            <==> SomeRecordSays(inv, cs, a, rung) && !(rung == RungChanged && Change(Added, AssetEntity, a) in cs)
  {
    hide IsDiff, RecordAsset, RecordRung, OneEach;
    if Fact(a, rung) in RecordFacts(inv, cs, cs) {
      var c :| c in cs && Speaks(inv, cs, c) && Fact(a, rung) == Fact(RecordAsset(inv, c), RecordRung(inv, c));
      RecordIsThere(canon, previous, inv, cs, c);
      if c.entity == ObservationEntity {
        var o :| o in inv.observations && o.id == c.id;
        ChangeOfObservation(inv, cs, o, c);
      } else {
        var e :| e in inv.evidence && e.id == c.id;
        ChangeOfEvidence(inv, cs, e, c);
      }
    }
    if rung == RungChanged && Change(Added, AssetEntity, a) !in cs {
      forall o | o in inv.observations && o.assetID == a && Touched(cs, ObservationEntity, o.id)
        ensures Fact(a, rung) in RecordFacts(inv, cs, cs)
      {
        var c := if Change(Added, ObservationEntity, o.id) in cs then Change(Added, ObservationEntity, o.id)
                 else Change(Changed, ObservationEntity, o.id);
        ChangeOfObservation(inv, cs, o, c);
        assert Speaks(inv, cs, c);
      }
    }
    if !(rung == RungChanged && Change(Added, AssetEntity, a) in cs) {
      forall e | e in inv.evidence && IsAbout(inv, e, a) && Touched(cs, EvidenceEntity, e.id) && Tells(e.status, rung)
        ensures Fact(a, rung) in RecordFacts(inv, cs, cs)
      {
        var c := if Change(Added, EvidenceEntity, e.id) in cs then Change(Added, EvidenceEntity, e.id)
                 else Change(Changed, EvidenceEntity, e.id);
        ChangeOfEvidence(inv, cs, e, c);
        assert Speaks(inv, cs, c);
      }
    }
  }

  /** What is established of an asset at each rung. */
  lemma FactsSay(canon: Canon, cat: Catalog, previous: Inventory, inv: Inventory, cs: set<Change>, a: bytes)
    requires IsDiff(canon, previous, inv, cs) && OneEach(inv) && a != []
    ensures var isNew := a in IDs(inv.assets) - IDs(previous.assets);
            && (Fact(a, RungNew) in Facts(cat, inv, cs) <==> isNew && Predecessor(cat, cs, a).None?)
            && (Fact(a, RungUpgraded) in Facts(cat, inv, cs) <==> isNew && Predecessor(cat, cs, a).Some?)
            && (Fact(a, RungUnverified) in Facts(cat, inv, cs) <==> SomeRecordSays(inv, cs, a, RungUnverified))
            && (Fact(a, RungChanged) in Facts(cat, inv, cs) <==>
                  Change(Changed, AssetEntity, a) in cs || (!isNew && SomeRecordSays(inv, cs, a, RungChanged)))
  {
    hide IsDiff, OneEach, SomeRecordSays, IdentityOf, Predecessor, Speaks, RecordAsset, RecordRung;
    DiffFacts(canon, previous, inv, cs);
    RecordFactsSay(canon, previous, inv, cs, a, RungChanged);
    RecordFactsSay(canon, previous, inv, cs, a, RungUnverified);
    if a in IDs(inv.assets) - IDs(previous.assets) {
      FactsOfAdded(cat, inv, cs, a);
      assert AssetChange(Change(Added, AssetEntity, a), Added);
    }
    AdditionFactsAre(cat, cs, a);
    ChangedFactsAre(cs, a);
    RecordRungs(inv, cs);
  }

  lemma AdditionFactsAre(cat: Catalog, cs: set<Change>, a: bytes)
    ensures forall f | f in AdditionFacts(cat, cs, {}) && f.asset == a ::
              Change(Added, AssetEntity, a) in cs && f == AdditionFact(cat, cs, a)
  {
    hide IdentityOf, Predecessor;
    forall f | f in AdditionFacts(cat, cs, {}) && f.asset == a
      ensures Change(Added, AssetEntity, a) in cs && f == AdditionFact(cat, cs, a)
    {
      var c :| c in cs && AssetChange(c, Added) && f == AdditionFact(cat, cs, c.id);
      assert c == Change(Added, AssetEntity, a);
    }
  }

  lemma ChangedFactsAre(cs: set<Change>, a: bytes)
    ensures Fact(a, RungChanged) in ChangedFacts(cs) <==> Change(Changed, AssetEntity, a) in cs
    ensures forall f | f in ChangedFacts(cs) :: f.rung == RungChanged
  {
    if Change(Changed, AssetEntity, a) in cs { assert AssetChange(Change(Changed, AssetEntity, a), Changed); }
    if Fact(a, RungChanged) in ChangedFacts(cs) {
      var c :| c in cs && AssetChange(c, Changed) && Fact(c.id, RungChanged) == Fact(a, RungChanged);
      assert c == Change(Changed, AssetEntity, a);
    }
  }

  lemma RecordRungs(inv: Inventory, cs: set<Change>)
    ensures forall f | f in RecordFacts(inv, cs, cs) :: f.rung in {RungChanged, RungUnverified}
  {
    hide Speaks, RecordAsset, RecordRung;
  }

  /**
   * The columns of a row: those of the asset's record when it is there, and otherwise what its ID spells, where a digest
   * is never shown.
   */
  lemma RowSays(cat: Catalog, inv: Inventory, cs: set<Change>, x: Row)
    requires OneEach(inv) && x in LadderRows(cat, inv, cs)
    ensures forall a | a in inv.assets && a.id == x.key :: x.kind == a.kind && x.name == a.name && x.host == a.source
    ensures x.key !in IDs(inv.assets) ==>
              forall kind, host: Option<bytes>, name, version |
                kind in cat.versioned && Spellable(kind, host, name, version) && x.key == Spelled(kind, host, name, version) ::
                && x.kind == (if kind in cat.typeOf then cat.typeOf[kind] else kind)
                && x.name == (if cat.isDigest(name) then cat.unnamed else name)
                && x.host == (if cat.isDigest(name) then [] else host.GetOr([]))
                && (x.rung == RungRemoved ==> x.from == version)
    ensures x.rung in {RungNew, RungChanged, RungUnverified} ==> x.from == []
    ensures x.rung in {RungNew, RungChanged, RungUnverified, RungRemoved} ==> x.to == []
  {
    hide ParseAssetID, Spelled, Spellable, Facts, Predecessor, Absorbed;
    LastAssetIs(inv.assets, x.key);
    PlainColumns(cat, inv, cs, x);
    forall kind, host: Option<bytes>, name, version |
      kind in cat.versioned && Spellable(kind, host, name, version) && x.key == Spelled(kind, host, name, version)
      ensures ParseAssetID(cat, x.key) == Parsed(kind, host.GetOr([]), name, version)
    {
      ParseIsInverse(cat, kind, host, name, version);
    }
    if x.key !in IDs(inv.assets) {
      assert forall a | a in inv.assets :: a.id != x.key;
    }
  }

  lemma PlainColumns(cat: Catalog, inv: Inventory, cs: set<Change>, x: Row)
    requires x in LadderRows(cat, inv, cs)
    ensures var p := Plain(cat, inv, x.key, x.rung);
            && x.kind == p.kind && x.name == p.name && x.host == p.host
            && (x.rung == RungRemoved && x.key !in IDs(inv.assets) ==> x.from == VersionOf(cat, x.key))
            && (x.rung in {RungNew, RungChanged, RungUnverified} ==> x.from == [])
            && (x.rung in {RungNew, RungChanged, RungUnverified, RungRemoved} ==> x.to == [])
  {
    hide ParseAssetID, Predecessor, Absorbed;
    var facts := Facts(cat, inv, cs);
    if x in FactRows(cat, inv, cs, facts) {
      var f :| f in facts && Highest(facts, f) && x == RowFor(cat, inv, cs, f);
      NoFactIsRemoved(cat, inv, cs, f);
    } else {
      var c :| c in cs && AssetChange(c, Removed) && x == RemovedRow(cat, inv, c.id);
    }
  }

  lemma NoFactIsRemoved(cat: Catalog, inv: Inventory, cs: set<Change>, f: Fact)
    requires f in Facts(cat, inv, cs)
    ensures f.rung != RungRemoved
  {
    RungOfFact(cat, inv, cs, f);
  }
}
