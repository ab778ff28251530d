// classify as it runs: maps filled and thinned in the order the changes and the
// map entries come, and the rows sorted at the end.
module LadderBuilder {
  import opened Framing
  import opened Ordering
  import opened Sorting
  import opened Inventory
  import opened Ladder

  ghost predicate NoRepeats(delta: seq<Change>) {
    forall i, j | 0 <= i < j < |delta| :: delta[i] != delta[j]
  }

  /** best holds, for each asset spoken of, the row of the highest fact noted so far. */
  ghost predicate BestOf(cat: Catalog, inv: Inventory, cs: set<Change>, best: map<bytes, Row>, noted: set<Fact>) {
    && (forall f | f in noted :: f.asset in best)
    && (forall k | k in best :: Highest(noted, Fact(k, best[k].rung)) && best[k] == RowFor(cat, inv, cs, Fact(k, best[k].rung)))
  }

  method Note(cat: Catalog, inv: Inventory, ghost cs: set<Change>, best: map<bytes, Row>, ghost noted: set<Fact>, row: Row)
    returns (best': map<bytes, Row>)
    requires BestOf(cat, inv, cs, best, noted) && row == RowFor(cat, inv, cs, Fact(row.key, row.rung))
    ensures BestOf(cat, inv, cs, best', noted + {Fact(row.key, row.rung)})
  {
    hide Plain, ParseAssetID;
    best' := best;
    if row.key !in best || row.rung.Rank() < best[row.key].rung.Rank() {
      best' := best[row.key := row];
    }
    ghost var noted' := noted + {Fact(row.key, row.rung)};
    forall k | k in best'
      ensures Highest(noted', Fact(k, best'[k].rung))
    {
      if k in best { assert Highest(noted, Fact(k, best[k].rung)); }
    }
  }

  /** The IDs listed under each identity, in the order they came. */
  ghost predicate GroupedAs(cat: Catalog, cs: set<Change>, kind: Kind, groups: map<Identity, seq<bytes>>) {
    && (forall who | who in groups :: groups[who] != [] && multiset(groups[who]) == multiset(Grouped(cat, cs, kind, who)))
    && (forall c <- cs | AssetChange(c, kind) :: IdentityOf(cat, c.id) in groups)
  }

  method Append(cat: Catalog, ghost cs: set<Change>, groups: map<Identity, seq<bytes>>, c: Change)
    returns (groups': map<Identity, seq<bytes>>)
    requires GroupedAs(cat, cs, c.kind, groups) && c !in cs && c.entity == AssetEntity
    ensures GroupedAs(cat, cs + {c}, c.kind, groups')
  {
    hide ParseAssetID;
    var who := IdentityOf(cat, c.id);
    groups' := groups[who := (if who in groups then groups[who] else []) + [c.id]];
    GroupOf(cat, cs, c.kind, groups, who);
    GroupGrows(cat, cs, c);
    hide Grouped;
    forall w | w in groups'
      ensures groups'[w] != [] && multiset(groups'[w]) == multiset(Grouped(cat, cs + {c}, c.kind, w))
    {
    }
  }

  lemma GroupGrows(cat: Catalog, cs: set<Change>, c: Change)
    requires c !in cs && c.entity == AssetEntity
    ensures forall w | w != IdentityOf(cat, c.id) :: Grouped(cat, cs + {c}, c.kind, w) == Grouped(cat, cs, c.kind, w)
    ensures var w := IdentityOf(cat, c.id);
            && multiset(Grouped(cat, cs + {c}, c.kind, w)) == multiset(Grouped(cat, cs, c.kind, w)) + multiset{c.id}
  {
    hide ParseAssetID;
    var who := IdentityOf(cat, c.id);
    assert Grouped(cat, cs + {c}, c.kind, who) == Grouped(cat, cs, c.kind, who) + {c.id};
    assert forall d <- cs | AssetChange(d, c.kind) :: d.id != c.id;
    assert c.id !in Grouped(cat, cs, c.kind, who);
  }

  lemma OtherKindKeepsGroups(cat: Catalog, cs: set<Change>, c: Change, kind: Kind, groups: map<Identity, seq<bytes>>)
    requires GroupedAs(cat, cs, kind, groups) && !AssetChange(c, kind)
    ensures GroupedAs(cat, cs + {c}, kind, groups)
  {
    hide ParseAssetID;
    forall who
      ensures Grouped(cat, cs + {c}, kind, who) == Grouped(cat, cs, kind, who)
    {
    }
  }

  lemma NextElement(delta: seq<Change>, i: nat)
    requires i < |delta| && NoRepeats(delta)
    ensures Elements(delta[..i + 1]) == Elements(delta[..i]) + {delta[i]} && delta[i] !in Elements(delta[..i])
  {
    assert delta[..i + 1] == delta[..i] + [delta[i]];
  }

  /** First pass: additions and removals by identity, and a row for every changed asset. */
  method CollectAssets(cat: Catalog, inv: Inventory, delta: seq<Change>)
    returns (added: map<Identity, seq<bytes>>, removed: map<Identity, seq<bytes>>, addedAssets: set<bytes>,
             best: map<bytes, Row>)
    requires NoRepeats(delta)
    ensures GroupedAs(cat, Elements(delta), Added, added) && GroupedAs(cat, Elements(delta), Removed, removed)
    ensures forall id :: id in addedAssets <==> Change(Added, AssetEntity, id) in delta
    ensures BestOf(cat, inv, Elements(delta), best, ChangedFacts(Elements(delta)))
  {
    hide Plain, ParseAssetID;
    added, removed, addedAssets, best := map[], map[], {}, map[];
    ghost var cs := Elements(delta);
    for i := 0 to |delta|
      invariant GroupedAs(cat, Elements(delta[..i]), Added, added) && GroupedAs(cat, Elements(delta[..i]), Removed, removed)
      invariant forall id :: id in addedAssets <==> Change(Added, AssetEntity, id) in delta[..i]
      invariant BestOf(cat, inv, cs, best, ChangedFacts(Elements(delta[..i])))
    {
      var c := delta[i];
      ghost var part := Elements(delta[..i]);
      NextElement(delta, i);
      if c.entity == AssetEntity && c.kind == Added {
        added := Append(cat, part, added, c);
        addedAssets := addedAssets + {c.id};
      } else {
        OtherKindKeepsGroups(cat, part, c, Added, added);
      }
      if c.entity == AssetEntity && c.kind == Removed {
        removed := Append(cat, part, removed, c);
      } else {
        OtherKindKeepsGroups(cat, part, c, Removed, removed);
      }
      ghost var before := ChangedFacts(part);
      if c.entity == AssetEntity && c.kind == Changed {
        best := Note(cat, inv, cs, best, before, Plain(cat, inv, c.id, RungChanged));
        assert ChangedFacts(part + {c}) == before + {Fact(c.id, RungChanged)};
      } else {
        assert ChangedFacts(part + {c}) == before;
      }
    }
    assert delta[..|delta|] == delta;
  }

  /** Second pass: the records, once it is known which assets are new. */
  method NoteRecords(cat: Catalog, inv: Inventory, delta: seq<Change>, addedAssets: set<bytes>, best0: map<bytes, Row>)
    returns (best: map<bytes, Row>)
    requires NoRepeats(delta)
    requires forall id :: id in addedAssets <==> Change(Added, AssetEntity, id) in delta
    requires BestOf(cat, inv, Elements(delta), best0, ChangedFacts(Elements(delta)))
    ensures BestOf(cat, inv, Elements(delta), best,
                   ChangedFacts(Elements(delta)) + RecordFacts(inv, Elements(delta), Elements(delta)))
  {
    hide Plain, ParseAssetID, RecordAsset, RecordRung, BestOf, ChangedFacts;
    best := best0;
    ghost var cs := Elements(delta);
    assert ChangedFacts(cs) + RecordFacts(inv, cs, Elements(delta[..0])) == ChangedFacts(cs);
    for i := 0 to |delta|
      invariant BestOf(cat, inv, cs, best, ChangedFacts(cs) + RecordFacts(inv, cs, Elements(delta[..i])))
    {
      var c := delta[i];
      ghost var part := Elements(delta[..i]);
      ghost var noted := ChangedFacts(cs) + RecordFacts(inv, cs, part);
      NextElement(delta, i);
      var assetID, level := RecordAsset(inv, c), RecordRung(inv, c);
      NextRecord(inv, cs, part, c);
      assert assetID in addedAssets <==> Change(Added, AssetEntity, assetID) in cs;
      if IsRecord(c) && assetID != [] && !(assetID in addedAssets && level == RungChanged) {
        assert noted + {Fact(assetID, level)} == ChangedFacts(cs) + RecordFacts(inv, cs, part + {c});
        best := Note(cat, inv, cs, best, noted, Plain(cat, inv, assetID, level));
      }
    }
    assert delta[..|delta|] == delta;
  }

  lemma NextRecord(inv: Inventory, cs: set<Change>, part: set<Change>, c: Change)
    ensures Speaks(inv, cs, c) ==>
              RecordFacts(inv, cs, part + {c}) == RecordFacts(inv, cs, part) + {Fact(RecordAsset(inv, c), RecordRung(inv, c))}
    ensures !Speaks(inv, cs, c) ==> RecordFacts(inv, cs, part + {c}) == RecordFacts(inv, cs, part)
  {
    hide Speaks, RecordAsset, RecordRung;
  }

  lemma SingletonGroup(ids: seq<bytes>, group: set<bytes>)
    requires multiset(ids) == multiset(group)
    ensures |ids| == 1 ==> group == {ids[0]}
    ensures |group| == 1 ==> |ids| == 1
  {
    assert |ids| == |multiset(ids)| == |group|;
    if |ids| == 1 {
      assert ids == [ids[0]];
      assert forall x :: x in group <==> x in multiset(ids);
    }
  }

  /** The test the third pass makes is whether the addition has a predecessor, and it finds that one. */
  lemma PairingIsReplacing(cat: Catalog, cs: set<Change>, who: Identity, additions: seq<bytes>, removals: seq<bytes>)
    requires additions != [] && multiset(additions) == multiset(Grouped(cat, cs, Added, who))
    requires multiset(removals) == multiset(Grouped(cat, cs, Removed, who))
    ensures Paired(cat, additions, removals) ==> Predecessor(cat, cs, additions[0]) == Some(removals[0])
    ensures !Paired(cat, additions, removals) ==> forall a | a in additions :: Predecessor(cat, cs, a).None?
  {
    hide ParseAssetID;
    SingletonGroup(additions, Grouped(cat, cs, Added, who));
    SingletonGroup(removals, Grouped(cat, cs, Removed, who));
    assert forall a | a in additions :: a in multiset(additions);
    if Paired(cat, additions, removals) {
      assert Replaces(cat, cs, additions[0], removals[0]);
      assert Predecessor(cat, cs, additions[0]).value in {removals[0]};
    } else {
      forall a | a in additions
        ensures Predecessor(cat, cs, a).None?
      {
        if Predecessor(cat, cs, a).Some? {
          ReplacingIsPairing(cat, cs, who, additions, removals, a, Predecessor(cat, cs, a).value);
        }
      }
    }
  }

  lemma ReplacingIsPairing(cat: Catalog, cs: set<Change>, who: Identity, additions: seq<bytes>, removals: seq<bytes>,
                           a: bytes, r: bytes)
    requires multiset(additions) == multiset(Grouped(cat, cs, Added, who)) && a in additions
    requires multiset(removals) == multiset(Grouped(cat, cs, Removed, who)) && Replaces(cat, cs, a, r)
    ensures Paired(cat, additions, removals)
  {
    hide ParseAssetID;
    assert a in multiset(additions) && IdentityOf(cat, a) == who;
    SingletonGroup(additions, Grouped(cat, cs, Added, who));
    SingletonGroup(removals, Grouped(cat, cs, Removed, who));
    assert |Grouped(cat, cs, Added, who)| == 1 && |Grouped(cat, cs, Removed, who)| == 1;
    assert additions[0] in {a} && removals[0] in {r};
  }

  /** Third pass, over identities in map order: pairs absorb their removal, other additions are new. */
  method NoteAdditions(cat: Catalog, inv: Inventory, ghost cs: set<Change>, added: map<Identity, seq<bytes>>,
                       removed0: map<Identity, seq<bytes>>, best0: map<bytes, Row>, ghost noted0: set<Fact>)
    returns (best: map<bytes, Row>, removed: map<Identity, seq<bytes>>)
    requires GroupedAs(cat, cs, Added, added) && GroupedAs(cat, cs, Removed, removed0)
    requires BestOf(cat, inv, cs, best0, noted0)
    ensures BestOf(cat, inv, cs, best, noted0 + AdditionFacts(cat, cs, {}))
    ensures forall who | who in removed0 :: who in removed <==> forall r | r in removed0[who] :: !Absorbed(cat, cs, r)
    ensures forall who | who in removed :: who in removed0 && removed[who] == removed0[who]
  {
    hide Plain, ParseAssetID;
    best, removed := best0, removed0;
    var left := added.Keys;
    assert noted0 + AdditionFacts(cat, cs, left) == noted0 by {
      assert AdditionFacts(cat, cs, left) == {};
    }
    while left != {}
      invariant left <= added.Keys
      invariant BestOf(cat, inv, cs, best, noted0 + AdditionFacts(cat, cs, left))
      invariant forall who | who in removed0 ::
                  who !in removed <==> who in added && who !in left && Paired(cat, added[who], removed0[who])
      invariant forall who | who in removed :: who in removed0 && removed[who] == removed0[who]
      decreases |left|
    {
      var who :| who in left;
      best, removed := NoteIdentity(cat, inv, cs, added[who], who, left, removed0, removed, best, noted0);
      left := left - {who};
    }
    forall who | who in removed0
      ensures who in removed <==> forall r | r in removed0[who] :: !Absorbed(cat, cs, r)
    {
      AbsorbedIsPaired(cat, cs, added, removed0, who);
    }
  }

  predicate Paired(cat: Catalog, additions: seq<bytes>, removals: seq<bytes>) {
    |additions| == 1 && |removals| == 1 && VersionOf(cat, additions[0]) != [] && VersionOf(cat, removals[0]) != []
  }

  lemma AbsorbedIsPaired(cat: Catalog, cs: set<Change>, added: map<Identity, seq<bytes>>,
                         removed: map<Identity, seq<bytes>>, who: Identity)
    requires GroupedAs(cat, cs, Added, added) && GroupedAs(cat, cs, Removed, removed) && who in removed
    ensures (forall r | r in removed[who] :: !Absorbed(cat, cs, r)) <==> !(who in added && Paired(cat, added[who], removed[who]))
  {
    hide ParseAssetID;
    assert forall r | r in removed[who] :: r in multiset(removed[who]);
    if who in added {
      PairingIsReplacing(cat, cs, who, added[who], removed[who]);
      if Paired(cat, added[who], removed[who]) {
        var a, r := added[who][0], removed[who][0];
        assert a in multiset(added[who]);
        var c :| c in cs && AssetChange(c, Added) && c.id == a;
        assert Replaces(cat, cs, c.id, r);
        assert Absorbed(cat, cs, r) && r in removed[who];
      }
    }
    forall r | r in removed[who] && Absorbed(cat, cs, r)
      ensures who in added && Paired(cat, added[who], removed[who])
    {
      var c :| c in cs && Replaces(cat, cs, c.id, r);
      assert r in Grouped(cat, cs, Removed, IdentityOf(cat, c.id));
      assert r in Grouped(cat, cs, Removed, who) && IdentityOf(cat, r) == who;
      assert c.id in Grouped(cat, cs, Added, who);
      assert c.id in multiset(added[who]);
    }
  }

  lemma GroupOf(cat: Catalog, cs: set<Change>, kind: Kind, groups: map<Identity, seq<bytes>>, who: Identity)
    requires GroupedAs(cat, cs, kind, groups)
    ensures multiset(if who in groups then groups[who] else []) == multiset(Grouped(cat, cs, kind, who))
  {
    hide ParseAssetID;
    if who !in groups { assert Grouped(cat, cs, kind, who) == {}; }
  }

  method NoteIdentity(cat: Catalog, inv: Inventory, ghost cs: set<Change>, additions: seq<bytes>, who: Identity,
                      ghost left: set<Identity>, removed0: map<Identity, seq<bytes>>, removed: map<Identity, seq<bytes>>,
                      best0: map<bytes, Row>, ghost noted0: set<Fact>)
    returns (best: map<bytes, Row>, removed': map<Identity, seq<bytes>>)
    requires additions != [] && multiset(additions) == multiset(Grouped(cat, cs, Added, who)) && who in left
    requires GroupedAs(cat, cs, Removed, removed0)
    requires who in removed0 <==> who in removed
    requires who in removed ==> removed[who] == removed0[who]
    requires BestOf(cat, inv, cs, best0, noted0 + AdditionFacts(cat, cs, left))
    ensures BestOf(cat, inv, cs, best, noted0 + AdditionFacts(cat, cs, left - {who}))
    ensures removed' == if who in removed0 && Paired(cat, additions, removed0[who]) then removed - {who} else removed
  {
    hide Plain, ParseAssetID, GroupedAs, Grouped, BestOf, AdditionFacts, Predecessor, FactsOf, VersionOf;
    best, removed' := best0, removed;
    var removals := if who in removed then removed[who] else [];
    GroupOf(cat, cs, Removed, removed0, who);
    PairingIsReplacing(cat, cs, who, additions, removals);
    ghost var noted := noted0 + AdditionFacts(cat, cs, left);
    NotedOfIdentity(cat, cs, left, who, additions, noted0);
    if Paired(cat, additions, removals) {
      var a := additions[0];
      var row := Plain(cat, inv, a, RungUpgraded).(from := VersionOf(cat, removals[0]), to := VersionOf(cat, a));
      best := Note(cat, inv, cs, best, noted, row);
      removed' := removed - {who};
    } else {
      best := NoteNew(cat, inv, cs, additions, best, noted);
    }
  }

  method NoteNew(cat: Catalog, inv: Inventory, ghost cs: set<Change>, additions: seq<bytes>, best0: map<bytes, Row>,
                 ghost noted: set<Fact>) returns (best: map<bytes, Row>)
    requires BestOf(cat, inv, cs, best0, noted) && forall a | a in additions :: Predecessor(cat, cs, a).None?
    ensures BestOf(cat, inv, cs, best, noted + FactsOf(cat, cs, additions, |additions|))
  {
    hide Plain, ParseAssetID, Predecessor;
    best := best0;
    assert noted + FactsOf(cat, cs, additions, 0) == noted;
    for i := 0 to |additions|
      invariant BestOf(cat, inv, cs, best, noted + FactsOf(cat, cs, additions, i))
    {
      var fact := Fact(additions[i], RungNew);
      assert additions[i] in additions && AdditionFact(cat, cs, additions[i]) == fact;
      assert FactsOf(cat, cs, additions, i + 1) == FactsOf(cat, cs, additions, i) + {fact};
      assert noted + FactsOf(cat, cs, additions, i + 1) == noted + FactsOf(cat, cs, additions, i) + {fact};
      best := Note(cat, inv, cs, best, noted + FactsOf(cat, cs, additions, i), Plain(cat, inv, additions[i], RungNew));
    }
  }

  ghost function FactsOf(cat: Catalog, cs: set<Change>, ids: seq<bytes>, n: nat): set<Fact>
    requires n <= |ids|
  {
    set i | 0 <= i < n :: AdditionFact(cat, cs, ids[i])
  }

  lemma NotedOfIdentity(cat: Catalog, cs: set<Change>, left: set<Identity>, who: Identity, additions: seq<bytes>,
                        noted0: set<Fact>)
    requires multiset(additions) == multiset(Grouped(cat, cs, Added, who)) && who in left
    ensures var noted, noted' := noted0 + AdditionFacts(cat, cs, left), noted0 + AdditionFacts(cat, cs, left - {who});
            && noted' == noted + FactsOf(cat, cs, additions, |additions|)
            && (|additions| == 1 ==> noted' == noted + {AdditionFact(cat, cs, additions[0])})
  {
    hide ParseAssetID, AdditionFacts, Grouped, Predecessor;
    FactsOfIdentity(cat, cs, left, who, additions);
    if |additions| == 1 { assert FactsOf(cat, cs, additions, 1) == {AdditionFact(cat, cs, additions[0])}; }
  }

  lemma FactsOfIdentity(cat: Catalog, cs: set<Change>, left: set<Identity>, who: Identity, additions: seq<bytes>)
    requires multiset(additions) == multiset(Grouped(cat, cs, Added, who)) && who in left
    ensures AdditionFacts(cat, cs, left - {who})
         == AdditionFacts(cat, cs, left) + FactsOf(cat, cs, additions, |additions|)
  {
    hide ParseAssetID;
    forall f | f in AdditionFacts(cat, cs, left - {who})
      ensures f in AdditionFacts(cat, cs, left) + FactsOf(cat, cs, additions, |additions|)
    {
      var c :| c in cs && AssetChange(c, Added) && IdentityOf(cat, c.id) !in left - {who} && f == AdditionFact(cat, cs, c.id);
      if IdentityOf(cat, c.id) == who {
        assert c.id in Grouped(cat, cs, Added, who);
        assert c.id in multiset(additions);
        var i :| 0 <= i < |additions| && additions[i] == c.id;
      }
    }
    forall f | f in FactsOf(cat, cs, additions, |additions|)
      ensures f in AdditionFacts(cat, cs, left - {who})
    {
      var i :| 0 <= i < |additions| && f == AdditionFact(cat, cs, additions[i]);
      assert additions[i] in multiset(additions);
      var c :| c in cs && AssetChange(c, Added) && IdentityOf(cat, c.id) == who && c.id == additions[i];
    }
  }

  /** The rows of the assets removed and not absorbed. */
  method ListRemoved(cat: Catalog, inv: Inventory, ghost cs: set<Change>, ghost removed0: map<Identity, seq<bytes>>,
                     removed: map<Identity, seq<bytes>>) returns (rows: set<Row>)
    requires GroupedAs(cat, cs, Removed, removed0)
    requires forall who | who in removed0 :: who in removed <==> forall r | r in removed0[who] :: !Absorbed(cat, cs, r)
    requires forall who | who in removed :: who in removed0 && removed[who] == removed0[who]
    ensures rows == RemovedRows(cat, inv, cs)
  {
    hide Plain, ParseAssetID;
    rows := set who, r | who in removed && r in removed[who] :: RemovedRow(cat, inv, r);
    forall x | x in RemovedRows(cat, inv, cs)
      ensures x in rows
    {
      var c :| c in cs && AssetChange(c, Removed) && !Absorbed(cat, cs, c.id) && x == RemovedRow(cat, inv, c.id);
      var who := IdentityOf(cat, c.id);
      assert c.id in Grouped(cat, cs, Removed, who);
      assert c.id in multiset(removed0[who]);
      GroupIsAbsorbedWhole(cat, cs, removed0, who, c.id);
    }
    forall x | x in rows
      ensures x in RemovedRows(cat, inv, cs)
    {
      var who, r :| who in removed && r in removed[who] && x == RemovedRow(cat, inv, r);
      assert r in multiset(removed0[who]);
      var c :| c in cs && AssetChange(c, Removed) && IdentityOf(cat, c.id) == who && c.id == r;
    }
  }

  /** An absorbed removal is alone under its identity. */
  lemma GroupIsAbsorbedWhole(cat: Catalog, cs: set<Change>, removed: map<Identity, seq<bytes>>, who: Identity, r: bytes)
    requires GroupedAs(cat, cs, Removed, removed) && who in removed && r in removed[who] && !Absorbed(cat, cs, r)
    ensures forall x | x in removed[who] :: !Absorbed(cat, cs, x)
  {
    hide ParseAssetID;
    forall x | x in removed[who]
      ensures !Absorbed(cat, cs, x)
    {
      if Absorbed(cat, cs, x) { AbsorbedIsAlone(cat, cs, removed, who, x, r); }
    }
  }

  lemma AbsorbedIsAlone(cat: Catalog, cs: set<Change>, removed: map<Identity, seq<bytes>>, who: Identity, x: bytes, r: bytes)
    requires GroupedAs(cat, cs, Removed, removed) && who in removed && x in removed[who] && r in removed[who]
    requires Absorbed(cat, cs, x)
    ensures x == r
  {
    hide ParseAssetID;
    var c :| c in cs && Replaces(cat, cs, c.id, x);
    assert x in multiset(removed[who]) && r in multiset(removed[who]);
    assert IdentityOf(cat, x) == who;
    assert x in Grouped(cat, cs, Removed, IdentityOf(cat, c.id));
  }

  /** classify: the sorted listing of exactly the ladder's rows. */
  method Classify(cat: Catalog, inv: Inventory, delta: seq<Change>) returns (rows: seq<Row>)
    requires NoRepeats(delta)
    ensures multiset(rows) == multiset(LadderRows(cat, inv, Elements(delta)))
    ensures Distinguishes(RowKey, LadderRows(cat, inv, Elements(delta))) ==> InKeyOrder(RowKey, rows)
  {
    hide Plain, ParseAssetID;
    ghost var cs := Elements(delta);
    var added, removed0, addedAssets, best := CollectAssets(cat, inv, delta);
    best := NoteRecords(cat, inv, delta, addedAssets, best);
    var removed;
    best, removed := NoteAdditions(cat, inv, cs, added, removed0, best, ChangedFacts(cs) + RecordFacts(inv, cs, cs));
    var gone := ListRemoved(cat, inv, cs, removed0, removed);
    var present := best.Values;
    BestAreFactRows(cat, inv, cs, best);
    rows := SortSet(RowKey, present + gone);
  }

  lemma BestAreFactRows(cat: Catalog, inv: Inventory, cs: set<Change>, best: map<bytes, Row>)
    requires BestOf(cat, inv, cs, best, Facts(cat, inv, cs))
    ensures best.Values == FactRows(cat, inv, cs, Facts(cat, inv, cs))
  {
    hide Plain, ParseAssetID;
    var facts := Facts(cat, inv, cs);
    forall x | x in FactRows(cat, inv, cs, facts)
      ensures x in best.Values
    {
      var f :| f in facts && Highest(facts, f) && x == RowFor(cat, inv, cs, f);
      HighestIsUnique(facts, f, Fact(f.asset, best[f.asset].rung));
      assert best[f.asset] == x;
    }
    forall x | x in best.Values
      ensures x in FactRows(cat, inv, cs, facts)
    {
      var k :| k in best && best[k] == x;
      assert Highest(facts, Fact(k, best[k].rung));
    }
  }

  /** Neither the order of the changes nor that of any map shows in the ladder of a diff. */
  method LadderOfDiff(canon: Canon, cat: Catalog, previous: Inventory, inv: Inventory, delta: seq<Change>, delta': seq<Change>,
                      ghost cs: set<Change>)
    returns (rows: seq<Row>, rows': seq<Row>)
    requires IsDiff(canon, previous, inv, cs) && Closed(inv)
    requires multiset(delta) == multiset(cs) && multiset(delta') == multiset(cs)
    ensures rows == rows' && multiset(rows) == multiset(LadderRows(cat, inv, cs))
    ensures forall i, j | 0 <= i < j < |rows| :: rows[i].key != rows[j].key
    ensures forall x | x in rows :: Justified(cat, previous, inv, cs, x)
    ensures ShownInOrder(rows)
  {
    hide Plain, ParseAssetID, LadderRows, Justified;
    ListsOnce(delta, cs);
    ListsOnce(delta', cs);
    rows := Classify(cat, inv, delta);
    rows' := Classify(cat, inv, delta');
    OneRowEach(canon, cat, previous, inv, cs);
    OneListing(RowKey, rows, rows');
    KeysDiffer(rows, LadderRows(cat, inv, cs));
    RowsAreShownInOrder(rows);
    forall x | x in rows
      ensures Justified(cat, previous, inv, cs, x)
    {
      assert x in multiset(rows);
      RungIsMinimum(canon, cat, previous, inv, cs, x);
    }
  }

  /** Rows come by rung, and within a rung by type, name, host and ID. */
  predicate RowBefore(a: Row, b: Row) {
    || Above(a.rung, b.rung)
    || (a.rung == b.rung
        && (Less(a.kind, b.kind)
            || (a.kind == b.kind
                && (Less(a.name, b.name)
                    || (a.name == b.name && (Less(a.host, b.host) || (a.host == b.host && Less(a.key, b.key))))))))
  }

  ghost predicate ShownInOrder(rows: seq<Row>) {
    forall i, j | 0 <= i < j < |rows| :: RowBefore(rows[i], rows[j])
  }

  lemma KeyPutsBefore(a: Row, b: Row)
    requires ColumnsLess(RowKey(a), RowKey(b))
    ensures RowBefore(a, b)
  {
    var k, l := RowKey(a), RowKey(b);
    NextColumn([a.rung.Rank()], k[1..], [b.rung.Rank()], l[1..]);
    NextColumn(a.kind, k[2..], b.kind, l[2..]);
    NextColumn(a.name, k[3..], b.name, l[3..]);
    NextColumn(a.host, k[4..], b.host, l[4..]);
    NextColumn(a.key, k[5..], b.key, l[5..]);
    assert [a.rung.Rank()][0] == a.rung.Rank() && [b.rung.Rank()][0] == b.rung.Rank();
  }

  lemma RowsAreShownInOrder(rows: seq<Row>)
    requires InKeyOrder(RowKey, rows)
    ensures ShownInOrder(rows)
  {
    hide ColumnsLess, RowKey, RowBefore;
    forall i, j | 0 <= i < j < |rows|
      ensures RowBefore(rows[i], rows[j])
    {
      KeyPutsBefore(rows[i], rows[j]);
    }
  }

  lemma KeysDiffer(rows: seq<Row>, all: set<Row>)
    requires multiset(rows) == multiset(all) && InKeyOrder(RowKey, rows)
    requires forall x, y | x in all && y in all && x.key == y.key :: x == y
    ensures forall i, j | 0 <= i < j < |rows| :: rows[i].key != rows[j].key
  {
    forall i, j | 0 <= i < j < |rows|
      ensures rows[i].key != rows[j].key
    {
      assert rows[i] in multiset(rows) && rows[j] in multiset(rows);
      ColumnsIrreflexive(RowKey(rows[i]));
      assert ColumnsLess(RowKey(rows[i]), RowKey(rows[j]));
    }
  }

  lemma {:induction false} ListsOnce(delta: seq<Change>, cs: set<Change>)
    requires multiset(delta) == multiset(cs)
    ensures NoRepeats(delta) && Elements(delta) == cs
  {
    forall c
      ensures c in Elements(delta) <==> c in cs
    {
      assert c in delta <==> c in multiset(delta);
    }
    forall i, j | 0 <= i < j < |delta|
      ensures delta[i] != delta[j]
    {
      assert delta == delta[..i] + [delta[i]] + delta[i + 1..j] + [delta[j]] + delta[j + 1..];
      assert multiset(delta)[delta[i]] <= 1;
    }
  }
}
