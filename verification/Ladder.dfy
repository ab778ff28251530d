// The severity ladder: at most one row for each asset a delta speaks of.
module Ladder {
  import opened Framing
  import opened Ordering
  import opened Sorting
  import opened Inventory

  datatype Rung = RungNew | RungChanged | RungUnverified | RungUpgraded | RungRemoved {
    function Rank(): byte {
      match this
      case RungNew => 0 case RungChanged => 1 case RungUnverified => 2 case RungUpgraded => 3 case RungRemoved => 4
    }
  }

  datatype Row = Row(key: bytes, rung: Rung, kind: bytes, name: bytes, host: bytes, from: bytes, to: bytes)

  // The asset-ID prefixes that carry versions, the type each prefix prints as, and bare digests.
  datatype Catalog = Catalog(versioned: set<bytes>, typeOf: map<bytes, bytes>, isDigest: bytes -> bool, unnamed: bytes)

  datatype Parsed = Parsed(kind: bytes, host: bytes, name: bytes, version: bytes)

  datatype Identity = Identity(kind: bytes, host: bytes, name: bytes)

  const COLON: byte := 0x3A
  const AT: byte := 0x40

  function IndexOf(s: bytes, b: byte): (i: int)
    ensures -1 <= i < |s| && (i >= 0 ==> s[i] == b)
  {
    if s == [] then -1 else if s[0] == b then 0 else var i := IndexOf(s[1..], b); if i < 0 then -1 else i + 1
  }

  function LastIndexOf(s: bytes, b: byte): (i: int)
    ensures -1 <= i < |s| && (i >= 0 ==> s[i] == b)
  {
    if s == [] then -1 else if s[|s| - 1] == b then |s| - 1 else LastIndexOf(s[..|s| - 1], b)
  }

  /** "<type>:<host>:<name>[@<version>]"; two parts have no host, one part is only a name. */
  function ParseAssetID(cat: Catalog, id: bytes): Parsed {
    var i := IndexOf(id, COLON);
    var p := if i < 0 then Parsed([], [], id, [])
             else
               var rest := id[i + 1..];
               var j := IndexOf(rest, COLON);
               if j < 0 then Parsed(id[..i], [], rest, []) else Parsed(id[..i], rest[..j], rest[j + 1..], []);
    var at := LastIndexOf(p.name, AT);
    if p.kind in cat.versioned && at > 0 then p.(name := p.name[..at], version := p.name[at + 1..]) else p
  }

  lemma {:induction false} FirstIndex(head: bytes, b: byte, tail: bytes)
    requires b !in head
    ensures IndexOf(head + [b] + tail, b) == |head|
  {
    var s := head + [b] + tail;
    if head != [] {
      FirstIndex(head[1..], b, tail);
      assert s[0] == head[0] && s[0] in head && s[1..] == head[1..] + [b] + tail;
    }
  }

  lemma {:induction false} LastIndex(head: bytes, b: byte, tail: bytes)
    requires b !in tail
    ensures LastIndexOf(head + [b] + tail, b) == |head|
  {
    var s := head + [b] + tail;
    if tail != [] {
      var n := |tail| - 1;
      LastIndex(head, b, tail[..n]);
      assert s[|s| - 1] == tail[n] && tail[n] in tail && s[..|s| - 1] == head + [b] + tail[..n];
    }
  }

  lemma {:induction false} NoIndex(s: bytes, b: byte)
    ensures b !in s <==> IndexOf(s, b) == -1
    ensures b !in s ==> LastIndexOf(s, b) == -1
  {
    if s != [] {
      NoIndex(s[1..], b);
      NoIndex(s[..|s| - 1], b);
      assert s == [s[0]] + s[1..];
    }
  }

  /** What is behind the last @, which a name may start with, is the version. */
  lemma {:induction false} VersionParts(name: bytes, version: bytes)
    ensures AT !in version ==>
              var n := name + [AT] + version;
              LastIndexOf(n, AT) == |name| && n[..|name|] == name && n[|name| + 1..] == version
    ensures AT !in name || (name[0] == AT && AT !in name[1..]) ==> LastIndexOf(name, AT) <= 0
  {
    hide LastIndexOf, IndexOf;
    if AT !in version {
      LastIndex(name, AT, version);
      assert (name + [AT] + version)[..|name|] == name && (name + [AT] + version)[|name| + 1..] == version;
    }
    NoIndex(name, AT);
    if name != [] && name[0] == AT && AT !in name[1..] {
      LastIndex([], AT, name[1..]);
      assert [] + [AT] + name[1..] == name;
    }
  }

  /** Kind and host end at the first colons; a versioned name ends at its last @, unless the name starts there. */
  lemma ParseSpelled(cat: Catalog, kind: bytes, host: bytes, name: bytes, version: bytes)
    requires COLON !in kind && COLON !in host
    ensures kind in cat.versioned && name != [] && AT !in version ==>
              ParseAssetID(cat, kind + [COLON] + host + [COLON] + (name + [AT] + version)) == Parsed(kind, host, name, version)
    ensures kind !in cat.versioned || AT !in name || (name[0] == AT && AT !in name[1..]) ==>
              ParseAssetID(cat, kind + [COLON] + host + [COLON] + name) == Parsed(kind, host, name, [])
  {
    hide IndexOf, LastIndexOf;
    ParseParts(kind, host, name + [AT] + version);
    ParseParts(kind, host, name);
    VersionParts(name, version);
  }

  lemma ParseParts(kind: bytes, host: bytes, rest: bytes)
    requires COLON !in kind && COLON !in host
    ensures var id := kind + [COLON] + host + [COLON] + rest;
            && IndexOf(id, COLON) == |kind| && id[..|kind|] == kind
            && IndexOf(id[|kind| + 1..], COLON) == |host|
            && id[|kind| + 1..][..|host|] == host && id[|kind| + 1..][|host| + 1..] == rest
  {
    var id, tail := kind + [COLON] + host + [COLON] + rest, host + [COLON] + rest;
    assert id == kind + [COLON] + tail;
    FirstIndex(kind, COLON, tail);
    assert id[|kind| + 1..] == tail;
    FirstIndex(host, COLON, rest);
  }

  /** Two parts have no host, as in package IDs, and one part is only a name. */
  lemma ParseShort(cat: Catalog, kind: bytes, name: bytes, version: bytes)
    requires COLON !in kind && COLON !in name
    ensures kind in cat.versioned && name != [] && AT !in version && COLON !in version ==>
              ParseAssetID(cat, kind + [COLON] + (name + [AT] + version)) == Parsed(kind, [], name, version)
    ensures kind !in cat.versioned || AT !in name || (name[0] == AT && AT !in name[1..]) ==>
              ParseAssetID(cat, kind + [COLON] + name) == Parsed(kind, [], name, [])
    ensures [] !in cat.versioned ==> ParseAssetID(cat, name) == Parsed([], [], name, [])
  {
    hide IndexOf, LastIndexOf;
    TwoParts(kind, name);
    TwoParts(kind, name + [AT] + version);
    VersionParts(name, version);
    NoIndex(name, COLON);
  }

  lemma {:induction false} TwoParts(kind: bytes, rest: bytes)
    requires COLON !in kind
    ensures var id := kind + [COLON] + rest;
            && IndexOf(id, COLON) == |kind| && id[..|kind|] == kind && id[|kind| + 1..] == rest
            && (COLON !in rest ==> IndexOf(rest, COLON) == -1)
  {
    FirstIndex(kind, COLON, rest);
    NoIndex(rest, COLON);
    var id := kind + [COLON] + rest;
    assert id[..|kind|] == kind && id[|kind| + 1..] == rest;
  }

  // An asset ID with a version; a package has no host.
  function Spelled(kind: bytes, host: Option<bytes>, name: bytes, version: bytes): bytes {
    kind + [COLON] + (match host case None => [] case Some(h) => h + [COLON]) + (name + [AT] + version)
  }

  predicate Spellable(kind: bytes, host: Option<bytes>, name: bytes, version: bytes) {
    && COLON !in kind && AT !in version && name != []
    && (match host case None => COLON !in name && COLON !in version case Some(h) => COLON !in h)
  }

  lemma ParseIsInverse(cat: Catalog, kind: bytes, host: Option<bytes>, name: bytes, version: bytes)
    requires kind in cat.versioned && Spellable(kind, host, name, version)
    ensures ParseAssetID(cat, Spelled(kind, host, name, version)) == Parsed(kind, host.GetOr([]), name, version)
  {
    hide ParseAssetID;
    match host {
      case None =>
        ParseShort(cat, kind, name, version);
        assert kind + [COLON] + [] + (name + [AT] + version) == kind + [COLON] + (name + [AT] + version);
      case Some(h) =>
        ParseSpelled(cat, kind, h, name, version);
        assert kind + [COLON] + (h + [COLON]) + (name + [AT] + version) == kind + [COLON] + h + [COLON] + (name + [AT] + version);
    }
  }

  function IdentityOf(cat: Catalog, id: bytes): Identity {
    var p := ParseAssetID(cat, id);
    Identity(p.kind, p.host, p.name)
  }

  function VersionOf(cat: Catalog, id: bytes): bytes {
    ParseAssetID(cat, id).version
  }

  // The maps that classify fills keep the last entry of an ID.
  function LastAsset(assets: seq<Asset>, id: bytes): Option<Asset> {
    if assets == [] then None
    else if assets[|assets| - 1].id == id then Some(assets[|assets| - 1])
    else LastAsset(assets[..|assets| - 1], id)
  }

  function OwnerOf(observations: seq<Observation>, id: bytes): bytes {
    if observations == [] then []
    else if observations[|observations| - 1].id == id then observations[|observations| - 1].assetID
    else OwnerOf(observations[..|observations| - 1], id)
  }

  function LastEvidence(evidence: seq<Evidence>, id: bytes): Option<Evidence> {
    if evidence == [] then None
    else if evidence[|evidence| - 1].id == id then Some(evidence[|evidence| - 1])
    else LastEvidence(evidence[..|evidence| - 1], id)
  }

  /** A row with the columns of a present asset's record, or of a gone asset's ID. */
  function Plain(cat: Catalog, inv: Inventory, id: bytes, rung: Rung): (r: Row)
    ensures r.key == id && r.rung == rung
  {
    match LastAsset(inv.assets, id)
    case Some(a) => Row(id, rung, a.kind, a.name, a.source, [], [])
    case None =>
      var p := ParseAssetID(cat, id);
      var kind := if p.kind in cat.typeOf then cat.typeOf[p.kind] else p.kind;
      if cat.isDigest(p.name) then Row(id, rung, kind, cat.unnamed, [], [], [])
      else Row(id, rung, kind, p.name, p.host, [], [])
  }

  /** The order of the rungs, from the one that speaks first. */
  predicate Above(a: Rung, b: Rung) {
    match a
    case RungNew => b != RungNew
    case RungChanged => b in {RungUnverified, RungUpgraded, RungRemoved}
    case RungUnverified => b in {RungUpgraded, RungRemoved}
    case RungUpgraded => b == RungRemoved
    case RungRemoved => false
  }

  function RowKey(r: Row): seq<bytes> {
    [[r.rung.Rank()], r.kind, r.name, r.host, r.key]
  }

  // ----------------------------------------------------------- what is reported

  predicate AssetChange(c: Change, kind: Kind) {
    c.entity == AssetEntity && c.kind == kind
  }

  predicate IsRecord(c: Change) {
    c.entity != AssetEntity && c.kind != Removed
  }

  /** The asset a changed record belongs to; empty when it cannot be attributed. */
  function RecordAsset(inv: Inventory, c: Change): bytes {
    if c.entity == ObservationEntity then OwnerOf(inv.observations, c.id)
    else match LastEvidence(inv.evidence, c.id)
      case None => []
      case Some(e) => if e.assetID == [] then OwnerOf(inv.observations, e.observationID) else e.assetID
  }

  function RecordRung(inv: Inventory, c: Change): (r: Rung)
    ensures r == RungChanged || r == RungUnverified
  {
    if c.entity == ObservationEntity then RungChanged
    else match LastEvidence(inv.evidence, c.id)
      case None => RungUnverified
      case Some(e) => if e.status == Complete || e.status == Unsupported then RungChanged else RungUnverified
  }

  /** A record speaks unless it only repeats that its asset is new. */
  predicate Speaks(inv: Inventory, cs: set<Change>, c: Change) {
    && IsRecord(c) && RecordAsset(inv, c) != []
    && !(Change(Added, AssetEntity, RecordAsset(inv, c)) in cs && RecordRung(inv, c) == RungChanged)
  }

  function Grouped(cat: Catalog, cs: set<Change>, kind: Kind, who: Identity): set<bytes> {
    set c | c in cs && AssetChange(c, kind) && IdentityOf(cat, c.id) == who :: c.id
  }

  /** r is the one removal, and a the one addition, of an identity, and both carry a version. */
  predicate Replaces(cat: Catalog, cs: set<Change>, a: bytes, r: bytes) {
    && Grouped(cat, cs, Added, IdentityOf(cat, a)) == {a} && Grouped(cat, cs, Removed, IdentityOf(cat, a)) == {r}
    && VersionOf(cat, a) != [] && VersionOf(cat, r) != []
  }

  ghost function Predecessor(cat: Catalog, cs: set<Change>, a: bytes): (r: Option<bytes>)
    ensures r.Some? ==> Replaces(cat, cs, a, r.value)
    ensures r.None? ==> forall x :: !Replaces(cat, cs, a, x)
  {
    if exists x :: Replaces(cat, cs, a, x) then var x :| Replaces(cat, cs, a, x); Some(x) else None
  }

  // One thing established about an asset.
  datatype Fact = Fact(asset: bytes, rung: Rung)

  function ChangedFacts(part: set<Change>): set<Fact> {
    set c | c in part && AssetChange(c, Changed) :: Fact(c.id, RungChanged)
  }

  function RecordFacts(inv: Inventory, cs: set<Change>, part: set<Change>): set<Fact> {
    set c | c in part && Speaks(inv, cs, c) :: Fact(RecordAsset(inv, c), RecordRung(inv, c))
  }

  ghost function AdditionFact(cat: Catalog, cs: set<Change>, a: bytes): Fact {
    Fact(a, if Predecessor(cat, cs, a).Some? then RungUpgraded else RungNew)
  }

  ghost function AdditionFacts(cat: Catalog, cs: set<Change>, left: set<Identity>): set<Fact> {
    set c | c in cs && AssetChange(c, Added) && IdentityOf(cat, c.id) !in left :: AdditionFact(cat, cs, c.id)
  }

  ghost function Facts(cat: Catalog, inv: Inventory, cs: set<Change>): set<Fact> {
    ChangedFacts(cs) + RecordFacts(inv, cs, cs) + AdditionFacts(cat, cs, {})
  }

  ghost function RowFor(cat: Catalog, inv: Inventory, cs: set<Change>, f: Fact): (r: Row)
    ensures r.key == f.asset && r.rung == f.rung
  {
    var r := Plain(cat, inv, f.asset, f.rung);
    var before := Predecessor(cat, cs, f.asset);
    if f.rung == RungUpgraded && before.Some? then
      r.(from := VersionOf(cat, before.value), to := VersionOf(cat, f.asset))
    else r
  }

  ghost predicate Highest(facts: set<Fact>, f: Fact) {
    f in facts && forall g <- facts | g.asset == f.asset :: f.rung.Rank() <= g.rung.Rank()
  }

  predicate Absorbed(cat: Catalog, cs: set<Change>, r: bytes) {
    exists c <- cs :: Replaces(cat, cs, c.id, r)
  }

  function RemovedRow(cat: Catalog, inv: Inventory, r: bytes): (row: Row)
    ensures row.key == r && row.rung == RungRemoved
  {
    Plain(cat, inv, r, RungRemoved).(from := VersionOf(cat, r))
  }

  function RemovedRows(cat: Catalog, inv: Inventory, cs: set<Change>): set<Row> {
    set c | c in cs && AssetChange(c, Removed) && !Absorbed(cat, cs, c.id) :: RemovedRow(cat, inv, c.id)
  }

  ghost function FactRows(cat: Catalog, inv: Inventory, cs: set<Change>, facts: set<Fact>): set<Row> {
    set f | f in facts && Highest(facts, f) :: RowFor(cat, inv, cs, f)
  }

  /** The ladder as a set of rows: a function of the inventory and of which changes there are. */
  ghost function LadderRows(cat: Catalog, inv: Inventory, cs: set<Change>): set<Row> {
    FactRows(cat, inv, cs, Facts(cat, inv, cs)) + RemovedRows(cat, inv, cs)
  }

  // ------------------------------------------------------------------ accounting

  /** Records name only assets that are there. */
  ghost predicate Closed(inv: Inventory) {
    && (forall o | o in inv.observations :: o.assetID in IDs(inv.assets))
    && (forall e | e in inv.evidence :: e.assetID == [] || e.assetID in IDs(inv.assets))
  }

  lemma {:induction false} OwnerIsPresent(observations: seq<Observation>, ids: set<bytes>, id: bytes)
    requires forall o | o in observations :: o.assetID in ids
    ensures OwnerOf(observations, id) == [] || OwnerOf(observations, id) in ids
  {
    if observations != [] && observations[|observations| - 1].id != id {
      OwnerIsPresent(observations[..|observations| - 1], ids, id);
    }
  }

  lemma {:induction false} LastEvidenceIsOne(evidence: seq<Evidence>, id: bytes)
    ensures LastEvidence(evidence, id).Some? ==> LastEvidence(evidence, id).value in evidence
  {
    if evidence != [] && evidence[|evidence| - 1].id != id {
      LastEvidenceIsOne(evidence[..|evidence| - 1], id);
    }
  }

  lemma RecordAssetIsPresent(inv: Inventory, c: Change)
    requires Closed(inv)
    ensures RecordAsset(inv, c) == [] || RecordAsset(inv, c) in IDs(inv.assets)
  {
    OwnerIsPresent(inv.observations, IDs(inv.assets), c.id);
    LastEvidenceIsOne(inv.evidence, c.id);
    var e := LastEvidence(inv.evidence, c.id);
    if e.Some? { OwnerIsPresent(inv.observations, IDs(inv.assets), e.value.observationID); }
  }

  /** Facts are about present assets. */
  lemma FactsArePresent(canon: Canon, cat: Catalog, previous: Inventory, inv: Inventory, cs: set<Change>)
    requires IsDiff(canon, previous, inv, cs) && Closed(inv)
    ensures forall f | f in Facts(cat, inv, cs) :: f.asset in IDs(inv.assets)
  {
    hide Plain, ParseAssetID;
    DiffFacts(canon, previous, inv, cs);
    forall f | f in RecordFacts(inv, cs, cs)
      ensures f.asset in IDs(inv.assets)
    {
      var c :| c in cs && Speaks(inv, cs, c) && f == Fact(RecordAsset(inv, c), RecordRung(inv, c));
      RecordAssetIsPresent(inv, c);
    }
  }

  lemma {:induction false} SomeHighest(facts: set<Fact>, f: Fact) returns (h: Fact)
    requires f in facts
    ensures Highest(facts, h) && h.asset == f.asset
    decreases f.rung.Rank()
  {
    if Highest(facts, f) {
      h := f;
    } else {
      var g :| g in facts && g.asset == f.asset && g.rung.Rank() < f.rung.Rank();
      h := SomeHighest(facts, g);
    }
  }

  lemma HighestIsUnique(facts: set<Fact>, f: Fact, g: Fact)
    requires Highest(facts, f) && Highest(facts, g) && f.asset == g.asset
    ensures f == g
  {
    assert f.rung.Rank() == g.rung.Rank();
  }

  /** No asset has two rows, and so the row order is total. */
  lemma OneRowEach(canon: Canon, cat: Catalog, previous: Inventory, inv: Inventory, cs: set<Change>)
    requires IsDiff(canon, previous, inv, cs) && Closed(inv)
    ensures forall x, y | x in LadderRows(cat, inv, cs) && y in LadderRows(cat, inv, cs) && x.key == y.key :: x == y
    ensures Distinguishes(RowKey, LadderRows(cat, inv, cs))
  {
    hide Facts, IsDiff, Closed, RemovedRow, RowFor, Absorbed;
    FactsArePresent(canon, cat, previous, inv, cs);
    DiffFacts(canon, previous, inv, cs);
    var facts, rows := Facts(cat, inv, cs), LadderRows(cat, inv, cs);
    forall x, y | x in rows && y in rows && x.key == y.key
      ensures x == y
    {
      if x in FactRows(cat, inv, cs, facts) && y in FactRows(cat, inv, cs, facts) {
        var f :| f in facts && Highest(facts, f) && x == RowFor(cat, inv, cs, f);
        var g :| g in facts && Highest(facts, g) && y == RowFor(cat, inv, cs, g);
        HighestIsUnique(facts, f, g);
      }
    }
    forall x, y | x in rows && y in rows && x != y
      ensures RowKey(x) != RowKey(y)
    {
      assert RowKey(x)[4] == x.key && RowKey(y)[4] == y.key;
    }
  }

  /** Every asset with a fact has a row, on a rung at least as high as that fact's. */
  lemma FactHasRow(cat: Catalog, inv: Inventory, cs: set<Change>, f: Fact) returns (x: Row, h: Fact)
    requires f in Facts(cat, inv, cs)
    ensures x in LadderRows(cat, inv, cs) && x == RowFor(cat, inv, cs, h)
    ensures h in Facts(cat, inv, cs) && h.asset == f.asset && h.rung.Rank() <= f.rung.Rank()
  {
    hide Facts, RowFor, RemovedRows;
    h := SomeHighest(Facts(cat, inv, cs), f);
    x := RowFor(cat, inv, cs, h);
    assert x in FactRows(cat, inv, cs, Facts(cat, inv, cs));
  }

  /** An added asset has a fact that it is there, and none that it is CHANGED. */
  lemma FactsOfAdded(cat: Catalog, inv: Inventory, cs: set<Change>, a: bytes)
    requires Change(Added, AssetEntity, a) in cs && Change(Changed, AssetEntity, a) !in cs
    ensures AdditionFact(cat, cs, a) in Facts(cat, inv, cs)
    ensures forall f <- Facts(cat, inv, cs) | f.asset == a :: f.rung == RungUnverified || f == AdditionFact(cat, cs, a)
  {
    hide ParseAssetID, Predecessor, OwnerOf, LastEvidence;
    assert AdditionFact(cat, cs, a) in AdditionFacts(cat, cs, {});
    forall f | f in RecordFacts(inv, cs, cs) && f.asset == a
      ensures f.rung == RungUnverified
    {
      var c :| c in cs && Speaks(inv, cs, c) && f == Fact(RecordAsset(inv, c), RecordRung(inv, c));
    }
    assert forall c <- cs | AssetChange(c, Changed) :: c.id != a;
    assert forall f | f in ChangedFacts(cs) :: f.asset != a;
  }

  lemma RungOfFact(cat: Catalog, inv: Inventory, cs: set<Change>, f: Fact)
    requires f in Facts(cat, inv, cs)
    ensures f.rung in {RungNew, RungUpgraded} ==> Change(Added, AssetEntity, f.asset) in cs && f == AdditionFact(cat, cs, f.asset)
    ensures f.rung != RungRemoved
  {
    hide RecordAsset, RecordRung, IdentityOf, Predecessor, Speaks;
    if f in AdditionFacts(cat, cs, {}) {
      var c :| c in cs && AssetChange(c, Added) && f == AdditionFact(cat, cs, c.id);
      assert c == Change(Added, AssetEntity, c.id);
    }
  }

  /** NEW and UPGRADED are for assets that are there for the first time. */
  lemma FactKinds(canon: Canon, cat: Catalog, previous: Inventory, inv: Inventory, cs: set<Change>, f: Fact)
    requires IsDiff(canon, previous, inv, cs) && f in Facts(cat, inv, cs)
    requires f.asset in IDs(inv.assets)
    ensures f.rung in {RungNew, RungUpgraded} ==> f.asset !in IDs(previous.assets)
    ensures f.rung == RungNew ==> Predecessor(cat, cs, f.asset).None?
    ensures f.rung != RungRemoved
  {
    hide Facts, Predecessor, IsDiff;
    DiffFacts(canon, previous, inv, cs);
    RungOfFact(cat, inv, cs, f);
  }

  // What stands behind a row: nothing about a gone asset, and otherwise the highest of its facts.
  ghost predicate Justified(cat: Catalog, previous: Inventory, inv: Inventory, cs: set<Change>, x: Row) {
    && (x.rung == RungRemoved <==> x.key !in IDs(inv.assets))
    && (x.rung == RungRemoved ==> x.key in IDs(previous.assets) && forall f | f in Facts(cat, inv, cs) :: f.asset != x.key)
    && (x.rung != RungRemoved ==>
          && Fact(x.key, x.rung) in Facts(cat, inv, cs)
          && forall f <- Facts(cat, inv, cs) | f.asset == x.key :: !Above(f.rung, x.rung))
    && (x.rung == RungNew <==> x.key in IDs(inv.assets) - IDs(previous.assets) && Predecessor(cat, cs, x.key).None?)
  }

  /**
   * A row's rung is the highest (lowest ranked) of everything established about its asset. A row is REMOVED exactly
   * when its asset is gone, and then nothing else was established about it; it is NEW exactly when its asset is there
   * for the first time and replaces none.
   */
  lemma RungIsMinimum(canon: Canon, cat: Catalog, previous: Inventory, inv: Inventory, cs: set<Change>, x: Row)
    requires IsDiff(canon, previous, inv, cs) && Closed(inv) && x in LadderRows(cat, inv, cs)
    ensures Justified(cat, previous, inv, cs, x)
  {
    hide Facts, Predecessor, IsDiff, RemovedRow, RowFor, Absorbed;
    DiffFacts(canon, previous, inv, cs);
    FactsArePresent(canon, cat, previous, inv, cs);
    var facts := Facts(cat, inv, cs);
    if x in FactRows(cat, inv, cs, facts) {
      var f :| f in facts && Highest(facts, f) && x == RowFor(cat, inv, cs, f);
      assert f == Fact(x.key, x.rung);
      FactKinds(canon, cat, previous, inv, cs, f);
      if x.key !in IDs(previous.assets) { FactsOfAdded(cat, inv, cs, x.key); }
    } else {
      var c :| c in cs && AssetChange(c, Removed) && x == RemovedRow(cat, inv, c.id);
    }
  }

  /** Every added asset has a row: NEW, or, when it replaces a removed one, UPGRADED or UNVERIFIED. */
  lemma AddedHasRow(canon: Canon, cat: Catalog, previous: Inventory, inv: Inventory, cs: set<Change>, a: bytes)
    returns (x: Row)
    requires IsDiff(canon, previous, inv, cs) && a in IDs(inv.assets) - IDs(previous.assets)
    ensures x in LadderRows(cat, inv, cs) && x.key == a
    ensures Predecessor(cat, cs, a).None? ==> x.rung == RungNew
    ensures Predecessor(cat, cs, a).Some? ==>
              && x.rung in {RungUpgraded, RungUnverified}
              && (x.rung == RungUpgraded ==> x.from == VersionOf(cat, Predecessor(cat, cs, a).value) && x.to == VersionOf(cat, a))
  {
    hide Plain, ParseAssetID, Predecessor, LadderRows, Facts;
    DiffFacts(canon, previous, inv, cs);
    FactsOfAdded(cat, inv, cs, a);
    var h;
    x, h := FactHasRow(cat, inv, cs, AdditionFact(cat, cs, a));
  }

  /**
   * One version of a package gone, another one there, and no third of them added or removed: the new one is UPGRADED from
   * the one version to the other, or UNVERIFIED when its record says so.
   */
  lemma VersionChangeHasRow(canon: Canon, cat: Catalog, previous: Inventory, inv: Inventory, cs: set<Change>,
                            kind: bytes, host: Option<bytes>, name: bytes, before: bytes, after: bytes)
    returns (x: Row)
    requires IsDiff(canon, previous, inv, cs) && kind in cat.versioned && before != [] && after != []
    requires Spellable(kind, host, name, before) && Spellable(kind, host, name, after)
    requires Spelled(kind, host, name, after) in IDs(inv.assets) - IDs(previous.assets)
    requires Spelled(kind, host, name, before) in IDs(previous.assets) - IDs(inv.assets)
    requires forall c | c in cs && c.entity == AssetEntity && IdentityOf(cat, c.id) == Identity(kind, host.GetOr([]), name) ::
               && (c.kind == Added ==> c.id == Spelled(kind, host, name, after))
               && (c.kind == Removed ==> c.id == Spelled(kind, host, name, before))
    ensures x in LadderRows(cat, inv, cs) && x.key == Spelled(kind, host, name, after)
    ensures x.rung in {RungUpgraded, RungUnverified} && (x.rung == RungUpgraded ==> x.from == before && x.to == after)
  {
    var a, r := Spelled(kind, host, name, after), Spelled(kind, host, name, before);
    ParseIsInverse(cat, kind, host, name, before);
    ParseIsInverse(cat, kind, host, name, after);
    DiffFacts(canon, previous, inv, cs);
    hide ParseAssetID, IsDiff, LadderRows, Spelled, Spellable;
    OneOfItsIdentity(cat, cs, Added, a);
    OneOfItsIdentity(cat, cs, Removed, r);
    hide Grouped;
    x := AddedHasRow(canon, cat, previous, inv, cs, a);
    assert Replaces(cat, cs, a, r);
    assert Predecessor(cat, cs, a).value in {r};
  }

  lemma OneOfItsIdentity(cat: Catalog, cs: set<Change>, kind: Kind, id: bytes)
    requires Change(kind, AssetEntity, id) in cs
    requires forall c | c in cs && AssetChange(c, kind) && IdentityOf(cat, c.id) == IdentityOf(cat, id) :: c.id == id
    ensures Grouped(cat, cs, kind, IdentityOf(cat, id)) == {id}
  {
    hide IdentityOf;
    assert AssetChange(Change(kind, AssetEntity, id), kind);
  }

  /** A removed asset is the predecessor of at most one asset. */
  lemma OneSuccessor(cat: Catalog, cs: set<Change>, a: bytes, b: bytes, r: bytes)
    requires Replaces(cat, cs, a, r) && Replaces(cat, cs, b, r)
    ensures a == b
  {
    hide ParseAssetID;
    assert r in Grouped(cat, cs, Removed, IdentityOf(cat, a)) && r in Grouped(cat, cs, Removed, IdentityOf(cat, b));
    assert IdentityOf(cat, a) == IdentityOf(cat, r) == IdentityOf(cat, b);
    assert b in Grouped(cat, cs, Added, IdentityOf(cat, a));
  }

  /** Every removed asset has its own REMOVED row, or is the predecessor of exactly one added asset; never both. */
  lemma RemovedIsAccountedFor(canon: Canon, cat: Catalog, previous: Inventory, inv: Inventory, cs: set<Change>, r: bytes)
    requires IsDiff(canon, previous, inv, cs) && r in IDs(previous.assets) - IDs(inv.assets)
    ensures RemovedRow(cat, inv, r) in RemovedRows(cat, inv, cs) <==> !Absorbed(cat, cs, r)
    ensures Absorbed(cat, cs, r) <==>
              exists a :: a in IDs(inv.assets) - IDs(previous.assets) && Predecessor(cat, cs, a) == Some(r)
  {
    DiffFacts(canon, previous, inv, cs);
    RemovedRowUnlessAbsorbed(cat, inv, cs, r);
    AbsorbedBySuccessor(cat, cs, r);
  }

  lemma RemovedRowUnlessAbsorbed(cat: Catalog, inv: Inventory, cs: set<Change>, r: bytes)
    requires Change(Removed, AssetEntity, r) in cs
    ensures RemovedRow(cat, inv, r) in RemovedRows(cat, inv, cs) <==> !Absorbed(cat, cs, r)
  {
    hide Plain, ParseAssetID, Absorbed;
    if RemovedRow(cat, inv, r) in RemovedRows(cat, inv, cs) {
      var c :| c in cs && AssetChange(c, Removed) && !Absorbed(cat, cs, c.id)
               && RemovedRow(cat, inv, c.id) == RemovedRow(cat, inv, r);
      assert c.id == r;
    }
  }

  lemma AbsorbedBySuccessor(cat: Catalog, cs: set<Change>, r: bytes)
    ensures Absorbed(cat, cs, r) <==> exists a :: Change(Added, AssetEntity, a) in cs && Predecessor(cat, cs, a) == Some(r)
  {
    hide ParseAssetID;
    if Absorbed(cat, cs, r) {
      var c :| c in cs && Replaces(cat, cs, c.id, r);
      assert c.id in Grouped(cat, cs, Added, IdentityOf(cat, c.id));
      assert Predecessor(cat, cs, c.id).value in {r};
    }
    forall a | Change(Added, AssetEntity, a) in cs && Predecessor(cat, cs, a) == Some(r)
      ensures Absorbed(cat, cs, r)
    {
      assert Change(Added, AssetEntity, a).id == a;
    }
  }
}
