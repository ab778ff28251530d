// The evidence engine: which issued targets are taken, and the one record each of them gets.
module EvidenceEngine {
  import opened Framing
  import opened Ordering
  import opened Sorting
  import opened EvidenceRecord

  datatype Collector = Projects | Surfaces | OtherCollector(name: bytes)

  datatype Asset = Asset(id: bytes, isProject: bool)

  datatype Observation = Observation(id: bytes, assetID: bytes, collector: Collector, projectRoot: bool, projectID: bytes)

  datatype Inventory = Inventory(assets: seq<Asset>, observations: seq<Observation>)

  // A relative path: none, one that is not safe, or its components.
  datatype Path = NoPath | BadPath | Path(components: seq<bytes>)

  // The paths of a target and its anchor; `located` when any of them is set, `shaped` when they are consistent.
  datatype Place = Place(located: bool, shaped: bool, asset: seq<bytes>, anchor: Path, target: Path)

  datatype Target = Target(
    targetID: bytes, about: About, preset: Option<Status>, presetAlgorithm: Algorithm, presetDigest: bytes, place: Place)

  // A target a collector handed in, and whether its seal was verified.
  datatype Offer = Offer(collector: Collector, issued: bool, target: Target)

  datatype Rules = Rules(naming: Naming, wellNamed: (bytes, Collector) -> bool, identified: Observation -> bool)

  datatype Candidate = Candidate(target: Target, evidenceID: bytes, pathInvalid: bool, relative: seq<bytes>)

  // --------------------------------------------------------------------- graph

  /** The values that carry an ID, in order. */
  function Carriers<T>(values: seq<T>, id: T -> bytes, k: bytes): seq<T> {
    if values == [] then []
    else
      var v := values[|values| - 1];
      Carriers(values[..|values| - 1], id, k) + (if id(v) == k then [v] else [])
  }

  /** An ID stands for a value when one value alone carries it, and that value is good. */
  predicate StandsFor<T>(values: seq<T>, id: T -> bytes, good: T -> bool, k: bytes) {
    k != [] && |Carriers(values, id, k)| == 1 && good(Carriers(values, id, k)[0])
  }

  /** found holds the IDs that stand for a value so far, and rejected those that cannot any more. */
  ghost predicate Sifted<T>(values: seq<T>, id: T -> bytes, good: T -> bool, found: map<bytes, T>, rejected: set<bytes>) {
    forall k :: SiftedAt(Carriers(values, id, k), good, found, rejected, k)
  }

  ghost predicate SiftedAt<T>(carriers: seq<T>, good: T -> bool, found: map<bytes, T>, rejected: set<bytes>, k: bytes) {
    && (k in found <==> k != [] && |carriers| == 1 && good(carriers[0])) && (k in found ==> carriers == [found[k]])
    && (k in rejected <==> k != [] && carriers != [] && k !in found)
  }

  lemma SiftNext<T>(values: seq<T>, id: T -> bytes, good: T -> bool, found: map<bytes, T>, rejected: set<bytes>, v: T)
    requires Sifted(values, id, good, found, rejected)
    ensures var k := id(v);
            if k == [] || k in rejected then Sifted(values + [v], id, good, found, rejected)
            else if !good(v) || k in found then Sifted(values + [v], id, good, found - {k}, rejected + {k})
            else Sifted(values + [v], id, good, found[k := v], rejected)
  {
    hide Carriers, SiftedAt;
    var own := id(v);
    forall k
      ensures if own == [] || own in rejected then SiftedAt(Carriers(values + [v], id, k), good, found, rejected, k)
              else if !good(v) || own in found then
                SiftedAt(Carriers(values + [v], id, k), good, found - {own}, rejected + {own}, k)
              else SiftedAt(Carriers(values + [v], id, k), good, found[own := v], rejected, k)
    {
      assert SiftedAt(Carriers(values, id, k), good, found, rejected, k);
      NextCarrier(values, id, v, k);
      SiftOne(Carriers(values, id, k), good, found, rejected, v, own, k);
    }
  }

  lemma {:induction false} NextCarrier<T>(values: seq<T>, id: T -> bytes, v: T, k: bytes)
    ensures Carriers(values + [v], id, k) == Carriers(values, id, k) + (if id(v) == k then [v] else [])
  {
    assert (values + [v])[..|values|] == values;
  }

  lemma SiftOne<T>(carriers: seq<T>, good: T -> bool, found: map<bytes, T>, rejected: set<bytes>, v: T, own: bytes, k: bytes)
    requires SiftedAt(carriers, good, found, rejected, k)
    ensures var next := carriers + (if own == k then [v] else []);
            if own == [] || own in rejected then SiftedAt(next, good, found, rejected, k)
            else if !good(v) || own in found then SiftedAt(next, good, found - {own}, rejected + {own}, k)
            else SiftedAt(next, good, found[own := v], rejected, k)
  {
    assert own != k ==> carriers + [] == carriers;
  }

  /** uniqueAssets and uniqueObservations: a second carrier, or a bad one, spoils the ID for good. */
  method UniqueByID<T(==)>(values: seq<T>, id: T -> bytes, good: T -> bool) returns (found: map<bytes, T>)
    ensures forall k :: k in found <==> StandsFor(values, id, good, k)
    ensures forall k | k in found :: [found[k]] == Carriers(values, id, k)
  {
    hide Carriers;
    found := map[];
    var rejected: set<bytes> := {};
    NothingSifted(id, good);
    assert values[..0] == [];
    for i := 0 to |values|
      invariant Sifted(values[..i], id, good, found, rejected)
    {
      hide Sifted;
      var v := values[i];
      assert values[..i + 1] == values[..i] + [v];
      SiftNext(values[..i], id, good, found, rejected, v);
      if id(v) == [] || id(v) in rejected { continue; }
      if !good(v) || id(v) in found {
        found, rejected := found - {id(v)}, rejected + {id(v)};
      } else {
        found := found[id(v) := v];
      }
    }
    assert values[..|values|] == values;
    SiftedStands(values, id, good, found, rejected);
  }

  lemma {:induction false} SiftedStands<T>(
    values: seq<T>, id: T -> bytes, good: T -> bool, found: map<bytes, T>, rejected: set<bytes>)
    requires Sifted(values, id, good, found, rejected)
    ensures forall k :: k in found <==> StandsFor(values, id, good, k)
    ensures forall k | k in found :: [found[k]] == Carriers(values, id, k)
  {
    hide Carriers;
    forall k
      ensures k in found <==> StandsFor(values, id, good, k)
      ensures k in found ==> [found[k]] == Carriers(values, id, k)
    {
      assert SiftedAt(Carriers(values, id, k), good, found, rejected, k);
    }
  }

  lemma NothingSifted<T>(id: T -> bytes, good: T -> bool)
    ensures Sifted([], id, good, map[], {})
  {}

  lemma {:induction false} CarriersCarry<T>(values: seq<T>, id: T -> bytes, k: bytes)
    ensures forall v :: v in Carriers(values, id, k) <==> v in values && id(v) == k
  {
    if values != [] {
      CarriersCarry(values[..|values| - 1], id, k);
      assert values == values[..|values| - 1] + [values[|values| - 1]];
    }
  }

  /** v carries the ID, and nothing else in the list does. */
  ghost predicate OnlyOne<T(!new)>(values: seq<T>, id: T -> bytes, k: bytes, v: T) {
    id(v) == k && exists i :: 0 <= i < |values| && values[i] == v && forall j | 0 <= j < |values| && j != i :: id(values[j]) != k
  }

  lemma {:induction false} NoCarrier<T(!new)>(values: seq<T>, id: T -> bytes, k: bytes)
    ensures Carriers(values, id, k) == [] <==> forall j | 0 <= j < |values| :: id(values[j]) != k
  {
    if values != [] {
      var n := |values| - 1;
      NoCarrier(values[..n], id, k);
      assert forall j | 0 <= j < n :: values[..n][j] == values[j];
    }
  }

  lemma OnlyOneOfMore<T(!new)>(values: seq<T>, id: T -> bytes, k: bytes, v: T)
    requires values != []
    ensures var n := |values| - 1;
            OnlyOne(values, id, k, v) <==>
              if id(values[n]) == k then values[n] == v && forall j | 0 <= j < n :: id(values[j]) != k
              else OnlyOne(values[..n], id, k, v)
  {
    var n := |values| - 1;
    assert forall j | 0 <= j < n :: values[..n][j] == values[j];
    if id(values[n]) != k && OnlyOne(values[..n], id, k, v) {
      var i :| 0 <= i < n && values[..n][i] == v && forall j | 0 <= j < n && j != i :: id(values[..n][j]) != k;
      assert values[i] == v;
    }
    if id(values[n]) != k && OnlyOne(values, id, k, v) {
      var i :| 0 <= i <= n && values[i] == v && forall j | 0 <= j <= n && j != i :: id(values[j]) != k;
      if i < n { assert values[..n][i] == v; }
    }
  }

  lemma {:induction false} CarrierIsOnlyOne<T(!new)>(values: seq<T>, id: T -> bytes, k: bytes, v: T)
    ensures Carriers(values, id, k) == [v] <==> OnlyOne(values, id, k, v)
    ensures Carriers(values, id, k) == [] <==> forall j | 0 <= j < |values| :: id(values[j]) != k
  {
    NoCarrier(values, id, k);
    if values != [] {
      hide OnlyOne;
      var n := |values| - 1;
      CarrierIsOnlyOne(values[..n], id, k, v);
      OnlyOneOfMore(values, id, k, v);
      assert forall j | 0 <= j < n :: values[..n][j] == values[j];
      var before := Carriers(values[..n], id, k);
      assert before + [values[n]] == [v] ==> before == [] && (before + [values[n]])[|before|] == v;
    }
  }

  // ----------------------------------------------------------------- acceptance

  // Where a path lies: not safe, outside the asset, or below it by a remainder.
  datatype Lies = Unsafe | Elsewhere | Below(rest: seq<bytes>)

  /** assetRelativePath: below the asset exactly when the asset's components come first. */
  method AssetRelativePath(asset: seq<bytes>, path: Path, allowRoot: bool) returns (r: Lies)
    ensures r == LiesUnder(asset, path, allowRoot)
    ensures r.Below? && path.Path? ==> asset + r.rest == path.components && (r.rest == [] ==> allowRoot)
    ensures r.Elsewhere? ==> path.Path? && !(asset < path.components) && !(asset == path.components && allowRoot)
  {
    match path
    case NoPath => r := if allowRoot && asset == [] then Below([]) else Unsafe;
    case BadPath => r := Unsafe;
    case Path(components) =>
      if |components| < |asset| { return Elsewhere; }
      for i := 0 to |asset|
        invariant asset[..i] == components[..i]
      {
        if asset[i] != components[i] {
          return Elsewhere;
        }
      }
      assert asset[..|asset|] == asset;
      var rest := components[|asset|..];
      r := if rest != [] || allowRoot then Below(rest) else Elsewhere;
  }

  function LiesUnder(asset: seq<bytes>, path: Path, allowRoot: bool): Lies {
    match path
    case NoPath => if allowRoot && asset == [] then Below([]) else Unsafe
    case BadPath => Unsafe
    case Path(c) => if asset < c || (asset == c && allowRoot) then Below(c[|asset|..]) else Elsewhere
  }

  predicate NoPreset(t: Target) { t.presetAlgorithm == NoAlgorithm && t.presetDigest == [] }

  predicate Unlocated(t: Target) { NoPreset(t) && !t.place.located }

  predicate ValidPresetShape(c: Collector, t: Target) {
    var kind, part := t.about.kind, t.about.subject.part;
    if t.preset == Some(Complete) && (kind == ContainerIdentity || (kind == SemanticHash && part == CredentialConfig)) then
      && (kind == SemanticHash ==> c == Surfaces)
      && t.presetAlgorithm == Sha256 && LowercaseDigest(t.presetDigest) && !t.place.located
    else if kind == PackageContent || kind == ContainerIdentity then
      (t.preset == Some(Unsupported) || t.preset == Some(Skipped)) && Unlocated(t)
    else if kind == FileHash && (t.preset == Some(Oversize) || t.preset == Some(Unavailable))
            && ((c == Projects && (part == ProjectFile || part == DeveloperFile)) || (c == Surfaces && part == DeveloperFile)) then
      Unlocated(t)
    else if t.preset.Some? then
      (t.preset == Some(Unsupported) || t.preset == Some(Skipped)) && Unlocated(t)
    else if kind == SemanticHash then Unlocated(t)
    else NoPreset(t)
  }

  predicate ValidProjectBinding(c: Collector, t: Target, a: Asset, o: Observation) {
    c == Projects && t.about.kind == FileHash && a.isProject && o.projectRoot && o.projectID == t.about.assetID
  }

  /**
   * A status settled by the collector: skipped or unsupported anywhere; an identity with its digest, of a container or of
   * the surfaces' credential settings; a file that could not be read, of the projects or the surfaces. None of them has a
   * place, and without one there is no digest either.
   */
  predicate PresetFits(c: Collector, t: Target) {
    var kind, part, bare := t.about.kind, t.about.subject.part, t.presetAlgorithm == NoAlgorithm && t.presetDigest == [];
    || (t.preset.None? && bare && kind !in {PackageContent, ContainerIdentity} && (kind == SemanticHash ==> !t.place.located))
    || (t.preset in {Some(Unsupported), Some(Skipped)} && bare && !t.place.located)
    || (t.preset == Some(Complete) && IsDigest(t.presetAlgorithm, t.presetDigest) && !t.place.located
        && (kind == ContainerIdentity || (kind == SemanticHash && part == CredentialConfig && c == Surfaces)))
    || (t.preset in {Some(Oversize), Some(Unavailable)} && bare && !t.place.located && kind == FileHash
        && ((part == DeveloperFile && c in {Projects, Surfaces}) || (part == ProjectFile && c == Projects)))
  }

  lemma PresetShapesFit(c: Collector, t: Target)
    ensures ValidPresetShape(c, t) <==> PresetFits(c, t)
  {}

  /** The target is where its asset is: its anchor strictly below it, and itself below it, or, for a tree, at it. */
  predicate Located(t: Target) {
    && t.place.shaped
    && (t.place.anchor == NoPath || (t.place.anchor.Path? && t.place.asset < t.place.anchor.components))
    && (t.place.target.Path? ==>
          t.place.asset < t.place.target.components || (t.place.asset == t.place.target.components && t.about.kind == TreeHash))
  }

  /** What a target must be to be taken, whatever order it is checked in. */
  predicate Admissible(rules: Rules, o: Offer, assets: map<bytes, Asset>, observations: map<bytes, Observation>) {
    var t, a := o.target, o.target.about;
    && o.issued && rules.wellNamed(t.targetID, o.collector)
    && a.assetID in assets && a.observationID in observations
    && observations[a.observationID].assetID == a.assetID && observations[a.observationID].collector == o.collector
    && (a.subject.part == ProjectFile ==>
          && o.collector == Projects && a.kind == FileHash && assets[a.assetID].isProject
          && observations[a.observationID].projectRoot && observations[a.observationID].projectID == a.assetID)
    && ValidKindSubject(a.kind, a.subject) && PresetFits(o.collector, t) && Nameable(rules.naming, a)
    && (t.preset.None? && a.kind != SemanticHash ==> Located(t))
  }

  /** validateIssuedCandidate; None rejects the target. */
  function Accept(rules: Rules, o: Offer, assets: map<bytes, Asset>, observations: map<bytes, Observation>)
    : (r: Option<Candidate>)
    ensures r.Some? ==>
              && r.value.target == o.target && r.value.evidenceID == IDOf(rules.naming, o.target.about)
              && Acceptable(rules.naming, r.value)
              && o.target.about.assetID in assets && o.target.about.observationID in observations
              && observations[o.target.about.observationID].assetID == o.target.about.assetID
  {
    var t, a := o.target, o.target.about;
    var plain := Candidate(t, IDOf(rules.naming, a), false, []);
    if !o.issued || !rules.wellNamed(t.targetID, o.collector) then None
    else if a.assetID !in assets || a.observationID !in observations then None
    else
      var observation := observations[a.observationID];
      if observation.assetID != a.assetID || observation.collector != o.collector then None
      else if a.subject.part == ProjectFile && !ValidProjectBinding(o.collector, t, assets[a.assetID], observation) then None
      else if !ValidKindSubject(a.kind, a.subject) || !ValidPresetShape(o.collector, t) || !Nameable(rules.naming, a) then None
      else if t.preset.Some? || a.kind == SemanticHash then Some(plain)
      else if !t.place.shaped then None
      else if t.place.anchor != NoPath && !LiesUnder(t.place.asset, t.place.anchor, false).Below? then None
      else match LiesUnder(t.place.asset, t.place.target, a.kind == TreeHash)
        case Unsafe => Some(plain.(pathInvalid := true))
        case Elsewhere => None
        case Below(rest) => Some(plain.(relative := rest))
  }

  /**
   * A target is accepted exactly when it is admissible. Its path is then invalid when it is not safe, or is missing
   * where only a tree at the asset's root may leave it out; otherwise it completes the asset's own path.
   */
  lemma AcceptedIffAdmissible(rules: Rules, o: Offer, assets: map<bytes, Asset>, observations: map<bytes, Observation>)
    ensures var r := Accept(rules, o, assets, observations);
            && (r.Some? <==> Admissible(rules, o, assets, observations))
            && (r.Some? && o.target.preset.None? && o.target.about.kind != SemanticHash ==>
                  var place := o.target.place;
                  && (r.value.pathInvalid <==>
                        || place.target == BadPath
                        || (place.target == NoPath && !(o.target.about.kind == TreeHash && place.asset == [])))
                  && (place.target.Path? ==> place.asset + r.value.relative == place.target.components))
  {
    hide ValidKindSubject, Nameable, IDOf, ValidPresetShape, PresetFits, Acceptable;
    PresetShapesFit(o.collector, o.target);
  }

  /** What every accepted candidate satisfies, and what its record relies on. */
  predicate Acceptable(n: Naming, c: Candidate) {
    && Nameable(n, c.target.about) && ValidKindSubject(c.target.about.kind, c.target.about.subject)
    && c.evidenceID == IDOf(n, c.target.about)
    && (c.target.preset.Some? ==> Finalizable(n, c.target.about, PresetValue(c.target)))
    && (c.target.preset.None? ==> c.target.about.kind in {FileHash, TreeHash, SemanticHash})
    && (c.pathInvalid ==> c.target.preset.None? && c.target.about.kind != SemanticHash)
  }

  // --------------------------------------------------------------- one target

  function Unreadable(e: Error): Value { BLANK.(status := Unavailable, errors := [e]) }

  /** presetRecord, for the status a collector already settled. */
  function PresetValue(t: Target): Value
    requires t.preset.Some?
  {
    match t.preset.value
    case Complete => BLANK.(status := Complete, algorithm := t.presetAlgorithm, digest := t.presetDigest)
    case Oversize => BLANK.(status := Oversize, errors := [FileByteLimit])
    case Unavailable => BLANK.(status := Unavailable, errors := [FileUnavailable])
    case status => BLANK.(status := status)
  }

  datatype TargetResult = TargetResult(
    targetID: bytes, assetID: bytes, observationID: bytes, evidenceID: bytes, status: Status, errors: seq<Error>)

  datatype Collected = Collected(evidence: Value, coverage: TargetResult)

  /** A record and the coverage line that goes with it, both of one candidate. */
  ghost predicate Records(n: Naming, c: Candidate, r: Collected) {
    && (exists v :: Finalized(n, c.target.about, v) == Some(r.evidence))
    && AboutOf(r.evidence) == c.target.about && r.evidence.id == c.evidenceID
    && r.coverage == TargetResult(c.target.targetID, c.target.about.assetID, c.target.about.observationID, c.evidenceID,
                                  r.evidence.status, r.evidence.errors)
  }

  function CoverageOf(c: Candidate, final: Value): TargetResult {
    var about := c.target.about;
    TargetResult(c.target.targetID, about.assetID, about.observationID, c.evidenceID, final.status, final.errors)
  }

  /** The unavailable fallback is always a record, for a kind that can be read. */
  lemma FallbackIsRecord(n: Naming, c: Candidate, e: Error)
    requires Acceptable(n, c) && c.target.preset.None?
    requires e in {CollectionUnavailable, TargetDeadline, TargetPathInvalid, TargetIdentityChanged}
    ensures Finalizable(n, c.target.about, Unreadable(e))
  {}

  lemma FinalizedRecords(n: Naming, c: Candidate, v: Value)
    requires Acceptable(n, c) && Finalizable(n, c.target.about, v)
    ensures Finalized(n, c.target.about, v).Some?
    ensures var final := Finalized(n, c.target.about, v).value;
            && Records(n, c, Collected(final, CoverageOf(c, final)))
            && final.status == v.status && (v.status == Complete ==> final.digest == v.digest)
  {}

  lemma OneError(n: Naming, a: About, v: Value, e: Error)
    requires Finalizable(n, a, v) && v.errors == [e] && v.status in {Unavailable, Oversize}
    ensures Finalized(n, a, v).value.errors == [e]
  {
    SortErrorsSorts([e]);
  }

  /** The value that is recorded when reading gave `read`, or panicked. */
  function Recorded(n: Naming, a: About, read: Option<Value>): Value {
    if read.Some? && Finalizable(n, a, read.value) then read.value else Unreadable(CollectionUnavailable)
  }

  /**
   * safeCollectOne and collectOne: whatever reading gives, and if it panics, the candidate gets a record of
   * its own: the value read, or the unavailable fallback; a settled status and digest are recorded as they are.
   */
  method CollectOne(n: Naming, c: Candidate) returns (r: Collected, ghost read: Option<Value>)
    requires Acceptable(n, c)
    ensures Records(n, c, r)
    ensures c.target.preset.Some? ==> r.evidence.status == c.target.preset.value
    ensures c.target.preset == Some(Complete) ==> r.evidence.digest == c.target.presetDigest
    ensures c.target.preset == Some(Oversize) ==> r.evidence.errors == [FileByteLimit]
    ensures c.target.preset == Some(Unavailable) ==> r.evidence.errors == [FileUnavailable]
    ensures c.target.preset.None? && !c.pathInvalid && (read.None? || !Finalizable(n, c.target.about, read.value)) ==>
              r.evidence.status == Unavailable && r.evidence.errors == [CollectionUnavailable]
    ensures c.target.preset.None? && !c.pathInvalid && read.Some? && Finalizable(n, c.target.about, read.value) ==>
              r.evidence.status == read.value.status
    ensures c.pathInvalid ==> r.evidence.status == Unavailable && r.evidence.errors == [TargetPathInvalid]
    ensures c.target.preset.None? && !c.pathInvalid ==>
              Some(r.evidence) == Finalized(n, c.target.about, Recorded(n, c.target.about, read))
  {
    hide Finalized, Finalizable, Records, Acceptable;
    var value: Value;
    read := None;
    CandidateKinds(n, c);
    if c.target.preset.Some? {
      value := PresetValue(c.target);
    } else if c.pathInvalid {
      value := Unreadable(TargetPathInvalid);
      FallbackIsRecord(n, c, TargetPathInvalid);
    } else {
      // The file system, or a semantic hasher, is read here; it may panic.
      var panics: bool := *;
      if panics {
        FallbackIsRecord(n, c, CollectionUnavailable);
        FinalizedRecords(n, c, Unreadable(CollectionUnavailable));
        OneError(n, c.target.about, Unreadable(CollectionUnavailable), CollectionUnavailable);
        var last := FinalizeRecord(n, c.target.about, Unreadable(CollectionUnavailable));
        return Collected(last.value, CoverageOf(c, last.value)), None;
      }
      value := *;
      read := Some(value);
    }
    var final := FinalizeRecord(n, c.target.about, value);
    FinalizesIff(n, c.target.about, value);
    if final.None? {
      FallbackIsRecord(n, c, CollectionUnavailable);
      value := Unreadable(CollectionUnavailable);
      final := FinalizeRecord(n, c.target.about, value);
    }
    FinalizedRecords(n, c, value);
    if |value.errors| == 1 && value.status in {Unavailable, Oversize} { OneError(n, c.target.about, value, value.errors[0]); }
    r := Collected(final.value, CoverageOf(c, final.value));
  }

  lemma CandidateKinds(n: Naming, c: Candidate)
    requires Acceptable(n, c)
    ensures c.target.preset.Some? ==> Finalizable(n, c.target.about, PresetValue(c.target))
    ensures c.pathInvalid ==> c.target.preset.None?
  {}

  lemma FinalizesIff(n: Naming, a: About, v: Value)
    ensures Finalized(n, a, v).Some? <==> Finalizable(n, a, v)
  {}

  // ------------------------------------------------------------------- a pass

  datatype CoverageStatus = CoverageComplete | CoveragePartial | CoverageSkipped

  // `rejections` counts the errors of a pass, which are all the same.
  datatype Collection = Collection(rejections: nat, evidence: seq<Value>, targets: seq<TargetResult>, status: CoverageStatus)

  function AssetID(a: Asset): bytes { a.id }

  function ObservationID(o: Observation): bytes { o.id }

  predicate AnyAsset(a: Asset) { true }

  ghost predicate GraphMaps(rules: Rules, inv: Inventory, assets: map<bytes, Asset>, observations: map<bytes, Observation>) {
    && (forall k :: k in assets <==> StandsFor(inv.assets, AssetID, AnyAsset, k))
    && (forall k | k in assets :: [assets[k]] == Carriers(inv.assets, AssetID, k))
    && (forall k :: k in observations <==> StandsFor(inv.observations, ObservationID, rules.identified, k))
    && (forall k | k in observations :: [observations[k]] == Carriers(inv.observations, ObservationID, k))
  }

  function AcceptAll(rules: Rules, offers: seq<Offer>, assets: map<bytes, Asset>, observations: map<bytes, Observation>)
    : seq<Candidate>
  {
    if offers == [] then []
    else
      AcceptAll(rules, offers[..|offers| - 1], assets, observations)
      + (match Accept(rules, offers[|offers| - 1], assets, observations) case None => [] case Some(c) => [c])
  }

  function EvidenceIDs(cs: seq<Candidate>): seq<bytes> { seq(|cs|, i requires 0 <= i < |cs| => cs[i].evidenceID) }

  function Binding(c: Candidate): (bytes, bytes) { (c.target.targetID, c.target.about.observationID) }

  function Bindings(cs: seq<Candidate>): seq<(bytes, bytes)> { seq(|cs|, i requires 0 <= i < |cs| => Binding(cs[i])) }

  /** The accepted candidates that no other accepted one matches in evidence or in binding. */
  function Chosen(all: seq<Candidate>, n: nat): set<Candidate>
    requires n <= |all|
  {
    set c | c in all[..n] && multiset(EvidenceIDs(all))[c.evidenceID] == 1 && multiset(Bindings(all))[Binding(c)] == 1
  }

  /** The offer is admissible, and no other admissible one has its evidence ID or its binding. */
  ghost predicate Alone(rules: Rules, offers: seq<Offer>, assets: map<bytes, Asset>, observations: map<bytes, Observation>,
                        i: nat)
  {
    && i < |offers| && Admissible(rules, offers[i], assets, observations)
    && forall j | 0 <= j < |offers| && j != i && Admissible(rules, offers[j], assets, observations) ::
         var mine, other := offers[i].target, offers[j].target;
         && IDOf(rules.naming, mine.about) != IDOf(rules.naming, other.about)
         && !(mine.targetID == other.targetID && mine.about.observationID == other.about.observationID)
  }

  /** Where the accepted candidates come from: the admissible offers, in order. */
  function Sources(rules: Rules, offers: seq<Offer>, assets: map<bytes, Asset>, observations: map<bytes, Observation>): seq<nat> {
    if offers == [] then []
    else
      var n := |offers| - 1;
      Sources(rules, offers[..n], assets, observations)
      + (if Accept(rules, offers[n], assets, observations).Some? then [n] else [])
  }

  lemma {:induction false} SourcesAreAdmissible(
    rules: Rules, offers: seq<Offer>, assets: map<bytes, Asset>, observations: map<bytes, Observation>)
    ensures var at, all := Sources(rules, offers, assets, observations), AcceptAll(rules, offers, assets, observations);
            && |at| == |all|
            && (forall k | 0 <= k < |at| ::
                  at[k] < |offers| && Accept(rules, offers[at[k]], assets, observations) == Some(all[k]))
            && (forall k, l | 0 <= k < l < |at| :: at[k] < at[l])
            && (forall i: nat | i < |offers| && Accept(rules, offers[i], assets, observations).Some? :: i in at)
  {
    hide Accept;
    if offers != [] {
      var n := |offers| - 1;
      SourcesAreAdmissible(rules, offers[..n], assets, observations);
      assert forall i | 0 <= i < n :: offers[..n][i] == offers[i];
    }
  }

  lemma OnceInMultiset<T>(s: seq<T>, i: nat)
    requires i < |s|
    ensures multiset(s)[s[i]] == 1 <==> forall j | 0 <= j < |s| && j != i :: s[j] != s[i]
  {
    assert s == s[..i] + [s[i]] + s[i + 1..];
    if multiset(s)[s[i]] == 1 {
      forall j: nat | j < i
        ensures s[j] != s[i]
      {
        if s[j] == s[i] { TwiceInMultiset(s, j, i); }
      }
      forall j: nat | i < j < |s|
        ensures s[j] != s[i]
      {
        if s[j] == s[i] { TwiceInMultiset(s, i, j); }
      }
    } else {
      assert s[i] in multiset(s[..i]) || s[i] in multiset(s[i + 1..]);
      if s[i] in s[..i] {
        var j :| 0 <= j < i && s[j] == s[i];
      } else {
        var j :| 0 <= j < |s[i + 1..]| && s[i + 1..][j] == s[i];
        assert s[i + 1 + j] == s[i];
      }
    }
  }

  ghost predicate AloneAmong(all: seq<Candidate>, k: nat)
    requires k < |all|
  {
    forall l | 0 <= l < |all| && l != k :: all[l].evidenceID != all[k].evidenceID && Binding(all[l]) != Binding(all[k])
  }

  lemma ChosenAmong(all: seq<Candidate>, k: nat)
    requires k < |all|
    ensures all[k] in Chosen(all, |all|) <==> AloneAmong(all, k)
  {
    var ids, bindings := EvidenceIDs(all), Bindings(all);
    OnceInMultiset(ids, k);
    OnceInMultiset(bindings, k);
    assert forall l | 0 <= l < |all| :: ids[l] == all[l].evidenceID && bindings[l] == Binding(all[l]);
    assert all[..|all|] == all;
  }

  lemma {:induction false} AloneIffAmong(
    rules: Rules, offers: seq<Offer>, assets: map<bytes, Asset>, observations: map<bytes, Observation>, k: nat)
    requires k < |Sources(rules, offers, assets, observations)|
    ensures var all, at := AcceptAll(rules, offers, assets, observations), Sources(rules, offers, assets, observations);
            && |at| == |all| && (Alone(rules, offers, assets, observations, at[k]) <==> AloneAmong(all, k))
  {
    hide Accept, Admissible;
    var all, at := AcceptAll(rules, offers, assets, observations), Sources(rules, offers, assets, observations);
    SourcesAreAdmissible(rules, offers, assets, observations);
    forall i | 0 <= i < |offers|
      ensures Accept(rules, offers[i], assets, observations).Some? <==> Admissible(rules, offers[i], assets, observations)
    {
      AcceptedIffAdmissible(rules, offers[i], assets, observations);
    }
    hide AcceptAll, Sources;
    if Alone(rules, offers, assets, observations, at[k]) {
      forall l | 0 <= l < |all| && l != k
        ensures all[l].evidenceID != all[k].evidenceID && Binding(all[l]) != Binding(all[k])
      {
        assert at[l] != at[k];
      }
    } else {
      var j :| 0 <= j < |offers| && j != at[k] && Admissible(rules, offers[j], assets, observations)
               && (IDOf(rules.naming, offers[j].target.about) == IDOf(rules.naming, offers[at[k]].target.about)
                   || (offers[j].target.targetID == offers[at[k]].target.targetID
                       && offers[j].target.about.observationID == offers[at[k]].target.about.observationID));
      var l :| 0 <= l < |at| && at[l] == j;
      assert l != k && all[l].target == offers[j].target;
    }
  }

  // The offers of a pass that get a record: those that stand alone.
  ghost predicate RecordedFrom(rules: Rules, offers: seq<Offer>, assets: map<bytes, Asset>, observations: map<bytes, Observation>,
                               c: Candidate)
  {
    exists i: nat :: Alone(rules, offers, assets, observations, i) && c.target == offers[i].target
                     && c.evidenceID == IDOf(rules.naming, offers[i].target.about)
  }

  /** Chosen are the candidates of the offers that stand alone. */
  lemma {:induction false} ChosenStandAlone(
    rules: Rules, offers: seq<Offer>, assets: map<bytes, Asset>, observations: map<bytes, Observation>)
    ensures var all := AcceptAll(rules, offers, assets, observations);
            && (forall c | c in Chosen(all, |all|) :: RecordedFrom(rules, offers, assets, observations, c))
            && (forall i: nat | Alone(rules, offers, assets, observations, i) ::
                  exists c :: c in Chosen(all, |all|) && c.target == offers[i].target)
  {
    hide Accept, Admissible, Chosen;
    var all, at := AcceptAll(rules, offers, assets, observations), Sources(rules, offers, assets, observations);
    SourcesAreAdmissible(rules, offers, assets, observations);
    hide AcceptAll, Sources;
    forall c | c in Chosen(all, |all|)
      ensures RecordedFrom(rules, offers, assets, observations, c)
    {
      ChosenAreFromAll(all, c);
      var k :| 0 <= k < |all| && all[k] == c;
      ChosenAmong(all, k);
      AloneIffAmong(rules, offers, assets, observations, k);
    }
    forall i: nat | Alone(rules, offers, assets, observations, i)
      ensures exists c :: c in Chosen(all, |all|) && c.target == offers[i].target
    {
      AcceptedIffAdmissible(rules, offers[i], assets, observations);
      var k :| 0 <= k < |at| && at[k] == i;
      ChosenAmong(all, k);
      AloneIffAmong(rules, offers, assets, observations, k);
    }
  }

  lemma ChosenAreFromAll(all: seq<Candidate>, c: Candidate)
    requires c in Chosen(all, |all|)
    ensures c in all
  {}

  lemma TwiceInMultiset<T>(s: seq<T>, i: nat, j: nat)
    requires i < j < |s| && s[i] == s[j]
    ensures multiset(s)[s[i]] >= 2
  {
    assert s == s[..i] + [s[i]] + s[i + 1..j] + [s[j]] + s[j + 1..];
  }

  /** Candidates with one evidence ID are one candidate, once one of them is chosen. */
  lemma ChosenComeOnce(all: seq<Candidate>, i: nat, j: nat)
    requires i < |all| && j < |all| && all[i].evidenceID == all[j].evidenceID
    requires multiset(EvidenceIDs(all))[all[i].evidenceID] == 1
    ensures i == j
  {
    var ids := EvidenceIDs(all);
    assert ids[i] == all[i].evidenceID && ids[j] == all[j].evidenceID;
    if i < j { TwiceInMultiset(ids, i, j); } else if j < i { TwiceInMultiset(ids, j, i); }
  }

  function CandidateKey(c: Candidate): seq<bytes> { [c.target.targetID, c.target.about.observationID, c.evidenceID] }

  lemma ChosenAreDistinguished(all: seq<Candidate>)
    ensures Distinguishes(CandidateKey, Chosen(all, |all|))
    ensures forall c, d | c in Chosen(all, |all|) && d in Chosen(all, |all|) && c.evidenceID == d.evidenceID :: c == d
  {
    hide Chosen;
    forall c, d | c in Chosen(all, |all|) && d in Chosen(all, |all|) && c.evidenceID == d.evidenceID
      ensures c == d
    {
      ChosenAreOne(all, c, d);
    }
    forall c, d | c in Chosen(all, |all|) && d in Chosen(all, |all|) && c != d
      ensures CandidateKey(c) != CandidateKey(d)
    {
      assert CandidateKey(c)[2] == c.evidenceID && CandidateKey(d)[2] == d.evidenceID;
    }
  }

  lemma ChosenAreOne(all: seq<Candidate>, c: Candidate, d: Candidate)
    requires c in Chosen(all, |all|) && d in Chosen(all, |all|) && c.evidenceID == d.evidenceID
    ensures c == d
  {
    var i :| 0 <= i < |all| && all[i] == c;
    var j :| 0 <= j < |all| && all[j] == d;
    ChosenComeOnce(all, i, j);
  }

  lemma NextChosen(all: seq<Candidate>, i: nat)
    requires i < |all|
    ensures var taken := multiset(EvidenceIDs(all))[all[i].evidenceID] == 1 && multiset(Bindings(all))[Binding(all[i])] == 1;
            && Chosen(all, i + 1) == (if taken then Chosen(all, i) + {all[i]} else Chosen(all, i))
            && (taken ==> all[i] !in Chosen(all, i))
  {
    assert all[..i + 1] == all[..i] + [all[i]];
    if multiset(EvidenceIDs(all))[all[i].evidenceID] == 1 && all[i] in all[..i] {
      var j :| 0 <= j < i && all[j] == all[i];
      ChosenComeOnce(all, i, j);
    }
  }

  /** The second pass: every candidate that shares its evidence or its binding is rejected, the first one too. */
  method Choose(all: seq<Candidate>) returns (chosen: set<Candidate>, rejections: nat)
    ensures chosen == Chosen(all, |all|) && |chosen| + rejections == |all|
  {
    hide Chosen;
    var ids, bindings := multiset{}, multiset{};
    for i := 0 to |all|
      invariant ids == multiset(EvidenceIDs(all)[..i]) && bindings == multiset(Bindings(all)[..i])
    {
      assert EvidenceIDs(all)[..i + 1] == EvidenceIDs(all)[..i] + [all[i].evidenceID];
      assert Bindings(all)[..i + 1] == Bindings(all)[..i] + [Binding(all[i])];
      ids, bindings := ids + multiset{all[i].evidenceID}, bindings + multiset{Binding(all[i])};
    }
    assert EvidenceIDs(all)[..|all|] == EvidenceIDs(all) && Bindings(all)[..|all|] == Bindings(all);
    chosen, rejections := {}, 0;
    NoneChosen(all);
    for i := 0 to |all|
      invariant chosen == Chosen(all, i) && |chosen| + rejections == i
    {
      NextChosen(all, i);
      if ids[all[i].evidenceID] != 1 || bindings[Binding(all[i])] != 1 {
        rejections := rejections + 1;
      } else {
        chosen := chosen + {all[i]};
      }
    }
  }

  lemma NoneChosen(all: seq<Candidate>)
    ensures Chosen(all, 0) == {}
  {}

  /** The workers take candidates in any order; each result goes to its candidate's place. */
  method RunWorkers(n: Naming, candidates: seq<Candidate>) returns (completed: map<nat, Collected>)
    requires forall c | c in candidates :: Acceptable(n, c)
    ensures forall i: nat :: i in completed <==> i < |candidates|
    ensures forall i | i in completed :: Records(n, candidates[i], completed[i])
  {
    completed := map[];
    var jobs: set<nat> := {};
    for k := 0 to |candidates|
      invariant forall i: nat :: i in jobs <==> i < k
    {
      jobs := jobs + {k};
    }
    while jobs != {}
      invariant forall i: nat :: i in completed || i in jobs <==> i < |candidates|
      invariant forall i | i in completed :: Records(n, candidates[i], completed[i])
      decreases |jobs|
    {
      hide Records;
      var i :| i in jobs;
      var r, _ := CollectOne(n, candidates[i]);
      completed, jobs := completed[i := r], jobs - {i};
    }
  }

  function StatusOf(rejections: nat, evidence: seq<Value>): CoverageStatus {
    if rejections > 0 || (exists v <- evidence :: v.status in {Unsupported, Partial, Oversize, Unavailable}) then CoveragePartial
    else if evidence != [] && (forall v | v in evidence :: v.status == Skipped) then CoverageSkipped
    else CoverageComplete
  }

  /** The records of a pass are those of `candidates`, in order. */
  ghost predicate RecordsAll(n: Naming, candidates: seq<Candidate>, c: Collection) {
    && |c.evidence| == |c.targets| == |candidates|
    && forall i | 0 <= i < |candidates| :: Records(n, candidates[i], Collected(c.evidence[i], c.targets[i]))
  }

  /**
   * Collect: each target handed in costs one rejection or gets one record and its coverage line, in the order of
   * target, observation and evidence; exactly the accepted targets that share neither evidence nor binding get one.
   */
  method Collect(rules: Rules, inv: Inventory, offers: seq<Offer>)
    returns (c: Collection, ghost assets: map<bytes, Asset>, ghost observations: map<bytes, Observation>,
             ghost candidates: seq<Candidate>)
    ensures GraphMaps(rules, inv, assets, observations)
    ensures forall k, a :: k in assets && assets[k] == a <==> k != [] && OnlyOne(inv.assets, AssetID, k, a)
    ensures forall k, o :: k in observations && observations[k] == o
              <==> k != [] && OnlyOne(inv.observations, ObservationID, k, o) && rules.identified(o)
    ensures c.rejections + |c.evidence| == |offers|
    ensures var all := AcceptAll(rules, offers, assets, observations);
            multiset(candidates) == multiset(Chosen(all, |all|)) && InKeyOrder(CandidateKey, candidates)
    ensures RecordsAll(rules.naming, candidates, c)
    ensures RecordsAlone(rules, offers, assets, observations, candidates)
    ensures forall i, j | 0 <= i < j < |c.targets| :: LineBefore(c.targets[i], c.targets[j])
    ensures forall i, j | 0 <= i < j < |c.evidence| :: c.evidence[i].id != c.evidence[j].id
    ensures c.status == StatusOf(c.rejections, c.evidence)
  {
    hide Accept, Records, Chosen, StatusOf, RecordsAll, Acceptable, AcceptAll, StandsFor, Carriers, RecordsAlone;
    var assetMap := UniqueByID(inv.assets, AssetID, AnyAsset);
    var observationMap := UniqueByID(inv.observations, ObservationID, rules.identified);
    assets, observations := assetMap, observationMap;
    AssetsAreOnes(inv, assets);
    ObservationsAreOnes(rules, inv, observations);
    var all, rejections := AcceptOffers(rules, offers, assetMap, observationMap);
    var chosen, shared := Choose(all);
    ChosenAreDistinguished(all);
    var sorted := SortSet(CandidateKey, chosen);
    candidates := sorted;
    ChosenAreAcceptable(rules, offers, assets, observations, sorted);
    c := Assemble(rules.naming, sorted, rejections + shared);
    IDsDiffer(rules.naming, all, sorted, c);
    TheseStandAlone(rules, offers, assets, observations, sorted);
    LinesInOrder(rules.naming, sorted, c);
    OneRecordEach(rules.naming, sorted, c);
    assert |sorted| == |multiset(sorted)| == |multiset(chosen)| == |chosen|;
  }

  /** Coverage lines come by target, then by observation, and then by evidence. */
  predicate LineBefore(a: TargetResult, b: TargetResult) {
    || Less(a.targetID, b.targetID)
    || (a.targetID == b.targetID
        && (Less(a.observationID, b.observationID)
            || (a.observationID == b.observationID && Less(a.evidenceID, b.evidenceID))))
  }

  lemma LinesInOrder(n: Naming, candidates: seq<Candidate>, c: Collection)
    requires InKeyOrder(CandidateKey, candidates) && RecordsAll(n, candidates, c)
    ensures forall i, j | 0 <= i < j < |c.targets| :: LineBefore(c.targets[i], c.targets[j])
  {
    hide Less, ColumnsLess;
    ColumnsIrreflexive([]);
    forall i, j | 0 <= i < j < |c.targets|
      ensures LineBefore(c.targets[i], c.targets[j])
    {
      assert Records(n, candidates[i], Collected(c.evidence[i], c.targets[i]));
      assert Records(n, candidates[j], Collected(c.evidence[j], c.targets[j]));
      hide Records;
      KeyPutsLineBefore(candidates[i], candidates[j], c.targets[i], c.targets[j]);
    }
  }

  lemma KeyPutsLineBefore(c: Candidate, d: Candidate, a: TargetResult, b: TargetResult)
    requires ColumnsLess(CandidateKey(c), CandidateKey(d))
    requires a.targetID == c.target.targetID && a.observationID == c.target.about.observationID && a.evidenceID == c.evidenceID
    requires b.targetID == d.target.targetID && b.observationID == d.target.about.observationID && b.evidenceID == d.evidenceID
    ensures LineBefore(a, b)
  {
    hide Less, ColumnsLess;
    ColumnsIrreflexive([]);
    assert CandidateKey(c) == [a.targetID] + [a.observationID, a.evidenceID];
    assert CandidateKey(d) == [b.targetID] + [b.observationID, b.evidenceID];
    NextColumn(a.targetID, [a.observationID, a.evidenceID], b.targetID, [b.observationID, b.evidenceID]);
    assert [a.observationID, a.evidenceID] == [a.observationID] + [a.evidenceID];
    assert [b.observationID, b.evidenceID] == [b.observationID] + [b.evidenceID];
    NextColumn(a.observationID, [a.evidenceID], b.observationID, [b.evidenceID]);
    assert [a.evidenceID] == [a.evidenceID] + [] && [b.evidenceID] == [b.evidenceID] + [];
    NextColumn(a.evidenceID, [], b.evidenceID, []);
  }

  /** The candidates are of the offers that stand alone, and every such offer has one. */
  ghost predicate RecordsAlone(rules: Rules, offers: seq<Offer>, assets: map<bytes, Asset>, observations: map<bytes, Observation>,
                               candidates: seq<Candidate>)
  {
    && (forall c | c in candidates :: RecordedFrom(rules, offers, assets, observations, c))
    && (forall i: nat | Alone(rules, offers, assets, observations, i) ::
          exists c :: c in candidates && c.target == offers[i].target)
  }

  lemma {:induction false} TheseStandAlone(
    rules: Rules, offers: seq<Offer>, assets: map<bytes, Asset>, observations: map<bytes, Observation>,
    candidates: seq<Candidate>)
    requires var all := AcceptAll(rules, offers, assets, observations);
             multiset(candidates) == multiset(Chosen(all, |all|))
    ensures RecordsAlone(rules, offers, assets, observations, candidates)
  {
    hide Chosen, AcceptAll, Accept, Alone, RecordedFrom;
    ChosenStandAlone(rules, offers, assets, observations);
    var all := AcceptAll(rules, offers, assets, observations);
    forall c
      ensures c in candidates <==> c in Chosen(all, |all|)
    {
      assert c in candidates <==> c in multiset(candidates);
    }
  }

  lemma AssetsAreOnes(inv: Inventory, assets: map<bytes, Asset>)
    requires forall k :: k in assets <==> StandsFor(inv.assets, AssetID, AnyAsset, k)
    requires forall k | k in assets :: [assets[k]] == Carriers(inv.assets, AssetID, k)
    ensures forall k, a :: k in assets && assets[k] == a <==> k != [] && OnlyOne(inv.assets, AssetID, k, a)
  {
    hide Carriers, OnlyOne;
    forall k, a
      ensures k in assets && assets[k] == a <==> k != [] && OnlyOne(inv.assets, AssetID, k, a)
    {
      CarrierIsOnlyOne(inv.assets, AssetID, k, a);
    }
  }

  lemma ObservationsAreOnes(rules: Rules, inv: Inventory, observations: map<bytes, Observation>)
    requires forall k :: k in observations <==> StandsFor(inv.observations, ObservationID, rules.identified, k)
    requires forall k | k in observations :: [observations[k]] == Carriers(inv.observations, ObservationID, k)
    ensures forall k, o :: k in observations && observations[k] == o
              <==> k != [] && OnlyOne(inv.observations, ObservationID, k, o) && rules.identified(o)
  {
    hide Carriers, OnlyOne;
    forall k, o
      ensures k in observations && observations[k] == o
              <==> k != [] && OnlyOne(inv.observations, ObservationID, k, o) && rules.identified(o)
    {
      CarrierIsOnlyOne(inv.observations, ObservationID, k, o);
    }
  }

  lemma OneRecordEach(n: Naming, candidates: seq<Candidate>, c: Collection)
    requires RecordsAll(n, candidates, c)
    ensures |c.evidence| == |candidates|
  {}

  method Assemble(n: Naming, candidates: seq<Candidate>, rejections: nat) returns (c: Collection)
    requires forall c | c in candidates :: Acceptable(n, c)
    ensures RecordsAll(n, candidates, c) && c.rejections == rejections && c.status == StatusOf(rejections, c.evidence)
  {
    hide Records, StatusOf, Acceptable;
    var completed := RunWorkers(n, candidates);
    var evidence, targets := [], [];
    for i := 0 to |candidates|
      invariant |evidence| == |targets| == i
      invariant forall k | 0 <= k < i :: evidence[k] == completed[k].evidence && targets[k] == completed[k].coverage
    {
      evidence, targets := evidence + [completed[i].evidence], targets + [completed[i].coverage];
    }
    var status := EvidenceCoverageStatus(rejections, evidence);
    c := Collection(rejections, evidence, targets, status);
    RecordsOfAll(n, candidates, c, completed);
  }

  lemma RecordsOfAll(n: Naming, candidates: seq<Candidate>, c: Collection, completed: map<nat, Collected>)
    requires |c.evidence| == |c.targets| == |candidates|
    requires forall i: nat :: i in completed <==> i < |candidates|
    requires forall i | i in completed :: Records(n, candidates[i], completed[i])
    requires forall k | 0 <= k < |candidates| :: c.evidence[k] == completed[k].evidence && c.targets[k] == completed[k].coverage
    ensures RecordsAll(n, candidates, c)
  {
    hide Records;
    forall k: nat | k < |candidates|
      ensures Records(n, candidates[k], Collected(c.evidence[k], c.targets[k]))
    {
      assert k in completed && completed[k] == Collected(c.evidence[k], c.targets[k]);
    }
  }

  lemma IDsDiffer(n: Naming, all: seq<Candidate>, candidates: seq<Candidate>, c: Collection)
    requires multiset(candidates) == multiset(Chosen(all, |all|)) && RecordsAll(n, candidates, c)
    ensures forall i, j | 0 <= i < j < |c.evidence| :: c.evidence[i].id != c.evidence[j].id
  {
    hide Chosen;
    ChosenAreDistinguished(all);
    forall i, j | 0 <= i < j < |c.evidence|
      ensures c.evidence[i].id != c.evidence[j].id
    {
      assert candidates[i] in multiset(candidates) && candidates[j] in multiset(candidates);
      assert Records(n, candidates[i], Collected(c.evidence[i], c.targets[i]));
      assert Records(n, candidates[j], Collected(c.evidence[j], c.targets[j]));
      if candidates[i] == candidates[j] { TwiceInMultiset(candidates, i, j); }
    }
  }

  /** The first pass over every target of every collector. */
  method AcceptOffers(rules: Rules, offers: seq<Offer>, assets: map<bytes, Asset>, observations: map<bytes, Observation>)
    returns (all: seq<Candidate>, rejections: nat)
    ensures all == AcceptAll(rules, offers, assets, observations) && |all| + rejections == |offers|
  {
    hide Accept;
    all, rejections := [], 0;
    for i := 0 to |offers|
      invariant all == AcceptAll(rules, offers[..i], assets, observations) && |all| + rejections == i
    {
      assert offers[..i + 1][..i] == offers[..i];
      var candidate := Accept(rules, offers[i], assets, observations);
      if candidate.None? {
        rejections := rejections + 1;
      } else {
        all := all + [candidate.value];
      }
    }
    assert offers[..|offers|] == offers;
  }

  lemma {:induction false} AcceptedAreAcceptable(
    rules: Rules, offers: seq<Offer>, assets: map<bytes, Asset>, observations: map<bytes, Observation>)
    ensures forall c | c in AcceptAll(rules, offers, assets, observations) ::
              Acceptable(rules.naming, c) && c.target.about.assetID in assets && c.target.about.observationID in observations
              && observations[c.target.about.observationID].assetID == c.target.about.assetID
  {
    hide Acceptable;
    if offers != [] {
      AcceptedAreAcceptable(rules, offers[..|offers| - 1], assets, observations);
    }
  }

  lemma {:induction false} ChosenAreAcceptable(
    rules: Rules, offers: seq<Offer>, assets: map<bytes, Asset>, observations: map<bytes, Observation>,
    candidates: seq<Candidate>)
    requires var all := AcceptAll(rules, offers, assets, observations);
             multiset(candidates) == multiset(Chosen(all, |all|))
    ensures forall c | c in candidates :: Acceptable(rules.naming, c)
    ensures forall c | c in candidates ::
              && c.target.about.assetID in assets && c.target.about.observationID in observations
              && observations[c.target.about.observationID].assetID == c.target.about.assetID
  {
    hide Acceptable;
    AcceptedAreAcceptable(rules, offers, assets, observations);
    var all := AcceptAll(rules, offers, assets, observations);
    assert all[..|all|] == all;
    forall c | c in candidates
      ensures c in all
    {
      assert c in multiset(candidates);
    }
  }

  method EvidenceCoverageStatus(rejections: nat, records: seq<Value>) returns (status: CoverageStatus)
    ensures status == StatusOf(rejections, records)
  {
    if rejections > 0 { return CoveragePartial; }
    var allSkipped := |records| > 0;
    for i := 0 to |records|
      invariant forall v | v in records[..i] :: v.status !in {Unsupported, Partial, Oversize, Unavailable}
      invariant allSkipped <==> |records| > 0 && forall v | v in records[..i] :: v.status == Skipped
    {
      assert records[..i + 1] == records[..i] + [records[i]];
      if records[i].status in {Unsupported, Partial, Oversize, Unavailable} { return CoveragePartial; }
      if records[i].status != Skipped { allSkipped := false; }
    }
    assert records[..|records|] == records;
    status := if allSkipped then CoverageSkipped else CoverageComplete;
  }

  // ------------------------------------------------------------- what is saved

  /** The store keeps the inventory's assets, and for an observation with one carrier, that one's asset. */
  ghost predicate Saves(inv: Inventory, saved: Saved) {
    && (forall a | a in inv.assets :: a.id in saved.assets)
    && (forall k | |Carriers(inv.observations, ObservationID, k)| == 1 ::
          k in saved.owner && saved.owner[k] == Carriers(inv.observations, ObservationID, k)[0].assetID)
  }

  /** validateEvidenceCoverageResult: each line names a record it agrees with, and no record twice. */
  ghost predicate StoreAcceptsCoverage(c: Collection) {
    && (forall i, j | 0 <= i < j < |c.targets| :: c.targets[i].evidenceID != c.targets[j].evidenceID)
    && forall t | t in c.targets ::
         exists v <- c.evidence ::
           && v.id == t.evidenceID && v.assetID == t.assetID && v.observationID == t.observationID && v.status == t.status
           && |t.errors| <= MAX_ERRORS
  }

  /** Everything a pass collects, the store takes: every record by its own contract, and the coverage as a whole. */
  lemma {:induction false} CollectionIsStored(
    rules: Rules, inv: Inventory, saved: Saved, offers: seq<Offer>, assets: map<bytes, Asset>,
    observations: map<bytes, Observation>, candidates: seq<Candidate>, c: Collection)
    requires Saves(inv, saved) && GraphMaps(rules, inv, assets, observations)
    requires var all := AcceptAll(rules, offers, assets, observations);
             multiset(candidates) == multiset(Chosen(all, |all|))
    requires RecordsAll(rules.naming, candidates, c)
    requires forall i, j | 0 <= i < j < |c.evidence| :: c.evidence[i].id != c.evidence[j].id
    ensures forall v | v in c.evidence :: StoreAccepts(rules.naming, saved, v)
    ensures StoreAcceptsCoverage(c)
  {
    hide Acceptable, Finalized, StoreAccepts, Accept, AcceptAll, Chosen;
    ChosenAreAcceptable(rules, offers, assets, observations, candidates);
    forall i | 0 <= i < |c.evidence|
      ensures StoreAccepts(rules.naming, saved, c.evidence[i]) && |c.evidence[i].errors| <= MAX_ERRORS
    {
      var a := candidates[i].target.about;
      var v :| Finalized(rules.naming, a, v) == Some(c.evidence[i]);
      CarriersCarry(inv.assets, AssetID, a.assetID);
      assert assets[a.assetID] in Carriers(inv.assets, AssetID, a.assetID);
      RecordIsStored(rules.naming, saved, a, v);
    }
    forall i | 0 <= i < |c.targets|
      ensures c.targets[i].evidenceID == c.evidence[i].id
      ensures c.evidence[i] in c.evidence
    {
      assert Records(rules.naming, candidates[i], Collected(c.evidence[i], c.targets[i]));
    }
  }

  lemma RecordIsStored(n: Naming, saved: Saved, a: About, v: Value)
    requires Finalized(n, a, v).Some?
    requires a.assetID in saved.assets && a.observationID in saved.owner && saved.owner[a.observationID] == a.assetID
    ensures var r := Finalized(n, a, v).value; StoreAccepts(n, saved, r) && |r.errors| <= MAX_ERRORS
  {
    FinalizedIsStored(n, saved, a, v);
  }
}
