// The public evidence record: what the engine finalizes, and what the store asks of it on its own.
module EvidenceRecord {
  import opened Framing
  import opened Ordering

  datatype Kind = FileHash | TreeHash | SemanticHash | PackageContent | ContainerIdentity | OtherKind

  datatype Status = Complete | Partial | Oversize | Unavailable | Unsupported | Skipped | OtherStatus

  // A subject, and which part of the closed vocabulary it belongs to.
  datatype SubjectClass =
    | ContentFile | ProjectFile | DeveloperFile | PayloadTree | McpDeclaration | CredentialConfig
    | PackageSubject | ContainerImage | OtherSubject

  datatype Subject = Subject(part: SubjectClass, name: bytes)

  datatype Algorithm = NoAlgorithm | Sha256 | OtherAlgorithm(name: bytes)

  // The closed pairs of code and message, and anything else.
  datatype Error =
    | FileIdentityChanged | TreeIdentityChanged | TargetIdentityChanged
    | SymlinkRejected | SpecialFileRejected
    | FileByteLimit | TreeByteLimit | TreeEntryLimit | TreeDepthLimit | TreeDeadline | TargetDeadline
    | TreePathInvalid | TargetPathInvalid
    | FileUnavailable | TreeEntryUnavailable | CollectionUnavailable
    | Foreign(code: bytes, message: bytes)

  datatype MetadataKey = Completeness | Cache | OtherKey(key: bytes)

  datatype MetadataValue =
    | WholeValue | SubsetValue
    | CacheDisabled | CacheHit | CacheMiss | CacheRejected
    | OtherValue(value: bytes)

  type Metadata = map<MetadataKey, MetadataValue>

  datatype Value = Value(
    id: bytes, assetID: bytes, observationID: bytes, kind: Kind, subject: Subject, status: Status,
    algorithm: Algorithm, digest: bytes, size: int, files: int, directories: int, symlinks: int,
    metadata: Metadata, errors: seq<Error>)

  const MAX_ERRORS: nat := 64

  const BLANK := Value([], [], [], OtherKind, Subject(OtherSubject, []), OtherStatus, NoAlgorithm, [], 0, 0, 0, 0, map[], [])

  // What a record is about.
  datatype About = About(assetID: bytes, observationID: bytes, kind: Kind, subject: Subject)

  // Strings that must not be recorded, and the digest that names an observation's evidence.
  datatype Naming = Naming(sensitive: bytes -> bool, id: (bytes, Kind, Subject) -> bytes)

  predicate IsHexDigit(b: byte) { 0x30 <= b <= 0x39 || 0x61 <= b <= 0x66 }

  predicate LowercaseDigest(s: bytes) {
    |s| == 64 && forall b | b in s :: IsHexDigit(b)
  }

  predicate ValidKindSubject(kind: Kind, subject: Subject) {
    match kind
    case FileHash => subject.part in {ContentFile, ProjectFile, DeveloperFile}
    case TreeHash => subject.part == PayloadTree
    case SemanticHash => subject.part in {McpDeclaration, CredentialConfig}
    case PackageContent => subject.part == PackageSubject
    case ContainerIdentity => subject.part == ContainerImage
    case OtherKind => false
  }

  predicate ValidKindStatus(kind: Kind, status: Status) {
    if kind == PackageContent then status == Unsupported || status == Skipped
    else if kind == ContainerIdentity then status == Complete || status == Unsupported || status == Skipped
    else if status == Partial || status == Oversize then kind == FileHash || kind == TreeHash
    else status != OtherStatus
  }

  // ----------------------------------------------------------- identity.FinalizeEvidence

  predicate Nameable(n: Naming, a: About) {
    && a.assetID != [] && a.observationID != [] && a.kind != OtherKind && a.subject.part != OtherSubject
    && !n.sensitive(a.assetID) && !n.sensitive(a.observationID) && !n.sensitive(a.subject.name)
  }

  function AboutOf(v: Value): About { About(v.assetID, v.observationID, v.kind, v.subject) }

  function IDOf(n: Naming, a: About): (id: bytes)
    ensures id != []
  {
    Ascii("evidence:sha256:") + n.id(a.observationID, a.kind, a.subject)
  }

  function Named(n: Naming, v: Value): Option<Value> {
    if Nameable(n, AboutOf(v)) && v.status != OtherStatus then Some(v.(id := IDOf(n, AboutOf(v)))) else None
  }

  // --------------------------------------------------------------------- errors

  /** Which kinds an error's wording allows. */
  predicate ErrorFits(kind: Kind, e: Error) {
    match e
    case FileIdentityChanged => kind == FileHash || kind == TreeHash
    case FileByteLimit => kind == FileHash || kind == TreeHash
    case FileUnavailable => kind == FileHash || kind == TreeHash
    case TreeIdentityChanged => kind == TreeHash
    case TreeByteLimit => kind == TreeHash
    case TreeEntryLimit => kind == TreeHash
    case TreeDepthLimit => kind == TreeHash
    case TreeDeadline => kind == TreeHash
    case TreePathInvalid => kind == TreeHash
    case TreeEntryUnavailable => kind == TreeHash
    case _ => true
  }

  predicate ValidErrors(kind: Kind, errors: seq<Error>) {
    |errors| <= MAX_ERRORS && forall e | e in errors :: !e.Foreign? && ErrorFits(kind, e)
  }

  /** The place of an error by code and then message. */
  function Rank(e: Error): nat {
    match e
    case FileByteLimit => 0 case TreeByteLimit => 1 case TreeDepthLimit => 2 case TreeEntryLimit => 3
    case FileIdentityChanged => 4 case TargetIdentityChanged => 5 case TreeIdentityChanged => 6
    case TargetPathInvalid => 7 case TreePathInvalid => 8
    case CollectionUnavailable => 9 case FileUnavailable => 10 case TreeEntryUnavailable => 11
    case SpecialFileRejected => 12 case SymlinkRejected => 13 case TargetDeadline => 14 case TreeDeadline => 15
    case Foreign(_, _) => 16
  }

  // What a known error says: its code, and its message.
  function Text(e: Error): (string, string)
    requires !e.Foreign?
  {
    match e
    case FileByteLimit => ("byte_limit", "evidence file exceeds the byte limit")
    case TreeByteLimit => ("byte_limit", "evidence tree exceeds the byte limit")
    case TreeDepthLimit => ("depth_limit", "evidence tree exceeds the depth limit")
    case TreeEntryLimit => ("file_limit", "evidence tree exceeds the entry limit")
    case FileIdentityChanged => ("identity_changed", "evidence file identity changed")
    case TargetIdentityChanged => ("identity_changed", "evidence target identity changed")
    case TreeIdentityChanged => ("identity_changed", "evidence tree identity changed")
    case TargetPathInvalid => ("path_invalid", "evidence target path is invalid")
    case TreePathInvalid => ("path_invalid", "evidence tree path is invalid")
    case CollectionUnavailable => ("read_unavailable", "evidence collection is unavailable")
    case FileUnavailable => ("read_unavailable", "evidence file is unavailable")
    case TreeEntryUnavailable => ("read_unavailable", "evidence tree entry is unavailable")
    case SpecialFileRejected => ("special_file_rejected", "special file was not read")
    case SymlinkRejected => ("symlink_rejected", "symbolic link was not followed")
    case TargetDeadline => ("time_limit", "evidence target deadline exceeded")
    case TreeDeadline => ("time_limit", "evidence tree deadline exceeded")
  }

  predicate Earlier(a: string, b: string) {
    exists i :: 0 <= i < |a| && i < |b| && a[i] < b[i] && forall j | 0 <= j < i :: a[j] == b[j]
  }

  predicate TextBefore(e: Error, f: Error)
    requires !e.Foreign? && !f.Foreign?
  {
    Earlier(Text(e).0, Text(f).0) || (Text(e).0 == Text(f).0 && Earlier(Text(e).1, Text(f).1))
  }

  lemma Differ(a: string, b: string, i: nat)
    requires i < |a| && i < |b| && a[i] < b[i] && forall j | 0 <= j < i :: a[j] == b[j]
    ensures Earlier(a, b)
  {}

  lemma EarlierIsTransitive(a: string, b: string, c: string)
    requires Earlier(a, b) && Earlier(b, c)
    ensures Earlier(a, c)
  {
    var i :| 0 <= i < |a| && i < |b| && a[i] < b[i] && forall j | 0 <= j < i :: a[j] == b[j];
    var k :| 0 <= k < |b| && k < |c| && b[k] < c[k] && forall j | 0 <= j < k :: b[j] == c[j];
    Differ(a, c, if i < k then i else k);
  }

  lemma CodesDiffer(e: Error, f: Error, i: nat)
    requires !e.Foreign? && !f.Foreign?
    requires var a, b := Text(e).0, Text(f).0; i < |a| && i < |b| && a[i] < b[i] && forall j | 0 <= j < i :: a[j] == b[j]
    ensures TextBefore(e, f)
  {
    hide Text;
    Differ(Text(e).0, Text(f).0, i);
  }

  lemma MessagesDiffer(e: Error, f: Error, i: nat)
    requires !e.Foreign? && !f.Foreign? && Text(e).0 == Text(f).0
    requires var a, b := Text(e).1, Text(f).1; i < |a| && i < |b| && a[i] < b[i] && forall j | 0 <= j < i :: a[j] == b[j]
    ensures TextBefore(e, f)
  {
    hide Text;
    Differ(Text(e).1, Text(f).1, i);
  }

  lemma LimitTexts()
    ensures TextBefore(FileByteLimit, TreeByteLimit)
    ensures TextBefore(TreeByteLimit, TreeDepthLimit)
    ensures TextBefore(TreeDepthLimit, TreeEntryLimit)
    ensures TextBefore(TreeEntryLimit, FileIdentityChanged)
  {
    hide Earlier, TextBefore;
    MessagesDiffer(FileByteLimit, TreeByteLimit, 9);
    CodesDiffer(TreeByteLimit, TreeDepthLimit, 0);
    CodesDiffer(TreeDepthLimit, TreeEntryLimit, 0);
    CodesDiffer(TreeEntryLimit, FileIdentityChanged, 0);
  }

  lemma IdentityTexts()
    ensures TextBefore(FileIdentityChanged, TargetIdentityChanged)
    ensures TextBefore(TargetIdentityChanged, TreeIdentityChanged)
    ensures TextBefore(TreeIdentityChanged, TargetPathInvalid)
  {
    hide Earlier, TextBefore;
    MessagesDiffer(FileIdentityChanged, TargetIdentityChanged, 9);
    MessagesDiffer(TargetIdentityChanged, TreeIdentityChanged, 10);
    CodesDiffer(TreeIdentityChanged, TargetPathInvalid, 0);
  }

  lemma PathTexts()
    ensures TextBefore(TargetPathInvalid, TreePathInvalid)
    ensures TextBefore(TreePathInvalid, CollectionUnavailable)
  {
    hide Earlier, TextBefore;
    MessagesDiffer(TargetPathInvalid, TreePathInvalid, 10);
    CodesDiffer(TreePathInvalid, CollectionUnavailable, 0);
  }

  lemma ReadTexts()
    ensures TextBefore(CollectionUnavailable, FileUnavailable)
    ensures TextBefore(FileUnavailable, TreeEntryUnavailable)
    ensures TextBefore(TreeEntryUnavailable, SpecialFileRejected)
  {
    hide Earlier, TextBefore;
    MessagesDiffer(CollectionUnavailable, FileUnavailable, 9);
    MessagesDiffer(FileUnavailable, TreeEntryUnavailable, 9);
    CodesDiffer(TreeEntryUnavailable, SpecialFileRejected, 0);
  }

  lemma OtherTexts()
    ensures TextBefore(SpecialFileRejected, SymlinkRejected)
    ensures TextBefore(SymlinkRejected, TargetDeadline)
  {
    hide Earlier, TextBefore;
    CodesDiffer(SpecialFileRejected, SymlinkRejected, 1);
    CodesDiffer(SymlinkRejected, TargetDeadline, 0);
  }

  lemma DeadlineTexts()
    ensures TextBefore(TargetDeadline, TreeDeadline)
  {
    hide Earlier, TextBefore;
    MessagesDiffer(TargetDeadline, TreeDeadline, 10);
  }

  lemma TextIsTransitive(e: Error, m: Error, f: Error)
    requires !e.Foreign? && !m.Foreign? && !f.Foreign? && TextBefore(e, m) && TextBefore(m, f)
    ensures TextBefore(e, f)
  {
    PairsAreTransitive(Text(e), Text(m), Text(f));
  }

  lemma PairsAreTransitive(a: (string, string), b: (string, string), c: (string, string))
    requires Earlier(a.0, b.0) || (a.0 == b.0 && Earlier(a.1, b.1))
    requires Earlier(b.0, c.0) || (b.0 == c.0 && Earlier(b.1, c.1))
    ensures Earlier(a.0, c.0) || (a.0 == c.0 && Earlier(a.1, c.1))
  {
    hide Earlier;
    if Earlier(a.0, b.0) && Earlier(b.0, c.0) { EarlierIsTransitive(a.0, b.0, c.0); }
    if Earlier(a.1, b.1) && Earlier(b.1, c.1) { EarlierIsTransitive(a.1, b.1, c.1); }
  }

  function Ranking(k: nat): Error {
    [FileByteLimit, TreeByteLimit, TreeDepthLimit, TreeEntryLimit, FileIdentityChanged, TargetIdentityChanged,
     TreeIdentityChanged, TargetPathInvalid, TreePathInvalid, CollectionUnavailable, FileUnavailable, TreeEntryUnavailable,
     SpecialFileRejected, SymlinkRejected, TargetDeadline, TreeDeadline][if k < 16 then k else 15]
  }

  /** Known errors are ranked by their code, and then by their message. */
  lemma {:induction false} RankIsTextual(e: Error, f: Error)
    requires !e.Foreign? && !f.Foreign? && Rank(e) < Rank(f)
    ensures TextBefore(e, f)
    decreases Rank(f)
  {
    hide Earlier, Text, TextBefore;
    var k := Rank(f) - 1;
    assert Ranking(k + 1) == f && Rank(Ranking(k)) == k;
    if k < 4 {
      LimitTexts();
    } else if k < 7 {
      IdentityTexts();
    } else if k < 9 {
      PathTexts();
    } else if k < 12 {
      ReadTexts();
    } else {
      OtherTexts();
      DeadlineTexts();
    }
    if Rank(e) < k {
      RankIsTextual(e, Ranking(k));
      TextIsTransitive(e, Ranking(k), f);
    } else {
      assert e == Ranking(k);
    }
  }

  predicate Ranked(errors: seq<Error>) {
    forall i, j | 0 <= i < j < |errors| :: Rank(errors[i]) <= Rank(errors[j])
  }

  function InsertError(e: Error, errors: seq<Error>): seq<Error> {
    if errors == [] || Rank(e) <= Rank(errors[0]) then [e] + errors else [errors[0]] + InsertError(e, errors[1..])
  }

  function SortErrors(errors: seq<Error>): (r: seq<Error>) {
    if errors == [] then [] else InsertError(errors[0], SortErrors(errors[1..]))
  }

  lemma {:induction false} InsertErrorKeeps(e: Error, errors: seq<Error>)
    ensures multiset(InsertError(e, errors)) == multiset(errors) + multiset{e}
  {
    hide Rank;
    if errors != [] {
      assert errors == [errors[0]] + errors[1..];
      InsertErrorKeeps(e, errors[1..]);
    }
  }

  lemma RankedCons(e: Error, errors: seq<Error>)
    requires Ranked(errors) && forall x | x in errors :: Rank(e) <= Rank(x)
    ensures Ranked([e] + errors)
  {
    hide Rank;
  }

  lemma RankedParts(errors: seq<Error>)
    requires Ranked(errors) && errors != []
    ensures Ranked(errors[1..]) && forall x | x in errors :: Rank(errors[0]) <= Rank(x)
  {
    hide Rank;
  }

  lemma {:induction false} InsertErrorSorts(e: Error, errors: seq<Error>)
    requires Ranked(errors)
    ensures Ranked(InsertError(e, errors)) && multiset(InsertError(e, errors)) == multiset(errors) + multiset{e}
  {
    hide Rank, Ranked;
    InsertErrorKeeps(e, errors);
    if errors == [] {
      NothingIsRanked();
      RankedCons(e, []);
    } else {
      RankedParts(errors);
      if Rank(e) <= Rank(errors[0]) {
        RankedCons(e, errors);
      } else {
        InsertErrorSorts(e, errors[1..]);
        forall x | x in InsertError(e, errors[1..])
          ensures Rank(errors[0]) <= Rank(x)
        {
          assert x in multiset(InsertError(e, errors[1..]));
        }
        RankedCons(errors[0], InsertError(e, errors[1..]));
      }
    }
  }

  lemma {:induction false} SortErrorsKeeps(errors: seq<Error>)
    ensures Ranked(SortErrors(errors)) && multiset(SortErrors(errors)) == multiset(errors)
  {
    hide Rank, Ranked;
    if errors == [] {
      NothingIsRanked();
    } else {
      assert errors == [errors[0]] + errors[1..];
      SortErrorsKeeps(errors[1..]);
      InsertErrorSorts(errors[0], SortErrors(errors[1..]));
    }
  }

  lemma NothingIsRanked()
    ensures Ranked([])
  {}

  lemma {:induction false} SortedErrorsStay(errors: seq<Error>)
    requires Ranked(errors)
    ensures SortErrors(errors) == errors
  {
    hide Rank;
    if errors != [] {
      SortedErrorsStay(errors[1..]);
      assert errors == [errors[0]] + errors[1..];
    }
  }

  /** Sorting keeps the errors, orders them, and leaves sorted ones alone. */
  lemma {:induction false} SortErrorsSorts(errors: seq<Error>)
    ensures Ranked(SortErrors(errors)) && multiset(SortErrors(errors)) == multiset(errors)
    ensures |SortErrors(errors)| == |errors| && forall e :: e in SortErrors(errors) <==> e in errors
    ensures Ranked(errors) ==> SortErrors(errors) == errors
  {
    hide Ranked;
    SortErrorsKeeps(errors);
    SameElements(SortErrors(errors), errors);
    if Ranked(errors) { SortedErrorsStay(errors); }
  }

  // --------------------------------------------------------------- finalizeRecord

  predicate NoCounts(v: Value) { v.files == 0 && v.directories == 0 && v.symlinks == 0 }

  predicate ValidAggregate(kind: Kind, v: Value) {
    && v.size >= 0 && v.files >= 0 && v.directories >= 0 && v.symlinks >= 0
    && (if v.status == Unsupported || v.status == Skipped || v.status == Unavailable || kind == TreeHash then true
        else if kind == FileHash then NoCounts(v)
        else v.size == 0 && NoCounts(v))
  }

  predicate TrustedDigest(v: Value) { v.algorithm == Sha256 && LowercaseDigest(v.digest) }

  predicate SubsetDigest(kind: Kind, v: Value) {
    || ((kind == TreeHash || kind == FileHash) && TrustedDigest(v))
    || (kind == FileHash && v.algorithm == NoAlgorithm && v.digest == [])
  }

  predicate IsCacheValue(m: MetadataValue) { m in {CacheDisabled, CacheHit, CacheMiss, CacheRejected} }

  function Controlled(kind: Kind, m: Metadata, completeness: MetadataValue): Metadata {
    if kind == TreeHash && Cache in m && IsCacheValue(m[Cache])
    then map[Completeness := completeness, Cache := m[Cache]]
    else map[Completeness := completeness]
  }

  function Stripped(v: Value): Value {
    v.(algorithm := NoAlgorithm, digest := [], size := 0, files := 0, directories := 0, symlinks := 0, metadata := map[])
  }

  /** finalizeRecord; None is its error. */
  method FinalizeRecord(n: Naming, about: About, given: Value) returns (r: Option<Value>)
    ensures r == Finalized(n, about, given)
  {
    hide Rank, Ranked, InsertError, SortErrors, ValidErrors, ValidAggregate, LowercaseDigest, Nameable, IDOf;
    if !ValidKindSubject(about.kind, about.subject) || !ValidKindStatus(about.kind, given.status)
       || !ValidAggregate(about.kind, given) || !ValidErrors(about.kind, given.errors)
    {
      return None;
    }
    var value := given;
    value := value.(assetID := about.assetID, observationID := about.observationID);
    value := value.(kind := about.kind, subject := about.subject);
    value := value.(errors := SortErrors(given.errors));
    SortErrorsSorts(given.errors);
    SortErrorsSorts([]);
    match value.status {
      case Complete =>
        if !TrustedDigest(value) || value.errors != [] { return None; }
        value := value.(metadata := Controlled(about.kind, value.metadata, WholeValue));
      case Partial =>
        if value.errors == [] || !SubsetDigest(about.kind, value) { return None; }
        value := value.(metadata := Controlled(about.kind, map[], SubsetValue));
      case Oversize =>
        if value.errors == [] || !SubsetDigest(about.kind, value) { return None; }
        value := value.(metadata := Controlled(about.kind, map[], SubsetValue));
      case Unsupported =>
        value := Stripped(value).(errors := []);
      case Skipped =>
        value := Stripped(value).(errors := []);
      case Unavailable =>
        value := Stripped(value);
        if value.errors == [] { return None; }
      case OtherStatus =>
        return None;
    }
    r := Named(n, value);
  }

  predicate Finalizable(n: Naming, a: About, v: Value) {
    && ValidKindSubject(a.kind, a.subject) && ValidKindStatus(a.kind, v.status) && Nameable(n, a)
    && ValidAggregate(a.kind, v) && ValidErrors(a.kind, v.errors)
    && (v.status == Complete ==> TrustedDigest(v) && v.errors == [])
    && (v.status == Partial || v.status == Oversize ==> SubsetDigest(a.kind, v) && v.errors != [])
    && (v.status == Unavailable ==> v.errors != [])
  }

  /** What of a value a record of its status keeps. */
  function Kept(a: About, v: Value): Value {
    match v.status
    case Complete => v.(metadata := Controlled(a.kind, v.metadata, WholeValue))
    case Partial => v.(metadata := Controlled(a.kind, map[], SubsetValue))
    case Oversize => v.(metadata := Controlled(a.kind, map[], SubsetValue))
    case Unavailable => Stripped(v)
    case _ => Stripped(v).(errors := [])
  }

  function Finalized(n: Naming, a: About, v: Value): Option<Value> {
    if Finalizable(n, a, v) then
      Some(Kept(a, v).(id := IDOf(n, a), assetID := a.assetID, observationID := a.observationID, kind := a.kind,
                       subject := a.subject, errors := SortErrors(Kept(a, v).errors)))
    else None
  }

  // ------------------------------------------------------- the contract, kind by kind

  predicate IsDigest(algorithm: Algorithm, digest: bytes) {
    algorithm == Sha256 && |digest| == 64 && forall b | b in digest :: 48 <= b <= 57 || 97 <= b <= 102
  }

  /** Which subjects and statuses a kind of evidence has. */
  predicate KindAllows(kind: Kind, part: SubjectClass, s: Status) {
    match kind
    case FileHash => part in {ContentFile, ProjectFile, DeveloperFile} && s != OtherStatus
    case TreeHash => part == PayloadTree && s != OtherStatus
    case SemanticHash =>
      part in {McpDeclaration, CredentialConfig} && s in {Complete, Unavailable, Unsupported, Skipped}
    case PackageContent => part == PackageSubject && s in {Unsupported, Skipped}
    case ContainerIdentity => part == ContainerImage && s in {Complete, Unsupported, Skipped}
    case OtherKind => false
  }

  /** What a status needs: a digest and no error, errors with or without a digest, or nothing but errors. */
  predicate StatusNeeds(kind: Kind, v: Value) {
    match v.status
    case Complete => IsDigest(v.algorithm, v.digest) && v.errors == []
    case Partial => v.errors != [] && SubsetOrNone(kind, v)
    case Oversize => v.errors != [] && SubsetOrNone(kind, v)
    case Unavailable => v.errors != []
    case _ => true
  }

  predicate SubsetOrNone(kind: Kind, v: Value) {
    IsDigest(v.algorithm, v.digest) || (kind == FileHash && v.algorithm == NoAlgorithm && v.digest == [])
  }

  const ABOUT_FILES := {FileIdentityChanged, FileByteLimit, FileUnavailable}

  const ABOUT_TREES :=
    {TreeIdentityChanged, TreeByteLimit, TreeEntryLimit, TreeDepthLimit, TreeDeadline, TreePathInvalid, TreeEntryUnavailable}

  /** Errors of the closed vocabulary, those about a tree in tree records, those about a file in file or tree records. */
  predicate ErrorsFit(kind: Kind, errors: seq<Error>) {
    && |errors| <= 64
    && forall e | e in errors ::
         && !e.Foreign?
         && (e in ABOUT_TREES ==> kind == TreeHash) && (e in ABOUT_FILES ==> kind in {FileHash, TreeHash})
  }

  /** A file has a size and a tree has counts too; nothing else that was measured has either. */
  predicate CountsFit(kind: Kind, v: Value) {
    && v.size >= 0 && v.files >= 0 && v.directories >= 0 && v.symlinks >= 0
    && (v.status in {Complete, Partial, Oversize} ==>
          && (kind != TreeHash ==> v.files == v.directories == v.symlinks == 0)
          && (kind !in {FileHash, TreeHash} ==> v.size == 0))
  }

  /** A value makes a record exactly when it meets the contract of its kind, its status and its errors. */
  lemma FinalizableIff(n: Naming, a: About, v: Value)
    ensures Finalizable(n, a, v) <==>
              && KindAllows(a.kind, a.subject.part, v.status) && StatusNeeds(a.kind, v) && ErrorsFit(a.kind, v.errors)
              && CountsFit(a.kind, v) && a.assetID != [] && a.observationID != []
              && !n.sensitive(a.assetID) && !n.sensitive(a.observationID) && !n.sensitive(a.subject.name)
  {
    DigestsAgree(v);
    ErrorsAgree(a.kind, v.errors);
    hide LowercaseDigest, ValidErrors, ErrorsFit;
  }

  lemma DigestsAgree(v: Value)
    ensures TrustedDigest(v) <==> IsDigest(v.algorithm, v.digest)
  {}

  lemma ErrorsAgree(kind: Kind, errors: seq<Error>)
    ensures ValidErrors(kind, errors) <==> ErrorsFit(kind, errors)
  {}

  /** What a record says: the digest and counts of a status that has them, and metadata that tells a whole from a part. */
  lemma RecordSays(n: Naming, a: About, v: Value)
    requires Finalizable(n, a, v)
    ensures var r := Finalized(n, a, v).value;
            && r.status == v.status
            && multiset(r.errors) == (if v.status in {Unsupported, Skipped} then multiset{} else multiset(v.errors))
            && (if v.status in {Complete, Partial, Oversize} then
                  && r.algorithm == v.algorithm && r.digest == v.digest && r.size == v.size
                  && r.files == v.files && r.directories == v.directories && r.symlinks == v.symlinks
                  && Completeness in r.metadata && r.metadata.Keys <= {Completeness, Cache}
                  && r.metadata[Completeness] == (if v.status == Complete then WholeValue else SubsetValue)
                  && (Cache in r.metadata <==>
                        && v.status == Complete && a.kind == TreeHash && Cache in v.metadata
                        && v.metadata[Cache] in {CacheDisabled, CacheHit, CacheMiss, CacheRejected})
                  && (Cache in r.metadata ==> r.metadata[Cache] == v.metadata[Cache])
                else
                  && r.algorithm == NoAlgorithm && r.digest == [] && r.metadata == map[]
                  && r.size == r.files == r.directories == r.symlinks == 0)
  {
    hide IDOf, InsertError;
    SortErrorsSorts(Kept(a, v).errors);
  }

  // --------------------------------------------------------- the store's own contract

  predicate TerminalPayload(v: Value) {
    v.algorithm == NoAlgorithm && v.digest == [] && v.size == 0 && NoCounts(v) && v.metadata == map[]
  }

  predicate StoreShape(v: Value) {
    && v.size >= 0 && v.files >= 0 && v.directories >= 0 && v.symlinks >= 0
    && match v.status
       case Complete => TrustedDigest(v) && v.errors == [] && StoreCounts(v)
       case Unavailable => v.errors != [] && TerminalPayload(v)
       case Unsupported => v.errors == [] && TerminalPayload(v)
       case Skipped => v.errors == [] && TerminalPayload(v)
       case OtherStatus => false
       case _ =>
         && v.errors != [] && StoreCounts(v)
         && (TrustedDigest(v) || (v.kind != TreeHash && v.algorithm == NoAlgorithm && v.digest == []))
  }

  predicate StoreCounts(v: Value) {
    v.kind == TreeHash || (NoCounts(v) && (v.kind == FileHash || v.size == 0))
  }

  predicate StoreMetadata(v: Value) {
    forall k | k in v.metadata ::
      match k
      case Completeness => v.metadata[k] == (if v.status == Complete then WholeValue else SubsetValue)
      case Cache => v.kind == TreeHash && IsCacheValue(v.metadata[k])
      case OtherKey(_) => false
  }

  // The assets saved with the evidence, and the asset each saved observation belongs to.
  datatype Saved = Saved(assets: set<bytes>, owner: map<bytes, bytes>)

  /** validateContentEvidence. */
  predicate StoreAccepts(n: Naming, saved: Saved, v: Value) {
    && v.id != [] && v.assetID != [] && v.observationID != []
    && ValidKindSubject(v.kind, v.subject) && v.status != OtherStatus && ValidKindStatus(v.kind, v.status)
    && v.assetID in saved.assets && v.observationID in saved.owner && saved.owner[v.observationID] == v.assetID
    && Named(n, v.(id := [])) == Some(v)
    && StoreShape(v) && StoreMetadata(v) && |v.errors| <= MAX_ERRORS
  }

  /** A finalized record keeps its status, is about its target, and passes every check the store makes. */
  lemma FinalizedIsStored(n: Naming, saved: Saved, a: About, v: Value)
    requires Finalizable(n, a, v)
    requires a.assetID in saved.assets && a.observationID in saved.owner && saved.owner[a.observationID] == a.assetID
    ensures var r := Finalized(n, a, v).value;
            && AboutOf(r) == a && r.id == IDOf(n, a) && r.status == v.status
            && StoreAccepts(n, saved, r)
  {
    hide IDOf, InsertError;
    SortErrorsSorts(Kept(a, v).errors);
  }

  /** Finalizing is done once and for all: a record finalizes to itself. */
  lemma FinalizedIsFixed(n: Naming, a: About, v: Value)
    requires Finalizable(n, a, v)
    ensures var r := Finalized(n, a, v).value;
            Finalized(n, a, r) == Some(r)
  {
    hide IDOf, InsertError;
    var r := Finalized(n, a, v).value;
    SortErrorsSorts(Kept(a, v).errors);
    SortErrorsSorts(r.errors);
    assert Controlled(a.kind, r.metadata, WholeValue) == r.metadata || v.status != Complete;
  }

  /** What the engine's contract asks of a stored record beyond the store's: sorted known errors, and its metadata. */
  predicate EngineOnly(v: Value) {
    && Ranked(v.errors) && (forall e | e in v.errors :: !e.Foreign? && ErrorFits(v.kind, e))
    && (v.status in {Complete, Partial, Oversize} ==> Completeness in v.metadata)
    && (v.status in {Partial, Oversize} ==> Cache !in v.metadata)
  }

  /** Of the records the store accepts, the engine could have made exactly these. */
  lemma StoredIsFinalized(n: Naming, saved: Saved, v: Value)
    requires StoreAccepts(n, saved, v)
    ensures Finalized(n, AboutOf(v), v) == Some(v) <==> EngineOnly(v)
  {
    hide IDOf, InsertError;
    SortErrorsSorts(v.errors);
    var kept := Kept(AboutOf(v), v);
    assert EngineOnly(v) && v.status in {Complete, Partial, Oversize} ==> kept.metadata == v.metadata;
    assert v.status in {Complete, Partial, Oversize} ==> Completeness in kept.metadata;
    assert v.status in {Partial, Oversize} ==> Cache !in kept.metadata;
  }
}
