// Trees as the evidence hasher sees them, the manifest a completed hash stands
// for, and the walk as a function of a tree that does not change under it.
module EvidenceTree {
  import opened Framing
  import opened Ordering

  datatype Fingerprint = Fingerprint(
    device: uint64, inode: uint64, mode: uint32, size: int64, modTimeNS: int64, changeTimeNS: int64)

  datatype Node =
    | Dir(perm: uint32, children: seq<Entry>)
    | File(fp: Fingerprint)
    | Symlink(target: bytes)
    | Special(typ: uint32)

  datatype Entry = Entry(name: bytes, node: Node)

  // SHA-256, and the one content each fingerprint stands for.
  datatype Disk = Disk(sha: bytes -> Digest, content: Fingerprint -> bytes) {
    function Leaf(fp: Fingerprint): Digest {
      sha(content(fp))
    }
  }

  datatype Limits = Limits(
    maxDepth: int, maxEntries: int, maxFileBytes: int64, maxTotalBytes: int64, maxErrors: int, timeout: int)

  const MAX_INT64: int := 0x7FFF_FFFF_FFFF_FFFF

  predicate ValidLimits(l: Limits) {
    && l.maxDepth >= 0 && l.maxEntries > 0
    && 0 < l.maxFileBytes < MAX_INT64 && 0 < l.maxTotalBytes < MAX_INT64
    && l.maxErrors > 0 && l.timeout != 0
  }

  /** Children are listed in name order, so a directory has one representation. */
  ghost predicate WellFormed(n: Node)
    decreases n, 1
  {
    match n
    case Dir(perm, children) => perm < 0x200 && StrictlySorted(Names(children)) && AllWellFormed(children)
    case File(fp) => fp.size >= 0
    case _ => true
  }

  ghost predicate AllWellFormed(es: seq<Entry>)
    decreases es, 0
  {
    es == [] || (WellFormed(es[0].node) && AllWellFormed(es[1..]))
  }

  function Names(es: seq<Entry>): (names: seq<bytes>)
    ensures |names| == |es|
    ensures forall i | 0 <= i < |es| :: names[i] == es[i].name
  {
    seq(|es|, i requires 0 <= i < |es| => es[i].name)
  }

  const SLASH: byte := 0x2F
  const BACKSLASH: byte := 0x5C
  const DOT: byte := 0x2E

  predicate ValidName(name: bytes) {
    && name != [] && name != [DOT] && name != [DOT, DOT]
    && SLASH !in name && BACKSLASH !in name && 0 !in name
  }

  function Join(parent: bytes, name: bytes): bytes {
    if parent == [] then name else parent + [SLASH] + name
  }

  // ---------------------------------------------------------------- manifest

  // "ssc-init.tree.v1". The results below hold for any domain, and take it as an argument.
  const TREE_DOMAIN: bytes :=
    [0x73, 0x73, 0x63, 0x2D, 0x69, 0x6E, 0x69, 0x74, 0x2E, 0x74, 0x72, 0x65, 0x65, 0x2E, 0x76, 0x31]
  const RECORD_DIRECTORY: byte := 0x64
  const RECORD_FILE: byte := 0x66
  const RECORD_SYMLINK: byte := 0x6C
  const RECORD_SPECIAL: byte := 0x73

  function Record(kind: byte, fields: seq<bytes>): bytes {
    [kind] + Fields(fields)
  }

  function FileRecord(disk: Disk, relative: bytes, fp: Fingerprint): bytes {
    Record(RECORD_FILE, [relative, U32(fp.mode % 0x200), U64(Unsigned64(fp.size)), disk.Leaf(fp)])
  }

  function DirRecord(relative: bytes, perm: uint32): bytes {
    Record(RECORD_DIRECTORY, [relative, U32(perm)])
  }

  /** The reference manifest: one framed record per directory or file, pre-order. */
  function Manifest(disk: Disk, n: Node, relative: bytes): seq<bytes>
    decreases n, 1
  {
    match n
    case Dir(perm, children) => [DirRecord(relative, perm)] + ManifestAll(disk, children, relative)
    case File(fp) => [FileRecord(disk, relative, fp)]
    case Symlink(target) => [Record(RECORD_SYMLINK, [relative, disk.sha(target)])]
    case Special(typ) => [Record(RECORD_SPECIAL, [relative, U32(typ)])]
  }

  function ManifestAll(disk: Disk, es: seq<Entry>, parent: bytes): seq<bytes>
    decreases es, 0
  {
    if es == [] then []
    else Manifest(disk, es[0].node, Join(parent, es[0].name)) + ManifestAll(disk, es[1..], parent)
  }

  /** The bytes hashed for a whole tree, under the domain that opens the stream. */
  function Stream(disk: Disk, domain: bytes, root: Node): bytes {
    Fields([domain] + Manifest(disk, root, []))
  }

  // ------------------------------------------------------------- measurements

  datatype Totals = Totals(entries: nat, size: nat, files: nat, directories: nat) {
    function Plus(other: Totals): Totals {
      Totals(entries + other.entries, size + other.size, files + other.files, directories + other.directories)
    }
  }

  /** Everything listed strictly below a node. */
  function Below(n: Node): (t: Totals)
    ensures t.files + t.directories <= t.entries
    decreases n, 1
  {
    if n.Dir? then TotalsOf(n.children) else Totals(0, 0, 0, 0)
  }

  function TotalsOf(es: seq<Entry>): (t: Totals)
    ensures t.entries >= |es|
    ensures t.files + t.directories <= t.entries
    decreases es, 0
  {
    if es == [] then Totals(0, 0, 0, 0)
    else TotalsOfOne(es[0]).Plus(TotalsOf(es[1..]))
  }

  function TotalsOfOne(e: Entry): (t: Totals)
    ensures 1 <= t.entries && t.files + t.directories <= t.entries
    decreases e, 2
  {
    match e.node
    case Dir(_, _) => Totals(1, 0, 0, 1).Plus(Below(e.node))
    case File(fp) => Totals(1, if fp.size < 0 then 0 else fp.size, 1, 0)
    case _ => Totals(1, 0, 0, 0)
  }

  /** No symlink, special file, bad name, deep directory or large file below a directory. */
  predicate Acceptable(l: Limits, n: Node, depth: nat)
    decreases n, 1
  {
    match n
    case Dir(_, children) => depth <= l.maxDepth && AllAcceptable(l, children, depth)
    case File(fp) => fp.size <= l.maxFileBytes
    case _ => false
  }

  predicate AllAcceptable(l: Limits, es: seq<Entry>, depth: nat)
    decreases es, 0
  {
    es == [] ||
    var name := es[0].name;
    && name !in {[], [DOT], [DOT, DOT]} && SLASH !in name && BACKSLASH !in name && 0 !in name
    && Acceptable(l, es[0].node, depth + 1) && AllAcceptable(l, es[1..], depth)
  }

  /** What a complete hash promises about the tree, read off the tree alone. */
  predicate WithinLimits(l: Limits, root: Node) {
    && root.Dir?
    && Acceptable(l, root, 0)
    && Below(root).entries <= l.maxEntries
    && Below(root).size <= l.maxTotalBytes
  }

  // ------------------------------------------------------------------ the walk

  datatype Code =
    | TimeLimit | IdentityChanged | PathInvalid | ReadUnavailable | SymlinkRejected
    | SpecialRejected | FileLimit | ByteLimit | DepthLimit

  datatype Status = Complete | Partial | Oversize | Unavailable

  datatype TreeDigest = TreeDigest(size: int, files: int, directories: int, symlinks: int) {
    function Seen(): int {
      files + directories + symlinks
    }
  }

  datatype State = State(
    hashed: bytes, entries: int, pending: int, errors: seq<Code>, partial: bool, oversize: bool,
    stopped: bool, timeLimited: bool, digest: TreeDigest)
  {
    predicate Marked() {
      partial || oversize
    }

    function Status(): Status {
      if oversize then Oversize else if partial then Partial else Complete
    }
  }

  function Initial(domain: bytes): State {
    State(Field(domain), 0, 0, [], false, false, false, false, TreeDigest(0, 0, 0, 0))
  }

  /** The budgets that hold whatever the file system and the clock do. */
  predicate WithinBudget(l: Limits, s: State) {
    && 0 <= s.entries && 0 <= s.pending && s.entries + s.pending <= l.maxEntries
    && 0 <= s.digest.size <= l.maxTotalBytes
    && 0 <= s.digest.files && 0 <= s.digest.directories && 0 <= s.digest.symlinks
    && s.digest.Seen() <= s.entries
    && |s.errors| <= l.maxErrors
    && (s.errors != [] <==> s.Marked())
    && (s.stopped <==> s.oversize) && (s.timeLimited ==> s.partial)
    && (s.oversize ==> ReportsLimit(s.errors) || |s.errors| == l.maxErrors)
    && (ReportsLimit(s.errors) ==> s.oversize) && (s.timeLimited ==> TimeLimit in s.errors)
  }

  /** One of the limits on entries, bytes and depth is among the errors. */
  predicate ReportsLimit(errors: seq<Code>) {
    FileLimit in errors || ByteLimit in errors || DepthLimit in errors
  }

  function AddError(l: Limits, s: State, code: Code, oversize: bool): State {
    if s.stopped then s
    else if |s.errors| >= l.maxErrors then s.(oversize := true, stopped := true)
    else if oversize then s.(errors := s.errors + [code], oversize := true, stopped := true)
    else s.(errors := s.errors + [code], partial := true)
  }

  function Write(s: State, record: bytes): State {
    s.(hashed := s.hashed + Field(record))
  }

  /** walk on a tree that stays still, with no deadline. */
  function Walk(l: Limits, disk: Disk, s: State, n: Node, relative: bytes, depth: nat, targetRoot: bool): State
    decreases n, 1
  {
    if s.stopped then s
    else if !n.Dir? then AddError(l, s, ReadUnavailable, false)
    else
      var entered := if targetRoot then s else s.(digest := s.digest.(directories := s.digest.directories + 1));
      WalkListing(l, disk, Write(entered, DirRecord(relative, n.perm)), n.children, relative, depth)
  }

  function WalkListing(l: Limits, disk: Disk, s: State, es: seq<Entry>, parent: bytes, depth: nat): State
    decreases es, 1
  {
    if |es| > l.maxEntries - s.entries - s.pending then AddError(l, s, FileLimit, true)
    else WalkAll(l, disk, s.(pending := s.pending + |es|), es, parent, depth)
  }

  function WalkAll(l: Limits, disk: Disk, s: State, es: seq<Entry>, parent: bytes, depth: nat): State
    decreases es, 0
  {
    if es == [] then s
    else
      var taken := s.(pending := s.pending - 1);
      if taken.stopped then taken
      else WalkAll(l, disk, WalkOne(l, disk, taken, es[0], parent, depth), es[1..], parent, depth)
  }

  function WalkOne(l: Limits, disk: Disk, s: State, e: Entry, parent: bytes, depth: nat): State
    decreases e, 0
  {
    var counted := s.(entries := s.entries + 1);
    if !ValidName(e.name) then AddError(l, counted, PathInvalid, false)
    else WalkNode(l, disk, counted, e.node, Join(parent, e.name), depth)
  }

  function WalkNode(l: Limits, disk: Disk, s: State, n: Node, relative: bytes, depth: nat): State
    decreases n, 2
  {
    match n
    case Symlink(target) =>
      var counted := s.(digest := s.digest.(symlinks := s.digest.symlinks + 1));
      var linked := Write(counted, Record(RECORD_SYMLINK, [relative, disk.sha(target)]));
      AddError(l, linked, SymlinkRejected, false)
    case Special(typ) =>
      AddError(l, Write(s, Record(RECORD_SPECIAL, [relative, U32(typ)])), SpecialRejected, false)
    case Dir(_, _) =>
      if depth + 1 > l.maxDepth then AddError(l, s, DepthLimit, true)
      else Walk(l, disk, s, n, relative, depth + 1, false)
    case File(fp) =>
      var filed := s.(digest := s.digest.(files := s.digest.files + 1));
      if fp.size > l.maxFileBytes || fp.size < 0 || fp.size > l.maxTotalBytes - s.digest.size then
        AddError(l, filed, ByteLimit, true)
      else Write(filed.(digest := filed.digest.(size := s.digest.size + fp.size)), FileRecord(disk, relative, fp))
  }

  /** Room left for one more entry: it can be counted, and the budget holds with it. */
  lemma {:induction false} CountEntry(l: Limits, s: State)
    requires WithinBudget(l, s) && s.entries + s.pending < l.maxEntries
    ensures var counted := s.(entries := s.entries + 1);
            WithinBudget(l, counted) && counted.digest.Seen() < counted.entries
  {}

  /** A counted directory can be entered: its record is written and it is seen. */
  lemma {:induction false} EnterKeepsBudget(l: Limits, s: State, record: bytes)
    requires WithinBudget(l, s)
    ensures WithinBudget(l, Write(s, record))
    ensures s.digest.Seen() < s.entries ==>
              WithinBudget(l, Write(s.(digest := s.digest.(directories := s.digest.directories + 1)), record))
  {}

  lemma {:induction false} AddErrorKeepsBudget(l: Limits, s: State, code: Code, oversize: bool)
    requires ValidLimits(l) && WithinBudget(l, s) && code != TimeLimit
    requires oversize <==> code == FileLimit || code == ByteLimit || code == DepthLimit
    ensures var r := AddError(l, s, code, oversize);
            WithinBudget(l, r) && r.Marked() && r.pending == s.pending && r.entries == s.entries
  {}

  lemma {:induction false} WalkAllStep(l: Limits, disk: Disk, s: State, es: seq<Entry>, i: nat, parent: bytes, depth: nat)
    requires i < |es|
    ensures var taken := s.(pending := s.pending - 1);
            WalkAll(l, disk, s, es[i..], parent, depth)
            == if taken.stopped then taken
               else WalkAll(l, disk, WalkOne(l, disk, taken, es[i], parent, depth), es[i + 1..], parent, depth)
  {
    assert es[i..][1..] == es[i + 1..];
  }

  // --------------------------------------------------- the walk is the manifest

  lemma {:induction false} MarkedWalkStaysMarked(
    l: Limits, disk: Disk, s: State, n: Node, relative: bytes, depth: nat, targetRoot: bool)
    requires s.Marked()
    ensures Walk(l, disk, s, n, relative, depth, targetRoot).Marked()
    decreases n, 1
  {
    if !s.stopped && n.Dir? && |n.children| <= l.maxEntries - s.entries - s.pending {
      var counted := if targetRoot then s else s.(digest := s.digest.(directories := s.digest.directories + 1));
      var entered := Write(counted, DirRecord(relative, n.perm));
      MarkedListStaysMarked(l, disk, entered.(pending := entered.pending + |n.children|), n.children, relative, depth);
    }
  }

  lemma {:induction false} MarkedListStaysMarked(
    l: Limits, disk: Disk, s: State, es: seq<Entry>, parent: bytes, depth: nat)
    requires s.Marked()
    ensures WalkAll(l, disk, s, es, parent, depth).Marked()
    decreases es, 0
  {
    if es != [] && !s.stopped {
      var taken := s.(pending := s.pending - 1);
      MarkedEntryStaysMarked(l, disk, taken, es[0], parent, depth);
      MarkedListStaysMarked(l, disk, WalkOne(l, disk, taken, es[0], parent, depth), es[1..], parent, depth);
    }
  }

  lemma {:induction false} MarkedEntryStaysMarked(
    l: Limits, disk: Disk, s: State, e: Entry, parent: bytes, depth: nat)
    requires s.Marked()
    ensures WalkOne(l, disk, s, e, parent, depth).Marked()
    decreases e, 2
  {
    if ValidName(e.name) && e.node.Dir? && depth + 1 <= l.maxDepth {
      MarkedWalkStaysMarked(l, disk, s.(entries := s.entries + 1), e.node, Join(parent, e.name), depth + 1, false);
    }
  }

  /** A state from which nothing has gone wrong yet. */
  predicate Spotless(l: Limits, s: State) {
    && ValidLimits(l) && WithinBudget(l, s) && !s.Marked()
  }

  /** Room for what is below a directory, once `listed` of its entries are already pending. */
  predicate Room(l: Limits, s: State, t: Totals, listed: nat) {
    && s.entries + s.pending + t.entries - listed <= l.maxEntries
    && s.digest.size + t.size <= l.maxTotalBytes
  }

  function Advance(s: State, t: Totals, records: seq<bytes>, listed: nat): State {
    s.(hashed := s.hashed + Fields(records), entries := s.entries + t.entries, pending := s.pending - listed,
       digest := s.digest.(size := s.digest.size + t.size, files := s.digest.files + t.files,
                           directories := s.digest.directories + t.directories))
  }

  lemma EnterAndAdvance(s: State, dir: bytes, t: Totals, records: seq<bytes>, listed: nat)
    ensures Advance(Write(s, dir).(pending := s.pending + listed), t, records, listed)
         == Advance(s, t, [dir] + records, 0)
  {
    FieldsAppend([dir], records);
    SingleField(dir);
    Associative(s.hashed, Field(dir), Fields(records));
  }

  lemma SingleField(b: bytes)
    ensures Fields([b]) == Field(b)
  {
    assert Field(b) + [] == Field(b);
  }

  lemma {:induction false} AdvanceTwice(s: State, t: Totals, records: seq<bytes>, t': Totals, records': seq<bytes>, listed: nat)
    ensures Advance(Advance(s.(pending := s.pending - 1), t, records, 0), t', records', listed)
         == Advance(s, t.Plus(t'), records + records', listed + 1)
  {
    FieldsAppend(records, records');
    Associative(s.hashed, Fields(records), Fields(records'));
  }

  lemma {:induction false} WalkIsExact(
    l: Limits, disk: Disk, s: State, n: Node, relative: bytes, depth: nat, targetRoot: bool)
    requires Spotless(l, s) && n.Dir? && WellFormed(n) && depth <= l.maxDepth
    requires !targetRoot ==> s.digest.Seen() < s.entries
    ensures var r := Walk(l, disk, s, n, relative, depth, targetRoot);
            && (r.Marked() <==> !(Acceptable(l, n, depth) && Room(l, s, Below(n), 0)))
            && (!r.Marked() ==>
                  r == Advance(if targetRoot then s else s.(digest := s.digest.(directories := s.digest.directories + 1)),
                               Below(n), Manifest(disk, n, relative), 0))
    decreases n, 1
  {
    hide Fields, DirRecord, WalkAll, AllAcceptable, TotalsOf, ManifestAll;
    var counted := if targetRoot then s else s.(digest := s.digest.(directories := s.digest.directories + 1));
    var dir := DirRecord(relative, n.perm);
    if |n.children| <= l.maxEntries - s.entries - s.pending {
      var listed := Write(counted, dir).(pending := counted.pending + |n.children|);
      ListIsExact(l, disk, listed, n.children, relative, depth);
      EnterAndAdvance(counted, dir, Below(n), ManifestAll(disk, n.children, relative), |n.children|);
    }
  }

  lemma {:induction false} ListIsExact(
    l: Limits, disk: Disk, s: State, es: seq<Entry>, parent: bytes, depth: nat)
    requires Spotless(l, s) && AllWellFormed(es) && depth <= l.maxDepth && |es| <= s.pending
    ensures var r := WalkAll(l, disk, s, es, parent, depth);
            && (r.Marked() <==> !(AllAcceptable(l, es, depth) && Room(l, s, TotalsOf(es), |es|)))
            && (!r.Marked() ==> r == Advance(s, TotalsOf(es), ManifestAll(disk, es, parent), |es|))
    decreases es, 0
  {
    if es == [] {
      assert s.hashed + Fields([]) == s.hashed;
    } else {
      var taken := s.(pending := s.pending - 1);
      var first := WalkOne(l, disk, taken, es[0], parent, depth);
      EntryIsExact(l, disk, taken, es[0], parent, depth);
      if first.Marked() {
        MarkedListStaysMarked(l, disk, first, es[1..], parent, depth);
      } else {
        ListIsExact(l, disk, first, es[1..], parent, depth);
        AdvanceTwice(s, TotalsOfOne(es[0]), Manifest(disk, es[0].node, Join(parent, es[0].name)),
                     TotalsOf(es[1..]), ManifestAll(disk, es[1..], parent), |es| - 1);
      }
    }
  }

  lemma {:induction false} LeafManifest(disk: Disk, n: Node, relative: bytes)
    ensures n.File? ==> Manifest(disk, n, relative) == [FileRecord(disk, relative, n.fp)]
  {
    hide FileRecord;
  }

  lemma {:induction false} LeafAcceptable(l: Limits, n: Node, depth: nat)
    ensures n.File? ==> (Acceptable(l, n, depth) <==> n.fp.size <= l.maxFileBytes)
    ensures n.Dir? && Acceptable(l, n, depth) ==> depth <= l.maxDepth
    ensures n.Symlink? || n.Special? ==> !Acceptable(l, n, depth)
  {}

  lemma {:induction false} EntryIsExact(l: Limits, disk: Disk, s: State, e: Entry, parent: bytes, depth: nat)
    requires Spotless(l, s) && WellFormed(e.node) && depth <= l.maxDepth
    requires s.entries + s.pending < l.maxEntries
    ensures var r := WalkOne(l, disk, s, e, parent, depth);
            && (r.Marked() <==> !(ValidName(e.name) && Acceptable(l, e.node, depth + 1)
                                  && Room(l, s, TotalsOfOne(e), 0)))
            && (!r.Marked() ==> WithinBudget(l, r))
            && (!r.Marked() ==> r == Advance(s, TotalsOfOne(e), Manifest(disk, e.node, Join(parent, e.name)), 0))
    decreases e, 2
  {
    hide Walk, Fields, FileRecord, Record, Manifest, Acceptable, Below, Join, ValidName;
    var counted := s.(entries := s.entries + 1);
    var relative := Join(parent, e.name);
    LeafManifest(disk, e.node, relative);
    LeafAcceptable(l, e.node, depth + 1);
    if ValidName(e.name) {
      match e.node
      case Symlink(_) =>
      case Special(_) =>
      case Dir(_, _) =>
        if depth + 1 <= l.maxDepth {
          WalkIsExact(l, disk, counted, e.node, relative, depth + 1, false);
        }
      case File(fp) =>
        SingleField(FileRecord(disk, relative, fp));
    }
  }

  lemma {:induction false} HeadField(head: bytes, rest: seq<bytes>)
    ensures Fields([head] + rest) == Field(head) + Fields(rest)
  {
    FieldsAppend([head], rest);
    SingleField(head);
  }

  /** The walk completes exactly on the trees within limits, and then hashes their manifest. */
  lemma {:induction false} HashTreeIsExact(l: Limits, disk: Disk, domain: bytes, root: Node)
    requires ValidLimits(l) && root.Dir? && WellFormed(root)
    ensures var r := Walk(l, disk, Initial(domain), root, [], 0, true);
            && (r.Status() == Complete <==> WithinLimits(l, root))
            && (r.Status() == Complete ==>
                  && r.hashed == Stream(disk, domain, root)
                  && r.digest == TreeDigest(Below(root).size, Below(root).files, Below(root).directories, 0))
  {
    WalkIsExact(l, disk, Initial(domain), root, [], 0, true);
    HeadField(domain, Manifest(disk, root, []));
  }
}
