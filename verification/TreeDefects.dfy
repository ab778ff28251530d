// What a scan reports of a tree with defects in it: every one of them, in listing order, beside all that could be read.
module TreeDefects {
  import opened Framing
  import opened EvidenceTree

  // Everything a walk comes to know of a subtree: its records, its totals, and its defects.
  datatype Findings = Findings(records: seq<bytes>, totals: Totals, symlinks: nat, defects: seq<Code>) {
    function Plus(other: Findings): Findings {
      Findings(records + other.records, totals.Plus(other.totals), symlinks + other.symlinks, defects + other.defects)
    }
  }

  const NOTHING_FOUND := Findings([], Totals(0, 0, 0, 0), 0, [])

  predicate BadName(name: bytes) {
    name in {[], [DOT], [DOT, DOT]} || SLASH in name || BACKSLASH in name || 0 in name
  }

  /** Below a directory: an entry with a bad name is passed over, and a link or a special file is recorded, not followed. */
  function FoundAll(disk: Disk, es: seq<Entry>, parent: bytes): (f: Findings)
    ensures f.totals.entries >= |es|
    ensures f.totals.files + f.totals.directories + f.symlinks <= f.totals.entries
    decreases es, 0
  {
    if es == [] then NOTHING_FOUND
    else FoundOne(disk, es[0], parent).Plus(FoundAll(disk, es[1..], parent))
  }

  function FoundOne(disk: Disk, e: Entry, parent: bytes): (f: Findings)
    ensures 1 <= f.totals.entries
    ensures f.totals.files + f.totals.directories + f.symlinks <= f.totals.entries
    decreases e, 2
  {
    var path := Join(parent, e.name);
    if BadName(e.name) then Findings([], Totals(1, 0, 0, 0), 0, [PathInvalid])
    else match e.node
      case Symlink(target) =>
        Findings([Record(RECORD_SYMLINK, [path, disk.sha(target)])], Totals(1, 0, 0, 0), 1, [SymlinkRejected])
      case Special(typ) => Findings([Record(RECORD_SPECIAL, [path, U32(typ)])], Totals(1, 0, 0, 0), 0, [SpecialRejected])
      case File(fp) => Findings([FileRecord(disk, path, fp)], Totals(1, if fp.size < 0 then 0 else fp.size, 1, 0), 0, [])
      case Dir(perm, children) =>
        Findings([DirRecord(path, perm)], Totals(1, 0, 0, 1), 0, []).Plus(FoundAll(disk, children, path))
  }

  /** No directory too deep and no file too large where the walk gets to. */
  predicate Bounded(l: Limits, es: seq<Entry>, depth: nat)
    decreases es, 0
  {
    es == [] ||
    ((BadName(es[0].name) ||
      match es[0].node
      case Dir(_, children) => depth + 1 <= l.maxDepth && Bounded(l, children, depth + 1)
      case File(fp) => 0 <= fp.size <= l.maxFileBytes
      case _ => true)
     && Bounded(l, es[1..], depth))
  }

  /** A state the walk goes on from, with room for what is found below, `listed` entries of which are pending. */
  predicate Fits(l: Limits, s: State, f: Findings, listed: nat) {
    && !s.stopped && !s.oversize && listed <= s.pending
    && s.entries + s.pending + f.totals.entries - listed <= l.maxEntries
    && 0 <= s.digest.size && s.digest.size + f.totals.size <= l.maxTotalBytes
    && |s.errors| + |f.defects| <= l.maxErrors
  }

  /** The state once all that was found has been taken in. */
  function Take(s: State, f: Findings, listed: nat): State {
    s.(hashed := s.hashed + Fields(f.records), entries := s.entries + f.totals.entries, pending := s.pending - listed,
       errors := s.errors + f.defects, partial := s.partial || f.defects != [],
       digest := TreeDigest(s.digest.size + f.totals.size, s.digest.files + f.totals.files,
                            s.digest.directories + f.totals.directories, s.digest.symlinks + f.symlinks))
  }

  lemma TakeTwice(s: State, f: Findings, g: Findings, listed: nat)
    requires s.pending > 0
    ensures Take(Take(s.(pending := s.pending - 1), f, 0), g, listed) == Take(s, f.Plus(g), listed + 1)
  {
    FieldsAppend(f.records, g.records);
    Associative(s.hashed, Fields(f.records), Fields(g.records));
    assert s.errors + f.defects + g.defects == s.errors + (f.defects + g.defects);
  }

  /** One entry at a time: what is found, what is bounded, and how the walk goes on. */
  lemma {:induction false} NextEntry(l: Limits, disk: Disk, s: State, es: seq<Entry>, parent: bytes, depth: nat)
    requires es != [] && !s.stopped
    ensures FoundAll(disk, es, parent) == FoundOne(disk, es[0], parent).Plus(FoundAll(disk, es[1..], parent))
    ensures Bounded(l, es, depth) ==> Bounded(l, es[1..], depth)
    ensures WalkAll(l, disk, s, es, parent, depth)
         == WalkAll(l, disk, WalkOne(l, disk, s.(pending := s.pending - 1), es[0], parent, depth), es[1..], parent, depth)
  {
    hide FoundOne, WalkOne;
  }

  lemma {:induction false} NoEntry(l: Limits, disk: Disk, s: State, parent: bytes, depth: nat)
    ensures FoundAll(disk, [], parent) == NOTHING_FOUND
    ensures WalkAll(l, disk, s, [], parent, depth) == s == Take(s, NOTHING_FOUND, 0)
  {
    assert s.hashed + Fields([]) == s.hashed && s.errors + [] == s.errors;
  }

  lemma {:induction false} TakesAll(l: Limits, disk: Disk, s: State, es: seq<Entry>, parent: bytes, depth: nat)
    requires Bounded(l, es, depth) && Fits(l, s, FoundAll(disk, es, parent), |es|)
    ensures WalkAll(l, disk, s, es, parent, depth) == Take(s, FoundAll(disk, es, parent), |es|)
    decreases es, 0
  {
    hide Fields, FoundOne, WalkOne, FoundAll, WalkAll, Bounded;
    if es == [] {
      NoEntry(l, disk, s, parent, depth);
    } else {
      var taken := s.(pending := s.pending - 1);
      var f, g := FoundOne(disk, es[0], parent), FoundAll(disk, es[1..], parent);
      NextEntry(l, disk, s, es, parent, depth);
      assert es == [es[0]] + es[1..];
      TakesOne(l, disk, taken, es[0], parent, depth, es[1..]);
      TakesAll(l, disk, Take(taken, f, 0), es[1..], parent, depth);
      TakeTwice(s, f, g, |es| - 1);
    }
  }

  lemma {:induction false} TakesOne(l: Limits, disk: Disk, s: State, e: Entry, parent: bytes, depth: nat, rest: seq<Entry>)
    requires Bounded(l, [e] + rest, depth) && Fits(l, s, FoundOne(disk, e, parent), 0)
    ensures WalkOne(l, disk, s, e, parent, depth) == Take(s, FoundOne(disk, e, parent), 0)
    decreases e, 2
  {
    hide Fields, Record, FileRecord, DirRecord, Join;
    var path, counted := Join(parent, e.name), s.(entries := s.entries + 1);
    assert ([e] + rest)[1..] == rest && ([e] + rest)[0] == e;
    NoFields(s.hashed);
    if !BadName(e.name) {
      match e.node
      case Symlink(target) => SingleField(Record(RECORD_SYMLINK, [path, disk.sha(target)]));
      case Special(typ) => SingleField(Record(RECORD_SPECIAL, [path, U32(typ)]));
      case File(fp) => SingleField(FileRecord(disk, path, fp));
      case Dir(perm, children) => TakesDirectory(l, disk, counted, perm, children, path, depth + 1);
    }
  }

  lemma NoFields(hashed: bytes)
    ensures hashed + Fields([]) == hashed
  {}

  lemma {:induction false} DirectoryIsListed(
    l: Limits, disk: Disk, s: State, perm: uint32, children: seq<Entry>, path: bytes, depth: nat)
    requires !s.stopped && |children| <= l.maxEntries - s.entries - s.pending
    ensures var entered := Write(s.(digest := s.digest.(directories := s.digest.directories + 1)), DirRecord(path, perm));
            Walk(l, disk, s, Dir(perm, children), path, depth, false)
            == WalkAll(l, disk, entered.(pending := entered.pending + |children|), children, path, depth)
  {
    hide WalkAll, DirRecord, Field;
  }

  lemma {:induction false} TakesDirectory(
    l: Limits, disk: Disk, s: State, perm: uint32, children: seq<Entry>, path: bytes, depth: nat)
    requires Bounded(l, children, depth) && Fits(l, s, FoundAll(disk, children, path), 0)
    ensures var f := Findings([DirRecord(path, perm)], Totals(0, 0, 0, 1), 0, []).Plus(FoundAll(disk, children, path));
            Walk(l, disk, s, Dir(perm, children), path, depth, false) == Take(s, f, 0)
    decreases children, 1
  {
    hide Fields, DirRecord, FoundAll, WalkAll, Walk, Bounded;
    var dir, below := DirRecord(path, perm), FoundAll(disk, children, path);
    var entered := Write(s.(digest := s.digest.(directories := s.digest.directories + 1)), dir);
    DirectoryIsListed(l, disk, s, perm, children, path, depth);
    TakesAll(l, disk, entered.(pending := entered.pending + |children|), children, path, depth);
    FieldsAppend([dir], below.records);
    SingleField(dir);
    Associative(s.hashed, Field(dir), Fields(below.records));
    assert [] + below.defects == below.defects;
  }

  /**
   * A scan of a tree within every limit, defects included, takes in everything below its root: it is complete without a
   * defect and partial with one, its errors are the defects in listing order, and it hashed and counted all the rest.
   */
  lemma {:induction false} ReportsDefects(l: Limits, disk: Disk, domain: bytes, root: Node)
    requires ValidLimits(l) && root.Dir? && Bounded(l, root.children, 0)
    requires var f := FoundAll(disk, root.children, []);
             f.totals.entries <= l.maxEntries && f.totals.size <= l.maxTotalBytes && |f.defects| <= l.maxErrors
    ensures var r, f := Walk(l, disk, Initial(domain), root, [], 0, true), FoundAll(disk, root.children, []);
            && r.errors == f.defects && r.Status() == (if f.defects == [] then Complete else Partial)
            && r.hashed == Fields([domain, DirRecord([], root.perm)] + f.records)
            && r.digest == TreeDigest(f.totals.size, f.totals.files, f.totals.directories, f.symlinks)
            && r.entries == f.totals.entries && r.pending == 0
  {
    hide Fields, DirRecord, FoundAll, WalkAll, Bounded;
    var dir, f := DirRecord([], root.perm), FoundAll(disk, root.children, []);
    var entered := Write(Initial(domain), dir);
    TakesAll(l, disk, entered.(pending := |root.children|), root.children, [], 0);
    SingleField(domain);
    SingleField(dir);
    FieldsAppend([domain], [dir]);
    FieldsAppend([domain] + [dir], f.records);
    assert [domain] + [dir] == [domain, dir] && [] + f.defects == f.defects;
  }
}
