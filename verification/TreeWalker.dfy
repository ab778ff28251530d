// The tree hasher as it runs: a record of counters and flags updated by mutually
// recursive methods, against a file system that may fail or change at any call.
module TreeWalker {
  import opened Framing
  import opened Ordering
  import opened EvidenceTree
  import opened ContentCache
  import opened TreeCache

  datatype OpenError = NoError | UnsafePath | InvalidArgument | OtherError

  datatype Stat = Seen(node: Node) | Failed(error: OpenError)

  datatype ReadStatus = More | EndOfDirectory | ReadFailed

  datatype FileDigest = FileDigest(digest: Digest, size: int64, fingerprint: Fingerprint)

  datatype CacheStatus = Disabled | Hit | Miss | Rejected

  const BATCH: int := 256

  /** The first entry of that name. */
  function Child(es: seq<Entry>, name: bytes): Option<Node> {
    if es == [] then None else if es[0].name == name then Some(es[0].node) else Child(es[1..], name)
  }

  lemma {:induction false} ChildAt(es: seq<Entry>, i: nat)
    requires i < |es| && StrictlySorted(Names(es))
    ensures Child(es, es[i].name) == Some(es[i].node)
  {
    if i > 0 {
      assert Less(Names(es)[0], Names(es)[i]);
      LessIrreflexive(es[0].name);
      assert Names(es)[1..] == Names(es[1..]);
      ChildAt(es[1..], i - 1);
    }
  }

  lemma {:induction false} WellFormedAt(es: seq<Entry>, i: nat)
    requires i < |es| && AllWellFormed(es)
    ensures WellFormed(es[i].node)
  {
    if i > 0 { WellFormedAt(es[1..], i - 1); }
  }

  lemma {:induction false} EntryAt(root: Node, i: nat)
    requires root.Dir? && WellFormed(root) && i < |root.children|
    ensures var e := root.children[i];
            Child(root.children, e.name) == Some(e.node) && WellFormed(e.node)
  {
    ChildAt(root.children, i);
    WellFormedAt(root.children, i);
  }

  /**
   * The file system and the clock. When `still`, every call succeeds and shows one
   * unchanging tree; otherwise any call may fail, or show something else than the
   * call before it. A completed hash is always of the content its fingerprint stands for.
   * When `caching`, every file can be looked up in the cache.
   */
  class Environment {
    const still: bool
    const caching: bool
    const disk: Disk
    var expired: bool
    // Some call of the scan has failed.
    ghost var faulted: bool

    constructor (still: bool, caching: bool, disk: Disk)
      ensures this.still == still && this.caching == caching && this.disk == disk && !expired && !faulted
    {
      this.still, this.caching := still, caching;
      this.disk := disk;
      expired, faulted := false, false;
    }

    /** ctx.Err() != nil: once true it stays true. */
    method Expired() returns (b: bool)
      modifies this`expired
      ensures b == expired
      ensures old(expired) ==> expired
      ensures still ==> expired == old(expired)
    {
      if !still {
        var passed: bool := *;
        expired := expired || passed;
      }
      b := expired;
    }

    method LstatSelf(root: Node) returns (r: Stat)
      modifies this`faulted
      ensures faulted == (old(faulted) || r.Failed?)
      ensures still ==> r == Seen(root)
    {
      r := *;
      if still { r := Seen(root); }
      faulted := faulted || r.Failed?;
    }

    method Lstat(root: Node, name: bytes) returns (r: Stat)
      modifies this`faulted
      ensures faulted == (old(faulted) || r.Failed?)
      ensures still && root.Dir? && Child(root.children, name).Some? ==> r == Seen(Child(root.children, name).value)
    {
      r := *;
      if still && root.Dir? && Child(root.children, name).Some? {
        r := Seen(Child(root.children, name).value);
      }
      faulted := faulted || r.Failed?;
    }

    method OpenRoot(root: Node, name: bytes) returns (r: Stat)
      modifies this`faulted
      ensures faulted == (old(faulted) || r.Failed?)
      ensures still && root.Dir? && Child(root.children, name).Some? ==> r == Seen(Child(root.children, name).value)
    {
      r := Lstat(root, name);
    }

    method Readlink(seen: Node) returns (target: Option<bytes>)
      requires seen.Symlink?
      modifies this`faulted
      ensures faulted == (old(faulted) || target.None?)
      ensures still ==> target == Some(seen.target)
    {
      target := *;
      if still { target := Some(seen.target); }
      faulted := faulted || target.None?;
    }

    method OpenDirectory(root: Node) returns (listing: Option<seq<bytes>>)
      modifies this`faulted
      ensures faulted == (old(faulted) || listing.None?)
      ensures still && root.Dir? ==> listing == Some(Names(root.children))
    {
      listing := *;
      if still && root.Dir? { listing := Some(Names(root.children)); }
      faulted := faulted || listing.None?;
    }

    /** Up to `request` of the names not handed out yet, in any order. */
    method ReadDir(rest: seq<bytes>, request: int) returns (chunk: seq<bytes>, rest': seq<bytes>, status: ReadStatus)
      requires request > 0
      modifies this`faulted
      ensures faulted == (old(faulted) || status == ReadFailed || (status == More && chunk == []))
      ensures |chunk| <= request
      ensures still ==> multiset(rest) == multiset(chunk) + multiset(rest')
      ensures still ==> status != ReadFailed && (status == EndOfDirectory ==> rest' == [])
      ensures still && chunk == [] ==> status == EndOfDirectory
    {
      chunk, rest', status := *, *, *;
      if still {
        var order: seq<bytes>, many: int := *, *;
        if multiset(order) != multiset(rest) { order := rest; }
        assert |order| == |multiset(order)| == |rest|;
        var count := if 0 < many <= request && many <= |order| then many
                     else if request <= |order| then request else |order|;
        chunk, rest' := order[..count], order[count..];
        assert order == chunk + rest';
        if rest' != [] {
          status := More;
        } else if status == ReadFailed || chunk == [] {
          status := EndOfDirectory;
        }
      } else if |chunk| > request {
        chunk := chunk[..request];
      }
      faulted := faulted || status == ReadFailed || (status == More && chunk == []);
    }

    method HashVerifiedFile(root: Node, name: bytes, maxBytes: int64)
      returns (file: FileDigest, status: Status, errors: seq<Code>)
      requires maxBytes > 0
      modifies this`faulted
      ensures faulted == (old(faulted) || status != Complete)
      ensures status == Complete ==>
                file.digest == disk.Leaf(file.fingerprint) && 0 <= file.size == file.fingerprint.size <= maxBytes
      ensures still && root.Dir? && Child(root.children, name).Some? && Child(root.children, name).value.File?
              && 0 <= Child(root.children, name).value.fp.size <= maxBytes ==>
                status == Complete && file.fingerprint == Child(root.children, name).value.fp
      ensures forall e | e in errors :: e in {IdentityChanged, SymlinkRejected, ReadUnavailable}
    {
      file, status := *, *;
      var code: Code := *;
      errors := if code in {IdentityChanged, SymlinkRejected, ReadUnavailable} then [code] else [];
      if status == Complete && !(0 <= file.fingerprint.size <= maxBytes) {
        status := Unavailable;
      }
      if still && root.Dir? && Child(root.children, name).Some? && Child(root.children, name).value.File?
         && 0 <= Child(root.children, name).value.fp.size <= maxBytes {
        file := file.(fingerprint := Child(root.children, name).value.fp);
        status := Complete;
      }
      file := file.(digest := disk.Leaf(file.fingerprint), size := file.fingerprint.size);
      faulted := faulted || status != Complete;
    }

    /** One of the conditions on the file and on the store for using the cache. */
    method Cacheable() returns (ok: bool)
      ensures caching ==> ok
    {
      ok := *;
      ok := ok || caching;
    }

    /** platform.Fingerprint: what identifies the file that was seen. */
    method Fingerprinted() returns (ok: bool)
      modifies this`faulted
      ensures faulted == (old(faulted) || !ok)
      ensures still ==> ok
    {
      ok := *;
      if still { ok := true; }
      faulted := faulted || !ok;
    }
  }

  /** What an error of opening is reported as. */
  function OpenCode(error: OpenError): Code {
    match error case UnsafePath => IdentityChanged case InvalidArgument => PathInvalid case _ => ReadUnavailable
  }

  /** Limits, and they alone, are reported as oversize; the deadline is reported elsewhere. */
  predicate OwnError(code: Code, isOversize: bool) {
    code != TimeLimit && (isOversize <==> code == FileLimit || code == ByteLimit || code == DepthLimit)
  }

  class TreeState {
    const limits: Limits
    const environment: Environment
    // The cache as this scan sees it: its own writes are stored only after it.
    const rows: map<Key, Row>
    const cacheEnabled: bool
    const target: Target
    var hashed: bytes
    var entries: int
    var pending: int
    var errors: seq<Code>
    var partial: bool
    var oversize: bool
    var stopped: bool
    var timeLimited: bool
    var digest: TreeDigest
    var cacheStatus: CacheStatus
    var writes: seq<CacheWrite>

    constructor (domain: bytes, limits: Limits, environment: Environment, target: Target, cache: Option<map<Key, Row>>)
      ensures Abs() == Initial(domain) && writes == [] && cacheStatus == Disabled
      ensures this.limits == limits && this.environment == environment && this.target == target
      ensures cacheEnabled == (target.observationID != [] && target.kind != [] && target.subject != [] && cache.Some?)
      ensures rows == cache.GetOr(map[])
      ensures ValidLimits(limits) && !environment.expired && !environment.faulted ==> Valid()
    {
      this.limits, this.environment, this.target := limits, environment, target;
      rows := cache.GetOr(map[]);
      cacheEnabled := target.Complete() && cache.Some?;
      hashed, entries, pending, errors := Field(domain), 0, 0, [];
      partial, oversize, stopped, timeLimited := false, false, false, false;
      digest := TreeDigest(0, 0, 0, 0);
      cacheStatus, writes := Disabled, [];
    }

    function Abs(): State
      reads this
    {
      State(hashed, entries, pending, errors, partial, oversize, stopped, timeLimited, digest)
    }

    /** Valid, and no failure has gone unreported: the scan is marked, or will be for its deadline. */
    ghost predicate Valid()
      reads this, environment
    {
      Kept() && (environment.faulted ==> Abs().Marked() || environment.expired)
    }

    ghost predicate Kept()
      reads this, environment
    {
      && ValidLimits(limits)
      && WithinBudget(limits, Abs())
      && TrueWrites(environment.disk, writes)
      && (environment.still ==> !environment.expired)
      && (!cacheEnabled ==> writes == [] && cacheStatus == Disabled)
    }

    /** The table may be trusted to the extent that its rows are true. */
    ghost predicate TrustedCache() {
      cacheEnabled ==> Truthful(environment.disk, rows)
    }

    /** Where the cache works, an unmarked walk of these leaves has noted a write for each that the table does not hold. */
    ghost predicate Noted(before: seq<CacheWrite>, leaves: seq<Leaf>)
      reads this, environment
    {
      environment.still && environment.caching && cacheEnabled && !Abs().Marked() ==>
        writes == before + Unheld(environment.disk, target, rows, leaves)
    }

    /** The same, for leaves still to come. */
    ghost predicate Owes(leaves: seq<Leaf>, all: seq<CacheWrite>)
      reads this, environment
    {
      environment.still && environment.caching && cacheEnabled && !Abs().Marked() ==>
        writes + Unheld(environment.disk, target, rows, leaves) == all
    }

    method AddErrorCode(code: Code, isOversize: bool)
      modifies this
      ensures Abs() == AddError(limits, old(Abs()), code, isOversize)
      ensures writes == old(writes) && cacheStatus == old(cacheStatus)
      ensures old(Kept()) && OwnError(code, isOversize) ==>
                Valid() && Abs().Marked() && entries == old(entries) && pending == old(pending)
    {
      ghost var before, kept := Abs(), Kept() && OwnError(code, isOversize);
      if kept { AddErrorKeepsBudget(limits, before, code, isOversize); }
      if stopped { return; }
      if |errors| >= limits.maxErrors {
        oversize, stopped := true, true;
        return;
      }
      errors := errors + [code];
      if isOversize {
        oversize, stopped := true, true;
      } else {
        partial := true;
      }
    }

    /** The time limit is recorded even when the error list is full: it takes the last place. */
    method MarkTimeLimit()
      modifies this
      ensures timeLimited && partial && TimeLimit in errors
      ensures errors == if TimeLimit in old(errors) then old(errors)
                        else if |old(errors)| < limits.maxErrors || old(errors) == [] then old(errors) + [TimeLimit]
                        else old(errors)[..|old(errors)| - 1] + [TimeLimit]
      ensures Abs() == old(Abs()).(errors := errors, partial := true, timeLimited := true)
      ensures writes == old(writes) && cacheStatus == old(cacheStatus)
      ensures ReportsLimit(errors) ==> ReportsLimit(old(errors))
      ensures ReportsLimit(old(errors)) ==> ReportsLimit(errors) || |errors| >= limits.maxErrors
    {
      timeLimited, partial := true, true;
      if TimeLimit in errors { return; }
      if |errors| < limits.maxErrors || |errors| == 0 {
        errors := errors + [TimeLimit];
        assert errors[|errors| - 1] == TimeLimit;
        return;
      }
      errors := errors[|errors| - 1 := TimeLimit];
      assert errors[|errors| - 1] == TimeLimit;
      assert forall e | e in errors && e != TimeLimit :: e in old(errors);
    }

    method WriteRecord(record: bytes)
      modifies this
      ensures Abs() == Write(old(Abs()), record)
      ensures writes == old(writes) && cacheStatus == old(cacheStatus)
    {
      hashed := hashed + Field(record);
    }

    method StopNow() returns (stop: bool)
      requires Valid()
      modifies this, environment
      ensures Valid()
      ensures stop <==> stopped || environment.expired
      ensures old(environment.expired) ==> environment.expired
      ensures entries == old(entries) && pending == old(pending)
      ensures !stop || environment.still ==> Abs() == old(Abs())
      ensures writes == old(writes) && cacheStatus == old(cacheStatus)
      ensures old(Abs().Marked()) ==> Abs().Marked()
      ensures stop ==> Abs().Marked()
    {
      if stopped { return true; }
      stop := environment.Expired();
      if stop { MarkTimeLimit(); }
    }

    method AddOpenError(error: OpenError)
      requires Kept()
      modifies this, environment
      ensures Valid()
      ensures old(environment.expired) ==> environment.expired
      ensures entries == old(entries) && pending == old(pending)
      ensures if environment.expired then timeLimited && stopped == old(stopped) && |errors| <= |old(errors)| + 1
              else Abs() == AddError(limits, old(Abs()), OpenCode(error), false)
      ensures Abs().Marked()
    {
      var late := environment.Expired();
      if late {
        MarkTimeLimit();
      } else if error == UnsafePath {
        AddErrorCode(IdentityChanged, false);
      } else if error == InvalidArgument {
        AddErrorCode(PathInvalid, false);
      } else {
        AddErrorCode(ReadUnavailable, false);
      }
    }

    /** walk: never over budget; on a still tree, exactly the walk of that tree. */
    method WalkDirectory(root: Node, relative: bytes, depth: nat, targetRoot: bool)
      requires Valid() && TrustedCache()
      requires depth <= limits.maxDepth
      requires !targetRoot ==> digest.Seen() < entries
      requires environment.still ==> WellFormed(root)
      modifies this, environment
      ensures Valid()
      ensures old(environment.expired) ==> environment.expired
      ensures pending >= old(pending)
      ensures stopped || environment.expired || pending == old(pending)
      ensures environment.still ==>
                Abs() == Walk(limits, environment.disk, old(Abs()), root, relative, depth, targetRoot)
      ensures old(Abs().Marked()) ==> Abs().Marked()
      ensures Noted(old(writes), Leaves(root, relative))
      decreases limits.maxDepth - depth, 7
    {
      hide TrueWrites, Truthful, Unheld, LeavesOf, WalkListing, AllWellFormed, WithinBudget, ValidLimits, DirRecord, AddError;
      var stop := StopNow();
      if stop { return; }
      var info := environment.LstatSelf(root);
      if info.Failed? || !info.node.Dir? {
        AddOpenError(if info.Failed? then info.error else NoError);
        return;
      }
      EnterDirectory(root, info.node.perm, relative, depth, targetRoot);
    }

    /** A directory that was opened: it is counted and recorded, and then listed. */
    method EnterDirectory(root: Node, perm: uint32, relative: bytes, depth: nat, targetRoot: bool)
      requires Valid() && TrustedCache() && !stopped
      requires depth <= limits.maxDepth
      requires !targetRoot ==> digest.Seen() < entries
      requires environment.still ==> root.Dir? && WellFormed(root) && perm == root.perm
      modifies this, environment
      ensures Valid()
      ensures old(environment.expired) ==> environment.expired
      ensures pending >= old(pending)
      ensures stopped || environment.expired || pending == old(pending)
      ensures environment.still ==>
                Abs() == Walk(limits, environment.disk, old(Abs()), root, relative, depth, targetRoot)
      ensures old(Abs().Marked()) ==> Abs().Marked()
      ensures Noted(old(writes), Leaves(root, relative))
      decreases limits.maxDepth - depth, 6
    {
      hide TrueWrites, Truthful, Unheld, LeavesOf, WalkListing, AllWellFormed, WithinBudget, ValidLimits, DirRecord, AddError;
      EnterKeepsBudget(limits, Abs(), DirRecord(relative, perm));
      if !targetRoot { digest := digest.(directories := digest.directories + 1); }
      WriteRecord(DirRecord(relative, perm));
      var listing := environment.OpenDirectory(root);
      if listing.None? {
        var error: OpenError := *;
        AddOpenError(error);
        return;
      }
      WalkOpened(root, listing.value, relative, depth);
    }

    method WalkOpened(root: Node, listing: seq<bytes>, relative: bytes, depth: nat)
      requires Valid() && TrustedCache() && !stopped
      requires depth <= limits.maxDepth
      requires environment.still ==> root.Dir? && WellFormed(root) && listing == Names(root.children)
      modifies this, environment
      ensures Valid()
      ensures old(environment.expired) ==> environment.expired
      ensures pending >= old(pending)
      ensures stopped || environment.expired || pending == old(pending)
      ensures environment.still ==> Abs() == WalkListing(limits, environment.disk, old(Abs()), root.children, relative, depth)
      ensures old(Abs().Marked()) ==> Abs().Marked()
      ensures environment.still ==> Noted(old(writes), LeavesOf(root.children, relative))
      decreases limits.maxDepth - depth, 5
    {
      hide TrueWrites, Truthful, Unheld, LeavesOf, ValidLimits;
      var names, failed := ReadDirectory(listing);
      if stopped { return; }
      if failed {
        var late := environment.Expired();
        if late { return; }
        AddErrorCode(ReadUnavailable, false);
        return;
      }
      var sorted := Sort(names);
      SortLength(names);
      pending := pending + |sorted|;
      if environment.still { SortFinds(names, listing); }
      WalkEntries(root, sorted, relative, depth);
    }

    method WalkEntries(root: Node, sorted: seq<bytes>, relative: bytes, depth: nat)
      requires Valid() && TrustedCache() && pending >= |sorted|
      requires depth <= limits.maxDepth
      requires environment.still ==> root.Dir? && WellFormed(root) && sorted == Names(root.children)
      modifies this, environment
      ensures Valid()
      ensures old(environment.expired) ==> environment.expired
      ensures pending >= old(pending) - |sorted|
      ensures stopped || environment.expired || pending == old(pending) - |sorted|
      ensures environment.still ==>
                Abs() == WalkAll(limits, environment.disk, old(Abs()), root.children, relative, depth)
      ensures old(Abs().Marked()) ==> Abs().Marked()
      ensures environment.still ==> Noted(old(writes), LeavesOf(root.children, relative))
      decreases limits.maxDepth - depth, 4
    {
      hide WithinBudget, WalkOne, ValidLimits, TrueWrites, Truthful, Leaves, Held, LeafWrite, WellFormed;
      ghost var listed := if root.Dir? then root.children else [];
      ghost var whole := WalkAll(limits, environment.disk, Abs(), listed, relative, depth);
      ghost var noted := writes + Unheld(environment.disk, target, rows, LeavesOf(listed, relative));
      for i := 0 to |sorted|
        invariant Valid()
        invariant old(environment.expired) ==> environment.expired
        invariant pending >= old(pending) - i
        invariant stopped || environment.expired || pending == old(pending) - i
        invariant environment.still ==>
                    WalkAll(limits, environment.disk, Abs(), root.children[i..], relative, depth) == whole
        invariant old(Abs().Marked()) ==> Abs().Marked()
        invariant environment.still ==> Owes(LeavesOf(root.children[i..], relative), noted)
      {
        var stop := WalkNext(root, sorted[i], i, relative, depth, whole, noted);
        if stop { return; }
      }
    }

    /** One pending entry and all below it. */
    method WalkNext(root: Node, name: bytes, i: nat, relative: bytes, depth: nat,
                    ghost whole: State, ghost noted: seq<CacheWrite>) returns (stop: bool)
      requires Valid() && TrustedCache() && pending > 0
      requires depth <= limits.maxDepth
      requires environment.still ==>
                 && root.Dir? && WellFormed(root) && i < |root.children| && name == root.children[i].name
                 && WalkAll(limits, environment.disk, Abs(), root.children[i..], relative, depth) == whole
                 && Owes(LeavesOf(root.children[i..], relative), noted)
      modifies this, environment
      ensures Valid()
      ensures old(environment.expired) ==> environment.expired
      ensures pending >= old(pending) - 1
      ensures stopped || environment.expired || pending == old(pending) - 1
      ensures old(Abs().Marked()) ==> Abs().Marked()
      ensures !stop ==> !old(stopped)
      ensures stop ==> (stopped || environment.expired) && Abs().Marked()
      ensures environment.still && stop ==> Abs() == whole
      ensures environment.still && !stop ==>
                && WalkAll(limits, environment.disk, Abs(), root.children[i + 1..], relative, depth) == whole
                && Owes(LeavesOf(root.children[i + 1..], relative), noted)
      decreases limits.maxDepth - depth, 3
    {
      hide WithinBudget, WalkAll, WalkOne, ValidLimits, TrueWrites, Truthful, LeavesOf, Leaves, Unheld, WellFormed;
      stop := TakeEntry(root, i, relative, depth, whole);
      if stop { return; }
      ghost var e := Entry(name, root);
      if environment.still {
        e := root.children[i];
        EntryAt(root, i);
        UnheldStep(environment.disk, target, rows, root.children, i, relative);
      }
      WalkName(root, name, relative, depth, e);
    }

    /** Takes one pending entry, unless the walk has to stop before it. */
    method TakeEntry(root: Node, i: nat, relative: bytes, depth: nat, ghost whole: State) returns (stop: bool)
      requires Valid() && pending > 0
      requires environment.still ==>
                 && root.Dir? && i < |root.children|
                 && WalkAll(limits, environment.disk, Abs(), root.children[i..], relative, depth) == whole
      modifies this, environment
      ensures Valid()
      ensures old(environment.expired) ==> environment.expired
      ensures entries == old(entries) && pending == old(pending) - 1
      ensures stop <==> stopped || environment.expired
      ensures !stop ==> !old(stopped)
      ensures environment.still && stop ==> Abs() == whole
      ensures environment.still && !stop ==>
                var next := WalkOne(limits, environment.disk, Abs(), root.children[i], relative, depth);
                WalkAll(limits, environment.disk, next, root.children[i + 1..], relative, depth) == whole
      ensures old(Abs().Marked()) ==> Abs().Marked()
      ensures writes == old(writes)
      ensures stop ==> Abs().Marked()
      ensures entries + pending < limits.maxEntries
    {
      if environment.still {
        WalkAllStep(limits, environment.disk, Abs(), root.children, i, relative, depth);
      }
      pending := pending - 1;
      stop := StopNow();
    }

    method WalkName(root: Node, name: bytes, relative: bytes, depth: nat, ghost e: Entry)
      requires Valid() && TrustedCache() && !stopped
      requires entries + pending < limits.maxEntries
      requires depth <= limits.maxDepth
      requires environment.still ==>
                 root.Dir? && e.name == name && Child(root.children, name) == Some(e.node) && WellFormed(e.node)
      modifies this, environment
      ensures Valid()
      ensures old(environment.expired) ==> environment.expired
      ensures pending >= old(pending)
      ensures stopped || environment.expired || pending == old(pending)
      ensures environment.still ==>
                Abs() == WalkOne(limits, environment.disk, old(Abs()), e, relative, depth)
      ensures old(Abs().Marked()) ==> Abs().Marked()
      ensures Noted(old(writes), Leaves(e.node, Join(relative, name)))
      decreases limits.maxDepth - depth, 2
    {
      hide WithinBudget, WalkNode, Walk, WalkListing, WalkAll, AddError, ValidLimits, TrueWrites, Truthful, Join;
      CountEntry(limits, Abs());
      entries := entries + 1;
      if !ValidName(name) {
        AddErrorKeepsBudget(limits, Abs(), PathInvalid, false);
        AddErrorCode(PathInvalid, false);
      } else {
        DigestEntry(root, Join(relative, name), name, depth, e.node);
      }
    }

    /** The names of one directory, or an oversize stop as soon as they exceed the entries left. */
    method ReadDirectory(listing: seq<bytes>) returns (names: seq<bytes>, failed: bool)
      requires Valid() && !stopped
      modifies this, environment
      ensures Kept() && (!failed ==> Valid())
      ensures old(environment.expired) ==> environment.expired
      ensures entries == old(entries) && pending == old(pending)
      ensures stopped || failed || |names| <= limits.maxEntries - entries - pending
      ensures environment.still && |listing| > limits.maxEntries - entries - pending ==>
                Abs() == AddError(limits, old(Abs()), FileLimit, true)
      ensures environment.still && |listing| <= limits.maxEntries - entries - pending ==>
                !failed && Abs() == old(Abs()) && multiset(names) == multiset(listing)
      ensures old(Abs().Marked()) ==> Abs().Marked()
      ensures writes == old(writes)
    {
      var remaining := limits.maxEntries - entries - pending;
      var rest := listing;
      names := [];
      while true
        invariant Valid()
        invariant old(environment.expired) ==> environment.expired
        invariant Abs() == old(Abs()) && writes == old(writes) && |names| <= remaining
        invariant environment.still ==> multiset(names) + multiset(rest) == multiset(listing)
        decreases remaining - |names|
      {
        var stop := StopNow();
        if stop { return [], true; }
        var room := remaining - |names|;
        var request := if room < BATCH then room + 1 else BATCH;
        var chunk, left, status := environment.ReadDir(rest, request);
        names, rest := names + chunk, left;
        assert environment.still ==> multiset(names) + multiset(rest) == multiset(listing);
        assert |multiset(names)| + |multiset(rest)| == |multiset(names) + multiset(rest)|;
        assert |multiset(listing)| == |listing| && |multiset(names)| == |names|;
        if |names| > remaining {
          AddErrorCode(FileLimit, true);
          return [], false;
        }
        if status == EndOfDirectory { return names, false; }
        if status == ReadFailed || chunk == [] { return [], true; }
      }
    }

    /** One counted entry. The entry limit cannot be reached here: the listing already fitted in it. */
    method DigestEntry(root: Node, relative: bytes, name: bytes, parentDepth: nat, ghost node: Node)
      requires Valid() && TrustedCache() && !stopped
      requires digest.Seen() < entries
      requires parentDepth <= limits.maxDepth
      requires environment.still ==> root.Dir? && Child(root.children, name) == Some(node) && WellFormed(node)
      modifies this, environment
      ensures Valid()
      ensures old(environment.expired) ==> environment.expired
      ensures pending >= old(pending)
      ensures stopped || environment.expired || pending == old(pending)
      ensures environment.still ==>
                Abs() == WalkNode(limits, environment.disk, old(Abs()), node, relative, parentDepth)
      ensures old(Abs().Marked()) ==> Abs().Marked()
      ensures Noted(old(writes), Leaves(node, relative))
      decreases limits.maxDepth - parentDepth, 1
    {
      hide TrueWrites, Truthful, Unheld, LeavesOf, Walk, AddError, ValidLimits;
      var info := environment.Lstat(root, name);
      if info.Failed? {
        AddOpenError(info.error);
        return;
      }
      match info.node
      case Symlink(_) =>
        DigestSymlink(info.node, relative);
      case Dir(_, _) =>
        DigestDirectory(root, relative, name, parentDepth + 1, node);
      case Special(typ) =>
        WriteRecord(Record(RECORD_SPECIAL, [relative, U32(typ)]));
        AddErrorCode(SpecialRejected, false);
      case File(fp) =>
        DigestFile(root, relative, name, fp);
    }

    method DigestDirectory(root: Node, relative: bytes, name: bytes, depth: nat, ghost node: Node)
      requires Valid() && TrustedCache() && !stopped
      requires digest.Seen() < entries
      requires 0 < depth <= limits.maxDepth + 1
      requires environment.still ==> root.Dir? && Child(root.children, name) == Some(node) && WellFormed(node)
      modifies this, environment
      ensures Valid()
      ensures old(environment.expired) ==> environment.expired
      ensures pending >= old(pending)
      ensures stopped || environment.expired || pending == old(pending)
      ensures environment.still ==>
                Abs() == if depth > limits.maxDepth then AddError(limits, old(Abs()), DepthLimit, true)
                         else Walk(limits, environment.disk, old(Abs()), node, relative, depth, false)
      ensures old(Abs().Marked()) ==> Abs().Marked()
      ensures Noted(old(writes), Leaves(node, relative))
      decreases limits.maxDepth + 1 - depth, 0
    {
      if depth > limits.maxDepth {
        AddErrorCode(DepthLimit, true);
        return;
      }
      var child := environment.OpenRoot(root, name);
      if child.Failed? {
        AddOpenError(child.error);
        return;
      }
      WalkDirectory(child.node, relative, depth, false);
    }

    method DigestSymlink(seen: Node, relative: bytes)
      requires Valid() && seen.Symlink?
      requires digest.Seen() < entries
      modifies this, environment
      ensures Valid()
      ensures old(environment.expired) ==> environment.expired
      ensures entries == old(entries) && pending == old(pending)
      ensures environment.still ==>
                var linked := Write(old(Abs()).(digest := old(digest).(symlinks := old(digest).symlinks + 1)),
                                    Record(RECORD_SYMLINK, [relative, environment.disk.sha(seen.target)]));
                Abs() == AddError(limits, linked, SymlinkRejected, false)
      ensures Abs().Marked()
    {
      hide TrueWrites, Truthful, Record, Field, TreeState.TrustedCache, AddError;
      digest := digest.(symlinks := digest.symlinks + 1);
      var target := environment.Readlink(seen);
      if target.None? {
        var late := environment.Expired();
        if late {
          MarkTimeLimit();
          return;
        }
        AddErrorCode(ReadUnavailable, false);
        return;
      }
      WriteRecord(Record(RECORD_SYMLINK, [relative, environment.disk.sha(target.value)]));
      AddErrorCode(SymlinkRejected, false);
    }

    method DigestFile(root: Node, relative: bytes, name: bytes, fp: Fingerprint)
      requires Valid() && TrustedCache() && !stopped
      requires digest.Seen() < entries
      requires environment.still ==> root.Dir? && Child(root.children, name) == Some(File(fp)) && fp.size >= 0
      modifies this, environment
      ensures Valid()
      ensures old(environment.expired) ==> environment.expired
      ensures entries == old(entries) && pending == old(pending)
      ensures environment.still ==>
                var filed := old(Abs()).(digest := old(digest).(files := old(digest).files + 1));
                Abs() == if fp.size > limits.maxFileBytes || fp.size > limits.maxTotalBytes - old(digest).size
                         then AddError(limits, filed, ByteLimit, true)
                         else Write(filed.(digest := filed.digest.(size := old(digest).size + fp.size)),
                                    FileRecord(environment.disk, relative, fp))
      ensures old(Abs().Marked()) ==> Abs().Marked()
      ensures Noted(old(writes), [Leaf(relative, fp)])
    {
      hide TrueWrites, Truthful, Held, LeafWrite, Unheld, AddError;
      UnheldOne(environment.disk, target, rows, Leaf(relative, fp));
      digest := digest.(files := digest.files + 1);
      if fp.size > limits.maxFileBytes || fp.size < 0 || fp.size > limits.maxTotalBytes - digest.size {
        AddErrorCode(ByteLimit, true);
        return;
      }
      var fingerprinted := environment.Fingerprinted();
      if !fingerprinted {
        AddErrorCode(ReadUnavailable, false);
        return;
      }
      var file, newlyHashed := ObtainLeaf(root, relative, name, fp);
      if file.Some? { AcceptLeaf(relative, fp, file.value, newlyHashed); }
    }

    method AcceptLeaf(relative: bytes, fp: Fingerprint, file: FileDigest, newlyHashed: bool)
      requires Valid() && !stopped
      requires file.digest == environment.disk.Leaf(file.fingerprint) && 0 <= file.size == file.fingerprint.size
      requires newlyHashed ==> cacheEnabled
      modifies this
      ensures Valid()
      ensures entries == old(entries) && pending == old(pending)
      ensures old(Abs().Marked()) ==> Abs().Marked()
      ensures if file.size > limits.maxTotalBytes - old(digest).size then
                Abs() == AddError(limits, old(Abs()), ByteLimit, true) && Abs().Marked() && writes == old(writes)
              else if fp != file.fingerprint then
                Abs() == AddError(limits, old(Abs()), IdentityChanged, false) && Abs().Marked() && writes == old(writes)
              else
                && Abs() == Write(old(Abs()).(digest := old(digest).(size := old(digest).size + fp.size)),
                                  FileRecord(environment.disk, relative, fp))
                && writes == old(writes) + if newlyHashed then [LeafWrite(environment.disk, target, Leaf(relative, fp))]
                                           else []
    {
      hide TrueWrites, Record, U32, U64, Field;
      if file.size > limits.maxTotalBytes - digest.size {
        AddErrorCode(ByteLimit, true);
        return;
      }
      if fp != file.fingerprint {
        AddErrorCode(IdentityChanged, false);
        return;
      }
      if newlyHashed { RecordWrite(relative, file); }
      digest := digest.(size := digest.size + file.size);
      WriteRecord(Record(RECORD_FILE, [relative, U32(file.fingerprint.mode % 0x200),
                                       U64(Unsigned64(file.size)), file.digest]));
    }

    /** The leaf's digest, from the cache or by hashing it; when there is none, the reason is recorded. */
    method ObtainLeaf(root: Node, relative: bytes, name: bytes, fp: Fingerprint)
      returns (file: Option<FileDigest>, newlyHashed: bool)
      requires Valid() && TrustedCache()
      requires environment.still ==> root.Dir? && Child(root.children, name) == Some(File(fp))
      requires 0 <= fp.size <= limits.maxFileBytes
      modifies this, environment
      ensures Valid()
      ensures old(environment.expired) ==> environment.expired
      ensures file.Some? ==> Abs() == old(Abs())
      ensures entries == old(entries) && pending == old(pending)
      ensures file.Some? ==>
                && file.value.digest == environment.disk.Leaf(file.value.fingerprint)
                && 0 <= file.value.size == file.value.fingerprint.size
      ensures environment.still ==> file.Some? && file.value.fingerprint == fp
      ensures newlyHashed ==> cacheEnabled
      ensures writes == old(writes)
      ensures environment.still && environment.caching && cacheEnabled ==>
                (newlyHashed <==> !Held(environment.disk, target, rows, Leaf(relative, fp)))
      ensures old(Abs().Marked()) ==> Abs().Marked()
      ensures file.None? ==> Abs().Marked()
    {
      hide TrueWrites, Truthful, TreeState.TrustedCache;
      var eligible;
      file, eligible := CachedLeaf(relative, fp);
      var late := environment.Expired();
      if late {
        MarkTimeLimit();
        return None, false;
      }
      if file.Some? { return file, false; }
      ghost var status;
      file, status := HashLeaf(root, name, fp);
      newlyHashed := file.Some? && eligible;
    }

    /** HashVerifiedFile, and what is reported when it has no digest to give. */
    method HashLeaf(root: Node, name: bytes, ghost fp: Fingerprint)
      returns (file: Option<FileDigest>, ghost status: Status)
      requires Valid()
      requires environment.still ==> root.Dir? && Child(root.children, name) == Some(File(fp))
      requires 0 <= fp.size <= limits.maxFileBytes
      modifies this, environment
      ensures Valid()
      ensures old(environment.expired) ==> environment.expired
      ensures entries == old(entries) && pending == old(pending) && writes == old(writes)
      ensures file.Some? <==> status == Complete
      ensures file.Some? ==>
                && Abs() == old(Abs())
                && file.value.digest == environment.disk.Leaf(file.value.fingerprint)
                && 0 <= file.value.size == file.value.fingerprint.size
      ensures environment.still ==> file.Some? && file.value.fingerprint == fp
      ensures file.None? ==> Abs().Marked()
      ensures status == Oversize && !environment.expired ==> Abs() == AddError(limits, old(Abs()), ByteLimit, true)
      ensures status != Oversize && ReportsLimit(errors) ==> ReportsLimit(old(errors))
      ensures old(Abs().Marked()) ==> Abs().Marked()
    {
      hide TrueWrites;
      var digest, outcome, codes := environment.HashVerifiedFile(root, name, limits.maxFileBytes);
      status := outcome;
      if outcome == Complete { return Some(digest), status; }
      file := None;
      var late := environment.Expired();
      if late {
        MarkTimeLimit();
      } else if outcome == Oversize {
        AddErrorCode(ByteLimit, true);
      } else {
        AddFileErrors(codes);
      }
    }

    /** A newly hashed leaf is noted under the key of its own fingerprint. */
    method RecordWrite(relative: bytes, file: FileDigest)
      requires Valid() && cacheEnabled
      requires file.digest == environment.disk.Leaf(file.fingerprint) && file.size == file.fingerprint.size
      modifies this`writes
      ensures Valid()
      ensures var key := NewCacheKey(environment.disk, target, relative, file.fingerprint);
              var entry := CacheEntry(key, Complete, ALGORITHM, CACHE_FORMAT, Some(file.digest), file.size);
              writes == old(writes) + [CacheWrite(key, entry)]
    {
      var key := NewCacheKey(environment.disk, target, relative, file.fingerprint);
      var entry := CacheEntry(key, Complete, ALGORITHM, CACHE_FORMAT, Some(file.digest), file.size);
      forall t: Target, p: bytes, fp: Fingerprint | key == NewCacheKey(environment.disk, t, p, fp)
        ensures fp == file.fingerprint
      {
        KeyNamesOneFingerprint(environment.disk, target, relative, file.fingerprint, t, p, fp);
      }
      writes := writes + [CacheWrite(key, entry)];
    }

    method AddFileErrors(codes: seq<Code>)
      requires Kept() && forall e | e in codes :: e in {IdentityChanged, SymlinkRejected, ReadUnavailable}
      modifies this
      ensures Valid() && Abs().Marked() && writes == old(writes)
      ensures entries == old(entries) && pending == old(pending)
      ensures ReportsLimit(errors) ==> ReportsLimit(old(errors))
    {
      for i := 0 to |codes|
        invariant Kept() && entries == old(entries) && pending == old(pending) && writes == old(writes)
        invariant i > 0 ==> Abs().Marked()
        invariant ReportsLimit(errors) ==> ReportsLimit(old(errors))
      {
        assert codes[i] in codes;
        AddErrorCode(codes[i], false);
      }
      if codes == [] { AddErrorCode(ReadUnavailable, false); }
    }

    /** A hit is returned only with the digest and size of the leaf itself. */
    method CachedLeaf(relative: bytes, fp: Fingerprint) returns (hit: Option<FileDigest>, eligible: bool)
      requires Valid() && TrustedCache()
      modifies this`cacheStatus, environment
      ensures Valid()
      ensures old(environment.expired) ==> environment.expired
      ensures hit.Some? ==> hit.value == FileDigest(environment.disk.Leaf(fp), fp.size, fp) && fp.size >= 0
      ensures eligible ==> cacheEnabled
      ensures writes == old(writes)
      ensures hit.Some? ==> Held(environment.disk, target, rows, Leaf(relative, fp))
      ensures environment.still && environment.caching && cacheEnabled ==>
                eligible && (hit.Some? <==> Held(environment.disk, target, rows, Leaf(relative, fp)))
      ensures hit.Some? ==> cacheStatus == if old(cacheStatus) == Disabled then Hit else old(cacheStatus)
      ensures hit.None? && eligible ==> cacheStatus == Rejected || cacheStatus == Miss
      ensures !eligible ==> cacheStatus == old(cacheStatus) || (cacheStatus == Rejected && environment.expired)
    {
      if !cacheEnabled { return None, false; }
      // Opening the file, the local file system check and the identity check.
      var usable := environment.Cacheable();
      if !usable { return None, false; }
      var key := NewCacheKey(environment.disk, target, relative, fp);
      var contextDone := environment.Expired();
      var answers := environment.Cacheable();
      var found, lookupFailed := Lookup(rows, key, contextDone, !answers);
      var late := environment.Expired();
      if late {
        NoteCache(Rejected);
        return None, false;
      }
      if lookupFailed {
        NoteCache(Rejected);
        return None, true;
      }
      if found.None? {
        NoteCache(Miss);
        return None, true;
      }
      // validCacheEntry: the store's own checks, and the size the fingerprint gives.
      if found.value.key != key || !ValidContentCacheEntry(found.value) || found.value.size != fp.size {
        NoteCache(Rejected);
        return None, true;
      }
      var sameFile := environment.Cacheable();
      if !sameFile {
        NoteCache(Rejected);
        return None, true;
      }
      late := environment.Expired();
      if late {
        NoteCache(Rejected);
        return None, false;
      }
      NoteCache(Hit);
      assert TrueEntry(environment.disk, found.value);
      return Some(FileDigest(found.value.digest.value, found.value.size, fp)), true;
    }

    method NoteCache(status: CacheStatus)
      modifies this`cacheStatus
      ensures cacheStatus == status || cacheStatus == old(cacheStatus)
      ensures cacheStatus == Rejected <==> status == Rejected || old(cacheStatus) == Rejected
      ensures cacheStatus == Disabled <==> status == Disabled && old(cacheStatus) == Disabled
      ensures status == Miss || old(cacheStatus) == Miss ==> cacheStatus != Hit
    {
      if Rank(status) > Rank(cacheStatus) { cacheStatus := status; }
    }
  }

  function Rank(status: CacheStatus): nat {
    match status case Disabled => 0 case Hit => 1 case Miss => 2 case Rejected => 3
  }
}
