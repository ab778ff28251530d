// hashTree: opening the target, walking it, and reporting; and what a whole
// history of scans sharing one cache reports.
module TreeHash {
  import opened Framing
  import opened EvidenceTree
  import opened ContentCache
  import opened TreeCache
  import opened TreeWalker
  import Defective = TreeDefects

  datatype Outcome = Outcome(
    stream: bytes, status: Status, errors: seq<Code>, digest: TreeDigest, cache: CacheStatus, writes: seq<CacheWrite>)
  {
    /** Everything but how the cache was used. */
    function Reported(): (bytes, Status, seq<Code>, TreeDigest) {
      (stream, status, errors, digest)
    }
  }

  predicate ValidComponent(name: bytes) {
    name != [] && name != [DOT] && name != [DOT, DOT] && SLASH !in name && 0 !in name
  }

  /** OpenVerifiedRoot on a still tree: down directories only. */
  function Descend(n: Node, components: seq<bytes>): (r: Stat)
    ensures r.Failed? ==> r.error == UnsafePath || r.error == OtherError
    decreases components
  {
    if components == [] then Seen(n)
    else if !ValidComponent(components[0]) then Failed(UnsafePath)
    else if !n.Dir? || Child(n.children, components[0]).None? then Failed(OtherError)
    else
      var child := Child(n.children, components[0]).value;
      if !child.Dir? then Failed(UnsafePath) else Descend(child, components[1..])
  }

  /** A path is followed through directories by the names of their entries; no component may lead elsewhere. */
  lemma {:induction false} DescendStep(n: Node, name: bytes, rest: seq<bytes>)
    requires WellFormed(n)
    ensures Descend(n, []) == Seen(n)
    ensures var r := Descend(n, [name] + rest);
            if name in {[], [DOT], [DOT, DOT]} || SLASH in name || 0 in name then r == Failed(UnsafePath)
            else if !n.Dir? || (forall e | e in n.children :: e.name != name) then r == Failed(OtherError)
            else forall e | e in n.children && e.name == name ::
                   r == if e.node.Dir? then Descend(e.node, rest) else Failed(UnsafePath)
  {
    assert ([name] + rest)[1..] == rest;
    if n.Dir? {
      NoChild(n.children, name);
      forall e | e in n.children && e.name == name
        ensures Child(n.children, name) == Some(e.node)
      {
        var i :| 0 <= i < |n.children| && n.children[i] == e;
        ChildAt(n.children, i);
      }
    }
  }

  lemma {:induction false} NoChild(es: seq<Entry>, name: bytes)
    ensures Child(es, name).None? <==> forall e | e in es :: e.name != name
  {
    if es != [] {
      NoChild(es[1..], name);
      assert es == [es[0]] + es[1..];
    }
  }

  lemma {:induction false} ChildWellFormed(es: seq<Entry>, name: bytes)
    requires AllWellFormed(es) && Child(es, name).Some?
    ensures WellFormed(Child(es, name).value)
  {
    if es[0].name != name { ChildWellFormed(es[1..], name); }
  }

  lemma {:induction false} DescendWellFormed(n: Node, components: seq<bytes>)
    requires WellFormed(n)
    ensures Descend(n, components).Seen? ==> WellFormed(Descend(n, components).node)
    decreases components
  {
    if Descend(n, components).Seen? && components != [] {
      ChildWellFormed(n.children, components[0]);
      DescendWellFormed(Child(n.children, components[0]).value, components[1..]);
    }
  }

  /** What a scan of a still tree reports; `path` is None when it is malformed, Some([]) when it is empty. */
  function HashSpec(l: Limits, disk: Disk, domain: bytes, root: Option<Node>, path: Option<seq<bytes>>): State {
    var start := Initial(domain);
    if root.None? then AddError(l, start, ReadUnavailable, false)
    else if path.None? then AddError(l, start, PathInvalid, false)
    else match Descend(root.value, path.value)
      case Failed(error) => AddError(l, start, if error == UnsafePath then IdentityChanged else ReadUnavailable, false)
      case Seen(n) => Walk(l, disk, start, n, [], 0, true)
  }

  method OpenVerifiedRoot(environment: Environment, root: Node, components: seq<bytes>) returns (r: Stat)
    modifies environment`faulted
    ensures environment.faulted == (old(environment.faulted) || r.Failed?)
    ensures environment.still ==> r == Descend(root, components)
  {
    r := *;
    if environment.still { r := Descend(root, components); }
    environment.faulted := environment.faulted || r.Failed?;
  }

  /** Limits that limit something, and a deadline; byte limits leave room for one byte more. */
  predicate Usable(l: Limits) {
    && l.maxDepth >= 0 && l.maxEntries >= 1 && l.maxErrors >= 1 && l.timeout != 0
    && l.maxFileBytes >= 1 && l.maxFileBytes + 1 <= 0x7FFF_FFFF_FFFF_FFFF
    && l.maxTotalBytes >= 1 && l.maxTotalBytes + 1 <= 0x7FFF_FFFF_FFFF_FFFF
  }

  method HashTree(environment: Environment, domain: bytes, target: Target, root: Option<Node>,
                  path: Option<seq<bytes>>, limits: Limits, cache: Option<map<Key, Row>>) returns (out: Outcome)
    requires !environment.expired
    requires cache.Some? ==> Truthful(environment.disk, cache.value)
    requires environment.still && root.Some? ==> WellFormed(root.value)
    modifies environment
    ensures environment.still ==> !environment.expired
    ensures TrueWrites(environment.disk, out.writes)
    ensures environment.expired ==> out.writes == []
    ensures target.observationID == [] || target.kind == [] || target.subject == [] || cache.None? ==>
              out.writes == [] && out.cache == Disabled
    // Budgets and error reporting, whatever the file system and the clock did.
    ensures limits.maxErrors > 0 ==> |out.errors| <= limits.maxErrors && (out.errors == [] <==> out.status == Complete)
    ensures limits.maxErrors <= 0 ==> out.status == Oversize && |out.errors| <= 1
    ensures limits.maxErrors <= 0 ==> (out.errors == [] <==> !environment.expired)
    ensures ValidLimits(limits) ==>
              && 0 <= out.digest.size <= limits.maxTotalBytes
              && 0 <= out.digest.files && 0 <= out.digest.directories && 0 <= out.digest.symlinks
              && out.digest.files + out.digest.directories + out.digest.symlinks <= limits.maxEntries
    ensures out.status == Complete ==> Usable(limits) && !environment.expired
    // A complete report means that nothing failed.
    ensures environment.faulted ==> out.status != Complete
    // What the status says: an exceeded limit, or a full list, is oversize; any other error is partial.
    ensures out.status == Complete || out.status == Partial || out.status == Oversize
    ensures limits.maxErrors > 0 && (FileLimit in out.errors || ByteLimit in out.errors || DepthLimit in out.errors) ==>
              out.status == Oversize
    ensures limits.maxErrors > 0 && out.status == Oversize ==>
              || FileLimit in out.errors || ByteLimit in out.errors || DepthLimit in out.errors
              || |out.errors| == limits.maxErrors
    ensures environment.expired ==> TimeLimit in out.errors
    // On a still tree the answer is a function of the tree: the cache does not enter into it.
    ensures environment.still && Usable(limits) ==>
              var s := HashSpec(limits, environment.disk, domain, root, path);
              out.Reported() == (s.hashed, s.Status(), s.errors, s.digest)
    // Where the cache works, a complete scan adds just the leaves that the table did not hold.
    ensures environment.still && environment.caching && target.Complete() && cache.Some? && out.status == Complete ==>
              LeavesAt(root, path).Some?
              && out.writes == Unheld(environment.disk, target, cache.value, LeavesAt(root, path).value)
  {
    hide HashSpec, Truthful, WellFormed, LeavesAt, Unheld;
    environment.faulted := false;
    var state := new TreeState(domain, limits, environment, target, cache);
    ScanTarget(state, environment, domain, root, path);
    var late := environment.Expired();
    if late { state.MarkTimeLimit(); }
    out := Outcome(state.hashed, state.Abs().Status(), state.errors, state.digest, state.cacheStatus,
                   if state.timeLimited then [] else state.writes);
  }

  /** The files of the directory that the path leads to. */
  function LeavesAt(root: Option<Node>, path: Option<seq<bytes>>): Option<seq<Leaf>> {
    if root.None? || path.None? || Descend(root.value, path.value).Failed? then None
    else Some(Leaves(Descend(root.value, path.value).node, []))
  }

  /** The walk, or the one error that stands for why there is none. */
  method ScanTarget(state: TreeState, environment: Environment, ghost domain: bytes, root: Option<Node>,
                    path: Option<seq<bytes>>)
    requires state.environment == environment && !environment.expired && !environment.faulted && state.TrustedCache()
    requires state.Abs() == Initial(domain) && state.writes == [] && state.cacheStatus == Disabled
    requires ValidLimits(state.limits) ==> state.Valid()
    requires environment.still && root.Some? ==> WellFormed(root.value)
    modifies state, environment
    ensures environment.still ==> !environment.expired
    ensures ValidLimits(state.limits) ==> state.Valid()
    ensures environment.still && ValidLimits(state.limits) ==>
              state.Abs() == HashSpec(state.limits, environment.disk, domain, root, path)
    ensures environment.still && environment.caching && state.cacheEnabled && !state.Abs().Marked() ==>
              LeavesAt(root, path).Some?
              && state.writes == Unheld(environment.disk, state.target, state.rows, LeavesAt(root, path).value)
    ensures !ValidLimits(state.limits) ==>
              && state.Abs() == AddError(state.limits, Initial(domain), ReadUnavailable, false)
              && state.writes == [] && state.cacheStatus == Disabled && !environment.expired && !environment.faulted
  {
    hide Walk, Truthful, TrueWrites, WellFormed, Descend, Field, Leaves, Unheld;
    if root.None? || !ValidLimits(state.limits) {
      state.AddErrorCode(ReadUnavailable, false);
      return;
    }
    if path.None? {
      state.AddErrorCode(PathInvalid, false);
      return;
    }
    var opened' := OpenVerifiedRoot(environment, root.value, path.value);
    if opened'.Failed? {
      state.AddOpenError(opened'.error);
      return;
    }
    if environment.still { DescendWellFormed(root.value, path.value); }
    state.WalkDirectory(opened'.node, [], 0, true);
  }

  /** A completed scan is one within limits, and it hashed the manifest of what it found there. */
  lemma {:induction false} CompleteScan(l: Limits, disk: Disk, domain: bytes, root: Node, path: seq<bytes>)
    requires Usable(l) && WellFormed(root)
    ensures var s := HashSpec(l, disk, domain, Some(root), Some(path));
            var found := Descend(root, path);
            && (s.Status() == Complete <==> found.Seen? && WithinLimits(l, found.node))
            && (s.Status() == Complete ==> s.hashed == Stream(disk, domain, found.node))
  {
    var found := Descend(root, path);
    DescendWellFormed(root, path);
    if found.Seen? && found.node.Dir? {
      HashTreeIsExact(l, disk, domain, found.node);
    }
  }

  /**
   * A scan of a directory in which nothing exceeds a limit reports each defect of it, in listing order, and nothing else,
   * and hashes and counts all that is not defective.
   */
  lemma {:induction false} DefectiveScan(l: Limits, disk: Disk, domain: bytes, root: Node, path: seq<bytes>)
    requires Usable(l) && Descend(root, path).Seen? && Descend(root, path).node.Dir?
    requires var n := Descend(root, path).node;
             var found := Defective.FoundAll(disk, n.children, []);
             && Defective.Bounded(l, n.children, 0) && found.totals.entries <= l.maxEntries
             && found.totals.size <= l.maxTotalBytes && |found.defects| <= l.maxErrors
    ensures var s, n := HashSpec(l, disk, domain, Some(root), Some(path)), Descend(root, path).node;
            var found := Defective.FoundAll(disk, n.children, []);
            && s.errors == found.defects && s.Status() == (if found.defects == [] then Complete else Partial)
            && s.hashed == Fields([domain, DirRecord([], n.perm)] + found.records)
            && s.digest == TreeDigest(found.totals.size, found.totals.files, found.totals.directories, found.symlinks)
  {
    hide Walk, Fields, DirRecord, Descend, Defective.FoundAll, Defective.Bounded;
    Defective.ReportsDefects(l, disk, domain, Descend(root, path).node);
  }

  datatype Scan = Scan(target: Target, root: Node, path: Option<seq<bytes>>, limits: Limits, now: int, storeFails: bool)

  ghost predicate ValidScan(s: Scan) {
    WellFormed(s.root) && Usable(s.limits)
  }

  /** One scan with the store's cache and one without, then the store of what the first learned. */
  method ScanBoth(environment: Environment, domain: bytes, store: ContentStore, s: Scan)
    returns (cached: Outcome, plain: Outcome)
    requires environment.still && !environment.expired && ValidScan(s)
    requires Truthful(environment.disk, store.rows)
    modifies environment, store
    ensures !environment.expired && Truthful(environment.disk, store.rows)
    ensures cached.Reported() == plain.Reported()
    ensures !s.storeFails && cached.status == Complete ==>
              Remembers(old(store.rows), store.rows, cached.writes, s.now,
                        if store.rowLimit <= 0 then 250_000 else store.rowLimit)
    ensures s.storeFails || cached.status != Complete ==> store.rows == old(store.rows)
  {
    cached := HashTree(environment, domain, s.target, Some(s.root), s.path, s.limits, Some(store.rows));
    plain := HashTree(environment, domain, s.target, Some(s.root), s.path, s.limits, None);
    var _ := store.StoreContentCache(if cached.status == Complete then cached.writes else [], s.now, s.storeFails);
  }

  /**
   * One scan, the store of what it learned, and the same scan again. With room in the table the second has nothing to
   * add, if and only if the commit found none of the rows too old that the first could use.
   */
  method RepeatScan(environment: Environment, domain: bytes, store: ContentStore, s: Scan)
    returns (first: Outcome, second: Outcome)
    requires environment.still && environment.caching && !environment.expired && ValidScan(s) && s.target.Complete()
    requires Truthful(environment.disk, store.rows)
    modifies environment, store
    ensures !environment.expired && Truthful(environment.disk, store.rows)
    ensures second.Reported() == first.Reported()
    ensures first.status == Complete ==> LeavesAt(Some(s.root), s.path).Some?
    ensures first.status == Complete && first.writes == [] ==> second.writes == [] && store.rows == old(store.rows)
    ensures first.status == Complete && first.writes != [] && !s.storeFails && |store.rows| < store.EffectiveLimit() ==>
              (second.writes == [] <==>
                 forall leaf | leaf in LeavesAt(Some(s.root), s.path).value
                               && Held(environment.disk, s.target, old(store.rows), leaf) ::
                   s.now - RETENTION <= old(store.rows)[LeafKey(environment.disk, s.target, leaf)].lastUsed)
  {
    hide Truthful, WellFormed, HashSpec, Held, LeafKey, Unheld, Descend, Leaves, Remembers, Pruned, TrueWrites;
    first := HashTree(environment, domain, s.target, Some(s.root), s.path, s.limits, Some(store.rows));
    ghost var before := store.rows;
    var _ := store.StoreContentCache(if first.status == Complete then first.writes else [], s.now, s.storeFails);
    second := HashTree(environment, domain, s.target, Some(s.root), s.path, s.limits, Some(store.rows));
    if first.status == Complete && first.writes != [] && !s.storeFails && |store.rows| < store.EffectiveLimit() {
      LeavesAtHaveSizes(s.root, s.path);
      NextScanAddsNothingIff(environment.disk, s.target, before, store.rows, LeavesAt(Some(s.root), s.path).value,
                             s.now, store.EffectiveLimit());
    }
  }

  lemma {:induction false} LeavesAtHaveSizes(root: Node, path: Option<seq<bytes>>)
    requires WellFormed(root)
    ensures var found := LeavesAt(Some(root), path); found.Some? ==> forall leaf | leaf in found.value :: leaf.fp.size >= 0
  {
    if path.Some? && Descend(root, path.value).Seen? {
      DescendWellFormed(root, path.value);
      LeavesHaveSizes(Descend(root, path.value).node, []);
    }
  }

  /** Any sequence of scans, each followed by a store that commits and prunes or fails. */
  method RunHistory(environment: Environment, domain: bytes, store: ContentStore, scans: seq<Scan>)
    returns (cached: seq<Outcome>, plain: seq<Outcome>)
    requires environment.still && !environment.expired
    requires forall s | s in scans :: ValidScan(s)
    requires Truthful(environment.disk, store.rows)
    modifies environment, store
    ensures |cached| == |plain| == |scans|
    ensures forall i | 0 <= i < |scans| :: cached[i].Reported() == plain[i].Reported()
    ensures Truthful(environment.disk, store.rows)
  {
    cached, plain := [], [];
    for i := 0 to |scans|
      invariant !environment.expired && Truthful(environment.disk, store.rows)
      invariant |cached| == |plain| == i
      invariant forall k | 0 <= k < i :: cached[k].Reported() == plain[k].Reported()
    {
      var with, without := ScanBoth(environment, domain, store, scans[i]);
      cached, plain := cached + [with], plain + [without];
    }
  }
}
