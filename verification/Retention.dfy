// Retention of audit archives: which ones a prune removes, and in what order.
module Retention {
  import opened Framing
  import opened Ordering

  datatype Archive = Archive(path: bytes, created: int, size: nat, valid: bool)

  // Zero means the default: thirty days in nanoseconds, and a gibibyte.
  datatype Policy = Policy(age: int, limit: int) {
    function Age(): int { if age == 0 then 30 * 24 * 3600 * 1_000_000_000 else age }
    function Limit(): int { if limit == 0 then 0x4000_0000 else limit }
  }

  /** The listing order: later archives first, and the greater path first among those of one moment. */
  predicate Before(a: Archive, b: Archive) {
    a.created > b.created || (a.created == b.created && Less(b.path, a.path))
  }

  ghost predicate NewestFirst(list: seq<Archive>) {
    forall i, j | 0 <= i < j < |list| :: Before(list[i], list[j])
  }

  ghost predicate DistinctPaths(archives: set<Archive>) {
    forall a, b | a in archives && b in archives && a.path == b.path :: a == b
  }

  lemma BeforeIsTransitive(a: Archive, b: Archive, c: Archive)
    requires Before(a, b) && Before(b, c)
    ensures Before(a, c)
  {
    if a.created == b.created == c.created { LessTransitive(c.path, b.path, a.path); }
  }

  function Total(list: seq<Archive>): nat {
    if list == [] then 0 else Total(list[..|list| - 1]) + list[|list| - 1].size
  }

  /** The n newest may be kept: the newest whatever it is, or as many as are recent enough and fit together. */
  ghost predicate MayKeep(p: Policy, now: int, list: seq<Archive>, n: nat)
    requires n <= |list|
  {
    var limit, age := if p.limit == 0 then 0x4000_0000 else p.limit, if p.age == 0 then 30 * 24 * 3600 * 1_000_000_000 else p.age;
    n == 1 || (n > 1 && Total(list[..n]) <= limit && forall i | 1 <= i < n :: now - list[i].created <= age)
  }

  ghost predicate InSomeRun(p: Policy, now: int, list: seq<Archive>, i: nat) {
    exists n | i < n <= |list| :: MayKeep(p, now, list, n)
  }

  /** Exactly the longest run of newest archives that may be kept. */
  ghost predicate IsKept(p: Policy, now: int, list: seq<Archive>, n: nat) {
    && n <= |list| && (list == [] ==> n == 0)
    && (list != [] ==> MayKeep(p, now, list, n) && forall m | n < m <= |list| :: !MayKeep(p, now, list, m))
  }

  lemma {:induction false} TotalGrows(list: seq<Archive>, n: nat, m: nat)
    requires n <= m <= |list|
    ensures Total(list[..n]) <= Total(list[..m])
  {
    if n < m {
      TotalGrows(list, n, m - 1);
      assert list[..m][..m - 1] == list[..m - 1];
    }
  }

  /** At the first archive in the way, no longer run may be kept. */
  lemma NoLongerRun(p: Policy, now: int, list: seq<Archive>, n: nat)
    requires 1 <= n < |list| && (now - list[n].created > p.Age() || Total(list[..n + 1]) > p.Limit())
    ensures forall m | n < m <= |list| :: !MayKeep(p, now, list, m)
  {
    forall m | n < m <= |list|
      ensures !MayKeep(p, now, list, m)
    {
      TotalGrows(list, n + 1, m);
    }
  }

  lemma KeptIsUnique(p: Policy, now: int, list: seq<Archive>, n: nat, n': nat)
    requires IsKept(p, now, list, n) && IsKept(p, now, list, n')
    ensures n == n'
  {
    assert list != [] ==> MayKeep(p, now, list, n) && MayKeep(p, now, list, n');
  }

  function Among(list: seq<Archive>): set<Archive> {
    set a | a in list
  }

  method InsertArchive(list: seq<Archive>, a: Archive) returns (more: seq<Archive>)
    requires NewestFirst(list) && forall b | b in list :: b.path != a.path
    ensures NewestFirst(more) && Among(more) == Among(list) + {a}
  {
    var at := 0;
    while at < |list| && Before(list[at], a)
      invariant at <= |list| && forall i | 0 <= i < at :: Before(list[i], a)
    {
      at := at + 1;
    }
    more := list[..at] + [a] + list[at..];
    if at < |list| {
      LessTotal(list[at].path, a.path);
      assert Before(a, list[at]);
    }
    forall j | at <= j < |list|
      ensures Before(a, list[j])
    {
      if at < j { BeforeIsTransitive(a, list[at], list[j]); }
    }
    assert Among(list) == Among(list[..at]) + Among(list[at..]) by { assert list == list[..at] + list[at..]; }
  }

  ghost predicate PathsDiffer(list: seq<Archive>) {
    forall i, j | 0 <= i < j < |list| :: list[i].path != list[j].path
  }

  lemma ListedPathsDiffer(list: seq<Archive>, archives: set<Archive>)
    requires NewestFirst(list) && Among(list) == archives && DistinctPaths(archives)
    ensures PathsDiffer(list)
  {
    forall i, j | 0 <= i < j < |list|
      ensures list[i].path != list[j].path
    {
      assert list[i] in Among(list) && list[j] in Among(list);
      LessIrreflexive(list[i].path);
    }
  }

  method OnlyValid(list: seq<Archive>) returns (valid: seq<Archive>)
    requires NewestFirst(list)
    ensures NewestFirst(valid) && Among(valid) == set a | a in Among(list) && a.valid
  {
    valid := [];
    for i := 0 to |list|
      invariant NewestFirst(valid)
      invariant Among(valid) == set a | a in Among(list[..i]) && a.valid
      invariant forall a | a in valid :: a in list[..i]
    {
      assert list[..i + 1] == list[..i] + [list[i]] && Among(list[..i + 1]) == Among(list[..i]) + {list[i]};
      assert forall a | a in list[..i] :: Before(a, list[i]);
      if list[i].valid {
        assert Among(valid + [list[i]]) == Among(valid) + {list[i]};
        valid := valid + [list[i]];
      }
    }
    assert list[..|list|] == list;
  }

  /** The loop from the oldest to the second newest, over a running total. */
  method Choose(p: Policy, now: int, list: seq<Archive>) returns (remove: set<bytes>, ghost kept: nat)
    requires |list| > 1 && NewestFirst(list) && PathsDiffer(list)
    ensures IsKept(p, now, list, kept)
    ensures forall i | 0 <= i < |list| :: list[i].path in remove <==> kept <= i
    ensures forall i | 0 <= i < |list| :: list[i].path in remove <==> !InSomeRun(p, now, list, i)
  {
    hide IsKept, MayKeep, Total, InSomeRun;
    var total := Sum(list);
    remove, kept := {}, |list|;
    var index := |list| - 1;
    while index >= 1
      invariant 0 <= index < kept <= |list| && total == Total(list[..kept])
      invariant forall i | 0 <= i < |list| :: list[i].path in remove <==> kept <= i
      invariant kept < |list| ==> now - list[kept].created > p.Age() || Total(list[..kept + 1]) > p.Limit()
      invariant index + 1 < kept ==> now - list[kept - 1].created <= p.Age() && total <= p.Limit()
    {
      assert index + 1 < kept ==> Before(list[index], list[kept - 1]);
      if now - list[index].created > p.Age() || total > p.Limit() {
        remove, kept := remove + {list[index].path}, index;
        TotalOfPrefix(list, index);
        total := total - list[index].size;
      }
      index := index - 1;
    }
    RunIsKept(p, now, list, kept);
    KeptDecides(p, now, list, kept);
  }

  /** An archive is outside the run kept exactly when no run that includes it may be kept. */
  lemma KeptDecides(p: Policy, now: int, list: seq<Archive>, kept: nat)
    requires list != [] && IsKept(p, now, list, kept)
    ensures forall i | 0 <= i < |list| :: kept <= i <==> !InSomeRun(p, now, list, i)
  {
    assert MayKeep(p, now, list, kept);
  }

  /** A run that is recent enough at its oldest, fits, and meets an archive in the way, is the longest. */
  lemma RunIsKept(p: Policy, now: int, list: seq<Archive>, kept: nat)
    requires NewestFirst(list) && 1 <= kept <= |list|
    requires kept > 1 ==> now - list[kept - 1].created <= p.Age() && Total(list[..kept]) <= p.Limit()
    requires kept < |list| ==> now - list[kept].created > p.Age() || Total(list[..kept + 1]) > p.Limit()
    ensures IsKept(p, now, list, kept)
  {
    forall i | 1 <= i < kept && 1 < kept
      ensures now - list[i].created <= p.Age()
    {
      assert i < kept - 1 ==> Before(list[i], list[kept - 1]);
    }
    if kept < |list| { NoLongerRun(p, now, list, kept); }
  }

  lemma TotalOfPrefix(list: seq<Archive>, n: nat)
    requires n < |list|
    ensures Total(list[..n + 1]) == Total(list[..n]) + list[n].size
  {
    assert list[..n + 1][..n] == list[..n];
  }

  method Sum(list: seq<Archive>) returns (total: nat)
    ensures total == Total(list[..|list|])
  {
    total := 0;
    for i := 0 to |list|
      invariant total == Total(list[..i])
    {
      TotalOfPrefix(list, i);
      total := total + list[i].size;
    }
  }

  /** The archives left are the newest ones exactly when the prune removed nothing or finished. */
  lemma CutShortKeepsOlder(list: seq<Archive>, kept: nat, gone: nat)
    requires NewestFirst(list) && kept + gone <= |list|
    ensures var removed := Among(list[kept..kept + gone]);
            (forall a, b | a in Among(list) - removed && b in removed :: Before(a, b))
            <==> gone == 0 || kept + gone == |list|
  {
    var removed := Among(list[kept..kept + gone]);
    forall b | b in removed
      ensures exists j :: kept <= j < kept + gone && list[j] == b
    {
      var j :| 0 <= j < gone && list[kept..kept + gone][j] == b;
      assert list[kept + j] == b;
    }
    forall i | kept <= i < kept + gone
      ensures list[i] in removed
    {
      assert list[i] == list[kept..kept + gone][i - kept];
    }
    if gone == 0 || kept + gone == |list| {
      forall a, b | a in Among(list) - removed && b in removed
        ensures Before(a, b)
      {
        var j :| kept <= j < kept + gone && list[j] == b;
        var i :| 0 <= i < |list| && list[i] == a;
      }
    } else {
      var a, b := list[kept + gone], list[kept];
      assert b == list[kept..kept + gone][0] && Before(b, a);
      NeverBothWays(a, b);
      if a in removed {
        var j :| kept <= j < kept + gone && list[j] == a;
        assert Before(list[j], list[kept + gone]);
        NeverBothWays(a, a);
      }
    }
  }

  lemma NeverBothWays(a: Archive, b: Archive)
    ensures !(Before(a, b) && Before(b, a))
  {
    if Before(a, b) && Before(b, a) {
      LessTransitive(a.path, b.path, a.path);
      LessIrreflexive(a.path);
    }
  }

  lemma NoneToChoose(p: Policy, now: int, list: seq<Archive>)
    requires |list| <= 1
    ensures IsKept(p, now, list, |list|)
  {}

  lemma KeptFits(p: Policy, now: int, list: seq<Archive>, kept: nat)
    requires IsKept(p, now, list, kept)
    ensures kept <= |list|
  {}

  lemma FewerStayDistinct(before: set<Archive>, after: set<Archive>)
    requires DistinctPaths(before) && after <= before
    ensures DistinctPaths(after)
  {}

  lemma NothingRemoved(archives: set<Archive>, list: seq<Archive>, kept: nat)
    requires kept <= |list|
    ensures archives == archives - Among(list[kept..kept])
  {}

  /** Removing the next file by its path takes exactly the next archive of the list. */
  lemma RemoveNext(before: set<Archive>, list: seq<Archive>, kept: nat, gone: nat)
    requires DistinctPaths(before) && Among(list) <= before && kept + gone < |list|
    ensures var now, next := before - Among(list[kept..kept + gone]), list[kept + gone];
            (set a | a in now && a.path != next.path) == before - Among(list[kept..kept + gone + 1])
  {
    var next, removed := list[kept + gone], list[kept..kept + gone];
    assert list[kept..kept + gone + 1] == removed + [next];
    assert Among(removed + [next]) == Among(removed) + {next};
    assert next in Among(list);
    assert forall a | a in before && a.path == next.path :: a == next;
  }

  class AuditDirectory {
    // No removal fails, and nothing is cancelled.
    const reliable: bool
    var archives: set<Archive>

    constructor (archives: set<Archive>, reliable: bool)
      requires DistinctPaths(archives)
      ensures Valid() && this.archives == archives && this.reliable == reliable
    {
      this.archives, this.reliable := archives, reliable;
    }

    ghost predicate Valid()
      reads this
    {
      DistinctPaths(archives)
    }

    /** listLocked, by insertion; the order the directory is read in does not matter. */
    method List() returns (list: seq<Archive>)
      requires Valid()
      ensures NewestFirst(list) && Among(list) == archives
    {
      list := [];
      var left := archives;
      while left != {}
        invariant left <= archives && NewestFirst(list) && Among(list) == archives - left
        decreases |left|
      {
        var a :| a in left;
        forall b | b in list
          ensures b.path != a.path
        {
          assert b in Among(list) && b !in left && b in archives && a in archives;
        }
        left := left - {a};
        list := InsertArchive(list, a);
      }
    }

    /**
     * pruneLocked: removes only valid archives, all those outside the longest run that may be kept when it
     * succeeds, and the newest of them first when an error or a cancelled context cuts it short.
     */
    method Prune(p: Policy, now: int) returns (ok: bool, ghost valid: seq<Archive>, ghost kept: nat, ghost gone: nat)
      requires Valid()
      modifies this
      ensures Valid()
      ensures NewestFirst(valid) && Among(valid) == set a | a in old(archives) && a.valid
      ensures IsKept(p, now, valid, kept) && kept + gone <= |valid|
      ensures archives == old(archives) - Among(valid[kept..kept + gone])
      ensures ok ==> kept + gone == |valid|
      ensures reliable ==> ok
    {
      hide MayKeep, NewestFirst, PathsDiffer, IsKept;
      var list := List();
      var chosen := OnlyValid(list);
      valid, kept, gone := chosen, |chosen|, 0;
      if |chosen| <= 1 {
        NoneToChoose(p, now, chosen);
        return true, valid, kept, 0;
      }
      var remove: set<bytes>;
      ListedPathsDiffer(chosen, Among(chosen));
      remove, kept := Choose(p, now, chosen);
      KeptFits(p, now, chosen, kept);
      ok, gone := DeleteMarked(chosen, remove, kept);
    }

    /** The deletes, in listing order, until one fails or the context is cancelled. */
    method DeleteMarked(list: seq<Archive>, remove: set<bytes>, ghost kept: nat) returns (ok: bool, ghost gone: nat)
      requires Valid() && Among(list) <= archives && kept <= |list|
      requires forall i | 0 <= i < |list| :: list[i].path in remove <==> kept <= i
      modifies this
      ensures Valid() && kept + gone <= |list| && archives == old(archives) - Among(list[kept..kept + gone])
      ensures ok ==> kept + gone == |list|
      ensures reliable ==> ok
    {
      hide DistinctPaths, Among;
      gone, ok := 0, true;
      NothingRemoved(archives, list, kept);
      for i := 0 to |list|
        invariant gone == (if i < kept then 0 else i - kept) && kept + gone <= |list|
        invariant archives == old(archives) - Among(list[kept..kept + gone]) && ok
      {
        if list[i].path in remove {
          var cancelled: bool, failed: bool := *, *;
          if !reliable && (cancelled || failed) {
            FewerStayDistinct(old(archives), archives);
            return false, gone;
          }
          RemoveNext(old(archives), list, kept, gone);
          archives := set a | a in archives && a.path != list[i].path;
          gone := gone + 1;
        }
      }
      FewerStayDistinct(old(archives), archives);
    }
  }
}
