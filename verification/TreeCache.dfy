// What a scan adds to the content cache, and what the next scan finds there.
module TreeCache {
  import opened Framing
  import opened EvidenceTree
  import opened ContentCache

  datatype Leaf = Leaf(path: bytes, fp: Fingerprint)

  /** The files of a tree in the order of the walk. */
  function Leaves(n: Node, relative: bytes): seq<Leaf>
    decreases n, 1
  {
    match n
    case Dir(_, children) => LeavesOf(children, relative)
    case File(fp) => [Leaf(relative, fp)]
    case _ => []
  }

  function LeavesOf(es: seq<Entry>, parent: bytes): seq<Leaf>
    decreases es, 0
  {
    if es == [] then [] else Leaves(es[0].node, Join(parent, es[0].name)) + LeavesOf(es[1..], parent)
  }

  /** The same files, looked up by the names that lead to them. */
  lemma {:induction false} LeavesAreFiles(es: seq<Entry>, parent: bytes, leaf: Leaf)
    ensures leaf in LeavesOf(es, parent) <==>
              exists e | e in es ::
                if e.node.Dir? then leaf in LeavesOf(e.node.children, Join(parent, e.name))
                else e.node == File(leaf.fp) && leaf.path == Join(parent, e.name)
  {
    if es != [] {
      LeavesAreFiles(es[1..], parent, leaf);
      assert es == [es[0]] + es[1..];
      assert es[0] in es;
    }
  }

  lemma {:induction false} LeavesHaveSizes(n: Node, relative: bytes)
    requires WellFormed(n)
    ensures forall leaf | leaf in Leaves(n, relative) :: leaf.fp.size >= 0
    decreases n, 1
  {
    if n.Dir? { AllLeavesHaveSizes(n.children, relative); }
  }

  lemma {:induction false} AllLeavesHaveSizes(es: seq<Entry>, parent: bytes)
    requires AllWellFormed(es)
    ensures forall leaf | leaf in LeavesOf(es, parent) :: leaf.fp.size >= 0
    decreases es, 0
  {
    if es != [] {
      LeavesHaveSizes(es[0].node, Join(parent, es[0].name));
      AllLeavesHaveSizes(es[1..], parent);
    }
  }

  function LeafKey(disk: Disk, target: Target, leaf: Leaf): Key {
    NewCacheKey(disk, target, leaf.path, leaf.fp)
  }

  function LeafWrite(disk: Disk, target: Target, leaf: Leaf): CacheWrite {
    var key := LeafKey(disk, target, leaf);
    CacheWrite(key, CacheEntry(key, Complete, ALGORITHM, CACHE_FORMAT, Some(disk.Leaf(leaf.fp)), leaf.fp.size))
  }

  /** The table has a row of the leaf, and the row has its size. */
  predicate Held(disk: Disk, target: Target, rows: map<Key, Row>, leaf: Leaf) {
    var found := Find(rows, LeafKey(disk, target, leaf));
    found.Some? && found.value.size == leaf.fp.size
  }

  /** The writes of the leaves that the table does not hold. */
  function Unheld(disk: Disk, target: Target, rows: map<Key, Row>, leaves: seq<Leaf>): seq<CacheWrite> {
    if leaves == [] then []
    else
      var rest := Unheld(disk, target, rows, leaves[1..]);
      if Held(disk, target, rows, leaves[0]) then rest else [LeafWrite(disk, target, leaves[0])] + rest
  }

  lemma {:induction false} UnheldAppend(disk: Disk, target: Target, rows: map<Key, Row>, a: seq<Leaf>, b: seq<Leaf>)
    ensures Unheld(disk, target, rows, a + b) == Unheld(disk, target, rows, a) + Unheld(disk, target, rows, b)
  {
    hide Held, LeafWrite;
    if a == [] {
      assert a + b == b;
    } else {
      assert (a + b)[1..] == a[1..] + b;
      UnheldAppend(disk, target, rows, a[1..], b);
    }
  }

  lemma {:induction false} UnheldOne(disk: Disk, target: Target, rows: map<Key, Row>, leaf: Leaf)
    ensures Unheld(disk, target, rows, [leaf]) ==
              if Held(disk, target, rows, leaf) then [] else [LeafWrite(disk, target, leaf)]
  {
    assert Unheld(disk, target, rows, [leaf][1..]) == [];
  }

  lemma {:induction false} UnheldStep(disk: Disk, target: Target, rows: map<Key, Row>, es: seq<Entry>, i: nat, parent: bytes)
    requires i < |es|
    ensures Unheld(disk, target, rows, LeavesOf(es[i..], parent)) ==
              Unheld(disk, target, rows, Leaves(es[i].node, Join(parent, es[i].name)))
              + Unheld(disk, target, rows, LeavesOf(es[i + 1..], parent))
  {
    assert es[i..][1..] == es[i + 1..];
    UnheldAppend(disk, target, rows, Leaves(es[i].node, Join(parent, es[i].name)), LeavesOf(es[i + 1..], parent));
  }

  lemma {:induction false} UnheldAre(disk: Disk, target: Target, rows: map<Key, Row>, leaves: seq<Leaf>, w: CacheWrite)
    ensures w in Unheld(disk, target, rows, leaves) <==>
              exists leaf | leaf in leaves :: !Held(disk, target, rows, leaf) && w == LeafWrite(disk, target, leaf)
  {
    hide Held, LeafWrite;
    if leaves != [] {
      UnheldAre(disk, target, rows, leaves[1..], w);
      assert leaves == [leaves[0]] + leaves[1..];
    }
  }

  lemma {:induction false} UnheldIsEmpty(disk: Disk, target: Target, rows: map<Key, Row>, leaves: seq<Leaf>)
    ensures Unheld(disk, target, rows, leaves) == [] <==> forall leaf | leaf in leaves :: Held(disk, target, rows, leaf)
  {
    hide Held, LeafWrite;
    if leaves != [] {
      UnheldIsEmpty(disk, target, rows, leaves[1..]);
      assert leaves == [leaves[0]] + leaves[1..];
    }
  }

  /** Of the writes with one key some is the last. */
  lemma {:induction false} SomeLast(writes: seq<CacheWrite>, i: nat) returns (last: nat)
    requires i < |writes| && Taken(writes[i])
    ensures i <= last < |writes| && LastFor(writes, last) && writes[last].key == writes[i].key
    decreases |writes| - i
  {
    if later: nat :| i < later < |writes| && Taken(writes[later]) && writes[later].key == writes[i].key {
      last := SomeLast(writes, later);
    } else {
      last := i;
    }
  }

  /** Leaves with one key are held or not together. */
  lemma {:induction false} SameKeySameLeaf(disk: Disk, target: Target, a: Leaf, b: Leaf)
    requires LeafKey(disk, target, a) == LeafKey(disk, target, b)
    ensures a.fp == b.fp && LeafWrite(disk, target, a) == LeafWrite(disk, target, b)
    ensures forall rows :: Held(disk, target, rows, a) <==> Held(disk, target, rows, b)
  {
    KeyNamesOneFingerprint(disk, target, a.path, a.fp, target, b.path, b.fp);
  }

  /** A commit of what a scan of these leaves had to add, with room to spare. */
  ghost predicate Committed(disk: Disk, target: Target, before: map<Key, Row>, after: map<Key, Row>, leaves: seq<Leaf>,
                            now: int, limit: nat) {
    && (forall leaf | leaf in leaves :: leaf.fp.size >= 0)
    && Remembers(before, after, Unheld(disk, target, before, leaves), now, limit) && |after| < limit
    && (forall key | key in after :: now - RETENTION <= after[key].lastUsed)
  }

  lemma {:induction false} AddedIsWritten(
    disk: Disk, target: Target, rows: map<Key, Row>, leaves: seq<Leaf>, leaf: Leaf) returns (last: nat)
    requires leaf in leaves && leaf.fp.size >= 0 && !Held(disk, target, rows, leaf)
    ensures var writes := Unheld(disk, target, rows, leaves);
            last < |writes| && LastFor(writes, last) && writes[last] == LeafWrite(disk, target, leaf)
  {
    hide Held, LastFor, NewCacheKey;
    var writes := Unheld(disk, target, rows, leaves);
    UnheldAre(disk, target, rows, leaves, LeafWrite(disk, target, leaf));
    var i :| 0 <= i < |writes| && writes[i] == LeafWrite(disk, target, leaf);
    last := SomeLast(writes, i);
    UnheldAre(disk, target, rows, leaves, writes[last]);
    var other :| other in leaves && writes[last] == LeafWrite(disk, target, other);
    assert LeafWrite(disk, target, other).key == LeafWrite(disk, target, leaf).key;
    SameKeySameLeaf(disk, target, other, leaf);
  }

  lemma {:induction false} AddedIsHeld(
    disk: Disk, target: Target, before: map<Key, Row>, after: map<Key, Row>, leaves: seq<Leaf>, leaf: Leaf, now: int,
    limit: nat)
    requires leaf in leaves && !Held(disk, target, before, leaf)
    requires Committed(disk, target, before, after, leaves, now, limit)
    ensures Held(disk, target, after, leaf)
  {
    hide LastFor, Taken, Unheld, NewCacheKey;
    var last := AddedIsWritten(disk, target, before, leaves, leaf);
    assert after[LeafKey(disk, target, leaf)] == StoredRow(LeafWrite(disk, target, leaf).entry, now);
  }

  lemma {:induction false} HeldIsKeptIff(
    disk: Disk, target: Target, before: map<Key, Row>, after: map<Key, Row>, leaves: seq<Leaf>, leaf: Leaf, now: int,
    limit: nat)
    requires leaf in leaves && Held(disk, target, before, leaf)
    requires Committed(disk, target, before, after, leaves, now, limit)
    ensures Held(disk, target, after, leaf) <==> now - RETENTION <= before[LeafKey(disk, target, leaf)].lastUsed
  {
    hide LastFor, Taken, NewCacheKey;
    var writes, key := Unheld(disk, target, before, leaves), LeafKey(disk, target, leaf);
    forall w | w in writes
      ensures w.key != key
    {
      UnheldAre(disk, target, before, leaves, w);
      var other :| other in leaves && !Held(disk, target, before, other) && w == LeafWrite(disk, target, other);
      if w.key == key { SameKeySameLeaf(disk, target, other, leaf); }
    }
  }

  /**
   * After the commit the next scan of the same files has nothing to add, if and only if no row that this one could use
   * was too old: a hit does not count as a use of its row.
   */
  lemma {:induction false} NextScanAddsNothingIff(
    disk: Disk, target: Target, before: map<Key, Row>, after: map<Key, Row>, leaves: seq<Leaf>, now: int, limit: nat)
    requires Committed(disk, target, before, after, leaves, now, limit)
    ensures Unheld(disk, target, after, leaves) == [] <==>
              forall leaf | leaf in leaves && Held(disk, target, before, leaf) ::
                now - RETENTION <= before[LeafKey(disk, target, leaf)].lastUsed
  {
    hide LeafKey, Committed;
    UnheldIsEmpty(disk, target, after, leaves);
    forall leaf | leaf in leaves
      ensures !Held(disk, target, before, leaf) ==> Held(disk, target, after, leaf)
      ensures Held(disk, target, before, leaf) ==>
                (Held(disk, target, after, leaf) <==> now - RETENTION <= before[LeafKey(disk, target, leaf)].lastUsed)
    {
      if Held(disk, target, before, leaf) {
        HeldIsKeptIff(disk, target, before, after, leaves, leaf, now, limit);
      } else {
        AddedIsHeld(disk, target, before, after, leaves, leaf, now, limit);
      }
    }
  }
}
