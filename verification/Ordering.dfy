// Go's byte-wise string order, and what sorting by it determines.
module Ordering {
  import opened Framing

  predicate Less(a: bytes, b: bytes) {
    b != [] && (a == [] || a[0] < b[0] || (a[0] == b[0] && Less(a[1..], b[1..])))
  }

  lemma {:induction false} LessIrreflexive(a: bytes)
    ensures !Less(a, a)
  {
    if a != [] { LessIrreflexive(a[1..]); }
  }

  lemma {:induction false} LessTransitive(a: bytes, b: bytes, c: bytes)
    requires Less(a, b) && Less(b, c)
    ensures Less(a, c)
  {
    if a != [] && a[0] == b[0] == c[0] {
      LessTransitive(a[1..], b[1..], c[1..]);
    }
  }

  lemma {:induction false} LessTotal(a: bytes, b: bytes)
    ensures a == b || Less(a, b) || Less(b, a)
  {
    if a != [] && b != [] && a[0] == b[0] {
      LessTotal(a[1..], b[1..]);
      assert a == [a[0]] + a[1..] && b == [b[0]] + b[1..];
    }
  }

  ghost predicate StrictlySorted(s: seq<bytes>) {
    forall i, j | 0 <= i < j < |s| :: Less(s[i], s[j])
  }

  ghost predicate Sorted(s: seq<bytes>) {
    forall i, j | 0 <= i < j < |s| :: !Less(s[j], s[i])
  }

  function Insert(x: bytes, s: seq<bytes>): seq<bytes> {
    if s == [] || Less(x, s[0]) then [x] + s else [s[0]] + Insert(x, s[1..])
  }

  /** Stands for sort.Slice with the byte-wise order. */
  function Sort(s: seq<bytes>): seq<bytes> {
    if s == [] then [] else Insert(s[0], Sort(s[1..]))
  }

  lemma {:induction false} InsertAdds(x: bytes, s: seq<bytes>)
    ensures multiset(Insert(x, s)) == multiset(s) + multiset{x}
  {
    if s != [] && !Less(x, s[0]) {
      assert s == [s[0]] + s[1..];
      InsertAdds(x, s[1..]);
    }
  }

  lemma {:induction false} SortedBelow(x: bytes, s: seq<bytes>)
    requires Sorted(s) && s != [] && Less(x, s[0])
    ensures forall j | 0 <= j < |s| :: !Less(s[j], x)
  {
    forall j | 0 <= j < |s|
      ensures !Less(s[j], x)
    {
      if Less(s[j], x) {
        LessTransitive(s[j], x, s[0]);
        LessIrreflexive(s[0]);
      }
    }
  }

  lemma {:induction false} SortedCons(x: bytes, s: seq<bytes>)
    requires Sorted(s) && forall y | y in s :: !Less(y, x)
    ensures Sorted([x] + s)
  {}

  lemma {:induction false} InsertIntoSorted(x: bytes, s: seq<bytes>)
    requires Sorted(s)
    ensures Sorted(Insert(x, s))
  {
    if s == [] {
    } else if Less(x, s[0]) {
      SortedBelow(x, s);
      SortedCons(x, s);
    } else {
      var tail := Insert(x, s[1..]);
      InsertIntoSorted(x, s[1..]);
      InsertAdds(x, s[1..]);
      forall y <- tail
        ensures !Less(y, s[0])
      {
        assert y in multiset(tail);
      }
      SortedCons(s[0], tail);
    }
  }

  lemma {:induction false} SortSorts(s: seq<bytes>)
    ensures Sorted(Sort(s))
    ensures multiset(Sort(s)) == multiset(s)
  {
    if s != [] {
      SortSorts(s[1..]);
      InsertIntoSorted(s[0], Sort(s[1..]));
      InsertAdds(s[0], Sort(s[1..]));
      assert s == [s[0]] + s[1..];
    }
  }

  lemma SortedHeads(a: seq<bytes>, b: seq<bytes>)
    requires Sorted(a) && StrictlySorted(b)
    requires a != [] && b != [] && a[0] in b && b[0] in a
    ensures a[0] == b[0]
  {
    var j :| 0 <= j < |a| && a[j] == b[0];
    var k :| 0 <= k < |b| && b[k] == a[0];
    assert j == 0 || !Less(a[j], a[0]);
    assert k == 0 || Less(b[0], b[k]);
  }

  lemma TailMultiset<T>(s: seq<T>)
    requires s != []
    ensures multiset(s[1..]) == multiset(s) - multiset{s[0]}
  {
    assert s == [s[0]] + s[1..];
  }

  lemma SameElements<T>(a: seq<T>, b: seq<T>)
    requires multiset(a) == multiset(b)
    ensures |a| == |b| && forall x :: x in a <==> x in b
  {
    assert |a| == |multiset(a)| == |multiset(b)| == |b|;
    assert forall x :: (x in a <==> x in multiset(a)) && (x in b <==> x in multiset(b));
  }

  /** A strictly sorted listing is the only sorted arrangement of its members. */
  lemma {:induction false} SortedIsUnique(a: seq<bytes>, b: seq<bytes>)
    requires Sorted(a) && StrictlySorted(b)
    requires multiset(a) == multiset(b)
    ensures a == b
  {
    assert |a| == |multiset(a)| == |multiset(b)| == |b|;
    if a != [] {
      assert a[0] in multiset(a) && b[0] in multiset(b);
      SortedHeads(a, b);
      TailMultiset(a);
      TailMultiset(b);
      SortedIsUnique(a[1..], b[1..]);
      assert a == [a[0]] + a[1..] && b == [b[0]] + b[1..];
    }
  }

  lemma {:induction false} SortLength(s: seq<bytes>)
    ensures |Sort(s)| == |s|
  {
    SortSorts(s);
    assert |Sort(s)| == |multiset(Sort(s))| == |s|;
  }

  lemma {:induction false} SortFinds(s: seq<bytes>, sorted: seq<bytes>)
    requires StrictlySorted(sorted) && multiset(s) == multiset(sorted)
    ensures Sort(s) == sorted
  {
    SortSorts(s);
    SortedIsUnique(Sort(s), sorted);
  }

  // ------------------------------------------------------------ sorting a set

  lemma {:induction false} InsertStrictly(x: bytes, s: seq<bytes>)
    requires StrictlySorted(s) && x !in s
    ensures StrictlySorted(Insert(x, s))
  {
    if s == [] {
    } else {
      LessTotal(x, s[0]);
      if Less(x, s[0]) {
        forall j | 0 <= j < |s|
          ensures Less(x, s[j])
        {
          if j > 0 { LessTransitive(x, s[0], s[j]); }
        }
      } else {
        var tail := Insert(x, s[1..]);
        InsertStrictly(x, s[1..]);
        InsertAdds(x, s[1..]);
        forall j | 0 <= j < |tail|
          ensures Less(s[0], tail[j])
        {
          assert tail[j] in multiset(tail);
        }
      }
    }
  }

  /** The members of a set in byte order: what sorting any listing of it gives. */
  ghost function InOrder(s: set<bytes>): (r: seq<bytes>)
    ensures StrictlySorted(r) && multiset(r) == multiset(s)
    ensures forall x :: x in r <==> x in s
  {
    if s == {} then []
    else
      var x :| x in s;
      var rest := InOrder(s - {x});
      InsertStrictly(x, rest);
      InsertAdds(x, rest);
      assert forall y :: y in Insert(x, rest) <==> y in multiset(Insert(x, rest));
      Insert(x, rest)
  }

  function Members(values: seq<bytes>): set<bytes> {
    set v | v in values
  }

  /** Collects into a map, lists it in whatever order the map gives, and sorts. */
  method UniqueSorted(values: seq<bytes>) returns (result: seq<bytes>)
    ensures result == InOrder(Members(values))
  {
    var unique: set<bytes> := {};
    for i := 0 to |values|
      invariant unique == Members(values[..i])
    {
      unique := unique + {values[i]};
    }
    assert values[..|values|] == values;
    result := SortedListing(unique);
  }

  method SortedListing(keys: set<bytes>) returns (result: seq<bytes>)
    ensures result == InOrder(keys)
  {
    var left := keys;
    result := [];
    while left != {}
      invariant left <= keys && multiset(result) == multiset(keys - left)
      decreases |left|
    {
      var x :| x in left;
      left, result := left - {x}, result + [x];
      assert keys - left == (keys - (left + {x})) + {x};
    }
    assert keys - left == keys;
    SortFinds(result, InOrder(keys));
    result := Sort(result);
  }
}
