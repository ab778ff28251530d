// Sorting records by several string columns, and the one listing it gives of a set.
module Sorting {
  import opened Framing
  import opened Ordering

  /** Column by column, the first difference decides. */
  predicate ColumnsLess(a: seq<bytes>, b: seq<bytes>) {
    a != [] && b != [] && (Less(a[0], b[0]) || (a[0] == b[0] && ColumnsLess(a[1..], b[1..])))
  }

  lemma {:induction false} NextColumn(a: bytes, k: seq<bytes>, b: bytes, l: seq<bytes>)
    ensures ColumnsLess([a] + k, [b] + l) <==> Less(a, b) || (a == b && ColumnsLess(k, l))
  {
    assert ([a] + k)[1..] == k && ([b] + l)[1..] == l;
  }

  lemma {:induction false} ColumnsIrreflexive(a: seq<bytes>)
    ensures !ColumnsLess(a, a)
  {
    if a != [] {
      LessIrreflexive(a[0]);
      ColumnsIrreflexive(a[1..]);
    }
  }

  lemma {:induction false} ColumnsTransitive(a: seq<bytes>, b: seq<bytes>, c: seq<bytes>)
    requires ColumnsLess(a, b) && ColumnsLess(b, c)
    ensures ColumnsLess(a, c)
  {
    if Less(a[0], b[0]) && Less(b[0], c[0]) {
      LessTransitive(a[0], b[0], c[0]);
    } else if a[0] == b[0] && b[0] == c[0] && !Less(a[0], b[0]) {
      if !Less(b[0], c[0]) { ColumnsTransitive(a[1..], b[1..], c[1..]); }
    }
  }

  lemma {:induction false} ColumnsTotal(a: seq<bytes>, b: seq<bytes>)
    requires |a| == |b| && a != b
    ensures ColumnsLess(a, b) || ColumnsLess(b, a)
  {
    LessTotal(a[0], b[0]);
    if a[0] == b[0] {
      assert a == [a[0]] + a[1..] && b == [b[0]] + b[1..];
      ColumnsTotal(a[1..], b[1..]);
    }
  }

  ghost predicate InKeyOrder<T>(key: T -> seq<bytes>, s: seq<T>) {
    forall i, j | 0 <= i < j < |s| :: ColumnsLess(key(s[i]), key(s[j]))
  }

  /** The columns tell the members of a set apart. */
  ghost predicate Distinguishes<T>(key: T -> seq<bytes>, s: set<T>) {
    forall x, y | x in s && y in s && x != y :: key(x) != key(y) && |key(x)| == |key(y)|
  }

  function InsertByKey<T>(key: T -> seq<bytes>, x: T, s: seq<T>): seq<T> {
    if s == [] || ColumnsLess(key(x), key(s[0])) then [x] + s else [s[0]] + InsertByKey(key, x, s[1..])
  }

  lemma {:induction false} InsertByKeyAdds<T>(key: T -> seq<bytes>, x: T, s: seq<T>)
    ensures multiset(InsertByKey(key, x, s)) == multiset(s) + multiset{x}
  {
    if s != [] && !ColumnsLess(key(x), key(s[0])) {
      assert s == [s[0]] + s[1..];
      InsertByKeyAdds(key, x, s[1..]);
    }
  }

  lemma {:induction false} InsertByKeyKeepsOrder<T>(key: T -> seq<bytes>, x: T, s: seq<T>)
    requires InKeyOrder(key, s)
    requires forall y | y in s :: key(x) != key(y) && |key(x)| == |key(y)|
    ensures InKeyOrder(key, InsertByKey(key, x, s))
  {
    if s == [] {
    } else {
      ColumnsTotal(key(x), key(s[0]));
      if ColumnsLess(key(x), key(s[0])) {
        forall j | 0 <= j < |s|
          ensures ColumnsLess(key(x), key(s[j]))
        {
          if j > 0 { ColumnsTransitive(key(x), key(s[0]), key(s[j])); }
        }
      } else {
        var tail := InsertByKey(key, x, s[1..]);
        InsertByKeyKeepsOrder(key, x, s[1..]);
        InsertByKeyAdds(key, x, s[1..]);
        forall j | 0 <= j < |tail|
          ensures ColumnsLess(key(s[0]), key(tail[j]))
        {
          assert tail[j] in multiset(tail);
        }
      }
    }
  }

  /** Lists a set in whatever order it comes, and sorts the list. */
  method SortSet<T(==)>(key: T -> seq<bytes>, s: set<T>) returns (r: seq<T>)
    ensures multiset(r) == multiset(s)
    ensures Distinguishes(key, s) ==> InKeyOrder(key, r)
  {
    r := [];
    var left := s;
    while left != {}
      invariant left <= s && multiset(r) == multiset(s - left)
      invariant Distinguishes(key, s) ==> InKeyOrder(key, r)
      decreases |left|
    {
      var x :| x in left;
      InsertByKeyAdds(key, x, r);
      if Distinguishes(key, s) {
        forall y <- r
          ensures key(x) != key(y) && |key(x)| == |key(y)|
        {
          assert y in multiset(r);
        }
        InsertByKeyKeepsOrder(key, x, r);
      }
      assert s - (left - {x}) == (s - left) + {x};
      left, r := left - {x}, InsertByKey(key, x, r);
    }
    assert s - left == s;
  }

  lemma OrderHeads<T>(key: T -> seq<bytes>, a: seq<T>, b: seq<T>)
    requires InKeyOrder(key, a) && InKeyOrder(key, b)
    requires a != [] && b != [] && a[0] in b && b[0] in a
    ensures a[0] == b[0]
  {
    var j :| 0 <= j < |a| && a[j] == b[0];
    var k :| 0 <= k < |b| && b[k] == a[0];
    if a[0] != b[0] {
      ColumnsTransitive(key(a[0]), key(a[j]), key(b[k]));
      ColumnsIrreflexive(key(a[0]));
    }
  }

  lemma TailInOrder<T>(key: T -> seq<bytes>, s: seq<T>)
    requires InKeyOrder(key, s) && s != []
    ensures InKeyOrder(key, s[1..])
  {
    hide ColumnsLess;
  }

  /** However it was enumerated, a set has one listing in key order. */
  lemma {:induction false} OneListing<T>(key: T -> seq<bytes>, a: seq<T>, b: seq<T>)
    requires InKeyOrder(key, a) && InKeyOrder(key, b) && multiset(a) == multiset(b)
    ensures a == b
  {
    hide InKeyOrder;
    assert |a| == |multiset(a)| == |multiset(b)| == |b|;
    if a != [] {
      assert a[0] in multiset(a) && b[0] in multiset(b);
      OrderHeads(key, a, b);
      assert a == [a[0]] + a[1..] && b == [b[0]] + b[1..];
      TailMultiset(a);
      TailMultiset(b);
      TailInOrder(key, a);
      TailInOrder(key, b);
      OneListing(key, a[1..], b[1..]);
    }
  }
}
