// Counting credential sources that a network sink follows closely in masked text.
module Egress {
  import opened Framing

  const WINDOW: nat := 4096

  predicate Occurs(text: bytes, token: bytes, i: nat) {
    i + |token| <= |text| && text[i..i + |token|] == token
  }

  /** No part of the token both starts and ends it, so two occurrences never overlap. */
  predicate Borderless(token: bytes) {
    token != [] && forall k | 0 < k < |token| :: token[k..] != token[..|token| - k]
  }

  /** No two of the tokens can occur at one place, and none overlaps itself. */
  predicate Separated(tokens: seq<bytes>) {
    && (forall i | 0 <= i < |tokens| :: Borderless(tokens[i]))
    && forall i, j | 0 <= i < j < |tokens| :: !(tokens[i] <= tokens[j]) && !(tokens[j] <= tokens[i])
  }

  lemma OverlapIsBorder(text: bytes, token: bytes, i: nat, j: nat)
    requires Occurs(text, token, i) && Occurs(text, token, j) && i < j < i + |token|
    ensures token[j - i..] == token[..|token| - (j - i)] && !Borderless(token)
  {
    var k := j - i;
    assert token[k..] == text[i..i + |token|][k..] == text[j..i + |token|];
    assert token[..|token| - k] == text[j..j + |token|][..|token| - k] == text[j..i + |token|];
  }

  lemma OccurrencesAreApart(text: bytes, token: bytes, i: nat, j: nat)
    requires Borderless(token) && Occurs(text, token, i) && Occurs(text, token, j) && i < j
    ensures i + |token| <= j
  {
    if j < i + |token| { OverlapIsBorder(text, token, i, j); }
  }

  lemma TokensAreApart(text: bytes, a: bytes, b: bytes, i: nat)
    requires Occurs(text, a, i) && Occurs(text, b, i)
    ensures a <= b || b <= a
  {
    if |a| <= |b| {
      assert a == text[i..i + |b|][..|a|];
    } else {
      assert b == text[i..i + |a|][..|b|];
    }
  }

  predicate OccursAny(text: bytes, tokens: seq<bytes>, i: nat) {
    exists t <- tokens :: Occurs(text, t, i)
  }

  function AllPlaces(text: bytes, tokens: seq<bytes>): set<nat> {
    set i: nat | i <= |text| && OccursAny(text, tokens, i)
  }

  // -------------------------------------------------------------- what is found

  /** The places a scan from left to right finds, looking on behind each find. */
  function Greedy(text: bytes, token: bytes, from: nat): (r: seq<nat>)
    requires token != []
    decreases |text| - from
  {
    if from + |token| > |text| then []
    else if Occurs(text, token, from) then [from] + Greedy(text, token, from + |token|)
    else Greedy(text, token, from + 1)
  }

  ghost predicate Apart(found: seq<nat>, width: nat) {
    forall i, j | 0 <= i < j < |found| :: found[i] + width <= found[j]
  }

  ghost predicate Covered(found: seq<nat>, width: nat, j: nat) {
    exists k :: 0 <= k < |found| && found[k] <= j < found[k] + width
  }

  /** Occurrences that do not overlap, such that every other one overlaps one found before it. */
  ghost predicate Leftmost(text: bytes, token: bytes, from: nat, found: seq<nat>) {
    && (forall k | 0 <= k < |found| :: from <= found[k] && Occurs(text, token, found[k]))
    && Apart(found, |token|)
    && forall j | from <= j && Occurs(text, token, j) :: Covered(found, |token|, j)
  }

  lemma OccurrencesFit(text: bytes, token: bytes)
    ensures forall i: nat | Occurs(text, token, i) :: i + |token| <= |text|
  {}

  lemma CoveredByFirst(found: seq<nat>, width: nat, j: nat)
    requires found != [] && Apart(found, width) && found[0] <= j
    ensures Covered(found, width, j) <==> j < found[0] + width || Covered(found[1..], width, j)
  {
    if j < found[0] + width {
      assert found[0] <= j < found[0] + width;
    } else if Covered(found, width, j) {
      var k :| 0 <= k < |found| && found[k] <= j < found[k] + width;
      assert found[1..][k - 1] == found[k];
    }
  }

  lemma FindsAreLeftmost(text: bytes, token: bytes, from: nat, rest: seq<nat>)
    requires token != [] && Occurs(text, token, from) && Leftmost(text, token, from + |token|, rest)
    ensures Leftmost(text, token, from, [from] + rest)
  {
    hide Occurs, Covered;
    var r := [from] + rest;
    assert Apart(r, |token|) && r[1..] == rest;
    forall j | from <= j && Occurs(text, token, j)
      ensures Covered(r, |token|, j)
    {
      CoveredByFirst(r, |token|, j);
    }
  }

  lemma {:induction false} GreedyIsLeftmost(text: bytes, token: bytes, from: nat)
    requires token != []
    ensures Leftmost(text, token, from, Greedy(text, token, from))
    decreases |text| - from
  {
    hide Occurs, Leftmost;
    OccurrencesFit(text, token);
    if from + |token| > |text| {
      NothingLeft(text, token, from, []);
    } else if Occurs(text, token, from) {
      GreedyIsLeftmost(text, token, from + |token|);
      FindsAreLeftmost(text, token, from, Greedy(text, token, from + |token|));
    } else {
      GreedyIsLeftmost(text, token, from + 1);
      NothingBelow(text, token, from, Greedy(text, token, from + 1));
    }
  }

  lemma NothingLeft(text: bytes, token: bytes, from: nat, found: seq<nat>)
    requires from + |token| > |text|
    ensures Leftmost(text, token, from, found) <==> found == []
  {
    OccurrencesFit(text, token);
    hide Occurs, Covered;
    assert found != [] && from <= found[0] ==> !Occurs(text, token, found[0]);
  }

  lemma NothingBelow(text: bytes, token: bytes, from: nat, found: seq<nat>)
    requires !Occurs(text, token, from)
    ensures Leftmost(text, token, from, found) <==> Leftmost(text, token, from + 1, found)
  {
    hide Occurs;
  }

  lemma FoundFirst(text: bytes, token: bytes, from: nat, found: seq<nat>)
    requires token != [] && Leftmost(text, token, from, found) && Occurs(text, token, from)
    ensures found != [] && found[0] == from && Leftmost(text, token, from + |token|, found[1..])
  {
    hide Occurs, Covered;
    StartIsFirst(found, |token|, from);
    forall j | from + |token| <= j && Occurs(text, token, j)
      ensures Covered(found[1..], |token|, j)
    {
      CoveredByFirst(found, |token|, j);
    }
  }

  lemma StartIsFirst(found: seq<nat>, width: nat, from: nat)
    requires Apart(found, width) && Covered(found, width, from) && forall k | 0 <= k < |found| :: from <= found[k]
    ensures found != [] && found[0] == from
  {
    var k :| 0 <= k < |found| && found[k] <= from < found[k] + width;
  }

  /** There is only one such list. */
  lemma {:induction false} LeftmostIsGreedy(text: bytes, token: bytes, from: nat, found: seq<nat>)
    requires token != [] && Leftmost(text, token, from, found)
    ensures found == Greedy(text, token, from)
    decreases |text| - from
  {
    hide Occurs, Leftmost;
    if from + |token| > |text| {
      NothingLeft(text, token, from, found);
    } else if Occurs(text, token, from) {
      FoundFirst(text, token, from, found);
      LeftmostIsGreedy(text, token, from + |token|, found[1..]);
      assert found == [found[0]] + found[1..];
    } else {
      NothingBelow(text, token, from, found);
      LeftmostIsGreedy(text, token, from + 1, found);
    }
  }

  /** A token without borders is found at each of its places. */
  lemma {:induction false} GreedyFindsAll(text: bytes, token: bytes)
    requires Borderless(token)
    ensures forall i: nat :: multiset(Greedy(text, token, 0))[i] == if Occurs(text, token, i) then 1 else 0
  {
    var found := Greedy(text, token, 0);
    GreedyIsLeftmost(text, token, 0);
    hide Occurs, Greedy, Borderless;
    forall i: nat
      ensures multiset(found)[i] == if Occurs(text, token, i) then 1 else 0
    {
      if Occurs(text, token, i) {
        assert Covered(found, |token|, i);
        var k :| 0 <= k < |found| && found[k] <= i < found[k] + |token|;
        if found[k] < i { OccurrencesAreApart(text, token, found[k], i); }
        Single(found, k);
      } else {
        assert i !in found;
      }
    }
  }

  lemma Single(found: seq<nat>, k: nat)
    requires k < |found| && forall i, j | 0 <= i < j < |found| :: found[i] < found[j]
    ensures multiset(found)[found[k]] == 1
  {
    assert found == found[..k] + [found[k]] + found[k + 1..];
    assert found[k] !in found[..k] && found[k] !in found[k + 1..];
  }

  // A scan for the empty token would never move on.
  predicate Searchable(tokens: seq<bytes>) {
    forall i | 0 <= i < |tokens| :: tokens[i] != []
  }

  /** The finds of all tokens, each as often as it is found. */
  function AllFound(text: bytes, tokens: seq<bytes>): multiset<nat>
    requires Searchable(tokens)
  {
    if tokens == [] then multiset{}
    else AllFound(text, tokens[..|tokens| - 1]) + multiset(Greedy(text, tokens[|tokens| - 1], 0))
  }

  function Positions(m: multiset<nat>): set<nat> {
    set i | i in m
  }

  /** Tokens that cannot overlap are each found once at every place of theirs. */
  lemma {:induction false} AllFoundOnce(text: bytes, tokens: seq<bytes>)
    requires Separated(tokens)
    ensures forall i: nat :: AllFound(text, tokens)[i] == if i in AllPlaces(text, tokens) then 1 else 0
    ensures Positions(AllFound(text, tokens)) == AllPlaces(text, tokens)
  {
    hide Borderless, Greedy;
    if tokens != [] {
      var n := |tokens| - 1;
      AllFoundOnce(text, tokens[..n]);
      GreedyFindsAll(text, tokens[n]);
      assert tokens == tokens[..n] + [tokens[n]];
      forall i: nat
        ensures !(i in AllPlaces(text, tokens[..n]) && Occurs(text, tokens[n], i))
        ensures i in AllPlaces(text, tokens) <==> i in AllPlaces(text, tokens[..n]) || Occurs(text, tokens[n], i)
      {
        if i in AllPlaces(text, tokens[..n]) && Occurs(text, tokens[n], i) {
          var t :| t in tokens[..n] && Occurs(text, t, i);
          TokensAreApart(text, t, tokens[n], i);
        }
      }
    }
  }

  // ------------------------------------------------------------------ the loops

  /** strings.Index from an offset on. */
  method Index(text: bytes, token: bytes, offset: nat) returns (at: Option<nat>)
    requires offset <= |text|
    ensures at.Some? ==> offset <= at.value && Occurs(text, token, at.value)
    ensures forall i | offset <= i && (at.Some? ==> i < at.value) :: !Occurs(text, token, i)
  {
    var i := offset;
    while i + |token| <= |text|
      invariant offset <= i && forall j | offset <= j < i :: !Occurs(text, token, j)
    {
      if text[i..i + |token|] == token { return Some(i); }
      i := i + 1;
    }
    at := None;
  }

  /** One token's finds, each search starting behind the last one. */
  method PlacesOf(text: bytes, token: bytes) returns (found: seq<nat>)
    requires token != []
    ensures found == Greedy(text, token, 0)
  {
    hide Occurs, Greedy;
    OccurrencesFit(text, token);
    found := [];
    var offset := 0;
    while offset < |text|
      invariant offset <= |text| && Greedy(text, token, 0) == found + Greedy(text, token, offset)
    {
      var at := Index(text, token, offset);
      if at.None? {
        GreedySkips(text, token, offset, |text|);
        GreedyEnds(text, token);
        return;
      }
      GreedySkips(text, token, offset, at.value);
      GreedyFinds(text, token, at.value);
      found := found + [at.value];
      offset := at.value + |token|;
    }
    GreedyEnds(text, token);
  }

  lemma {:induction false} GreedyEnds(text: bytes, token: bytes)
    requires token != []
    ensures Greedy(text, token, |text|) == []
  {}

  lemma GreedyFinds(text: bytes, token: bytes, at: nat)
    requires token != [] && Occurs(text, token, at)
    ensures Greedy(text, token, at) == [at] + Greedy(text, token, at + |token|)
  {}

  lemma {:induction false} GreedySkips(text: bytes, token: bytes, from: nat, to: nat)
    requires token != [] && from <= to <= |text| && forall i | from <= i < to :: !Occurs(text, token, i)
    ensures Greedy(text, token, from) == Greedy(text, token, to)
    decreases |text| - from
  {
    if from < to { GreedySkips(text, token, from + 1, to); }
  }

  ghost predicate Ascending(s: seq<nat>) {
    forall i, j | 0 <= i < j < |s| :: s[i] <= s[j]
  }

  method Insert(s: seq<nat>, x: nat) returns (r: seq<nat>)
    requires Ascending(s)
    ensures Ascending(r) && multiset(r) == multiset(s) + multiset{x}
  {
    var at := 0;
    while at < |s| && s[at] < x
      invariant at <= |s| && forall i | 0 <= i < at :: s[i] < x
    {
      at := at + 1;
    }
    r := s[..at] + [x] + s[at..];
    assert s == s[..at] + s[at..];
  }

  /** sort.Ints. */
  method Sort(s: seq<nat>) returns (r: seq<nat>)
    ensures Ascending(r) && multiset(r) == multiset(s)
  {
    r := [];
    for i := 0 to |s|
      invariant Ascending(r) && multiset(r) == multiset(s[..i])
    {
      assert s[..i + 1] == s[..i] + [s[i]];
      r := Insert(r, s[i]);
    }
    assert s[..|s|] == s;
  }

  /** tokenPositions: every find of every token, ascending. */
  method TokenPositions(text: bytes, tokens: seq<bytes>) returns (positions: seq<nat>)
    requires Searchable(tokens)
    ensures Ascending(positions) && multiset(positions) == AllFound(text, tokens)
  {
    positions := [];
    for n := 0 to |tokens|
      invariant multiset(positions) == AllFound(text, tokens[..n])
    {
      assert tokens[..n + 1][..n] == tokens[..n];
      var found := PlacesOf(text, tokens[n]);
      positions := positions + found;
    }
    assert tokens[..|tokens|] == tokens;
    positions := Sort(positions);
  }

  predicate Near(source: nat, sinks: set<nat>) {
    exists sink <- sinks :: source < sink <= source + 4096
  }

  function Listed(s: seq<nat>): set<nat> {
    set x | x in s
  }

  /** The inner loop, which stops at the first sink close enough. */
  method SinkFollows(source: nat, sinks: seq<nat>) returns (near: bool)
    ensures near <==> Near(source, Listed(sinks))
  {
    for j := 0 to |sinks|
      invariant forall k | 0 <= k < j :: !(source < sinks[k] <= source + WINDOW)
    {
      if sinks[j] > source && sinks[j] - source <= WINDOW {
        assert sinks[j] in Listed(sinks);
        return true;
      }
    }
    near := false;
  }

  /** How many of the sources below n have a sink close after them. */
  function Followed(sources: multiset<nat>, sinks: set<nat>, n: nat): nat {
    if n == 0 then 0
    else Followed(sources, sinks, n - 1) + (if Near(n - 1, sinks) then sources[n - 1] else 0)
  }

  lemma {:induction false} OneMoreSource(sources: multiset<nat>, sinks: set<nat>, n: nat, x: nat)
    ensures Followed(sources + multiset{x}, sinks, n)
         == Followed(sources, sinks, n) + (if x < n && Near(x, sinks) then 1 else 0)
  {
    hide Near;
    if n > 0 { OneMoreSource(sources, sinks, n - 1, x); }
  }

  lemma {:induction false} NoSources(sinks: set<nat>, n: nat)
    ensures Followed(multiset{}, sinks, n) == 0
  {
    if n > 0 { NoSources(sinks, n - 1); }
  }

  lemma {:induction false} FollowedPlaces(sources: multiset<nat>, places: set<nat>, sinks: set<nat>, n: nat)
    requires forall i: nat :: sources[i] == if i in places then 1 else 0
    ensures Followed(sources, sinks, n) == |set p | p in places && p < n && Near(p, sinks)|
  {
    hide Near;
    if n > 0 {
      FollowedPlaces(sources, places, sinks, n - 1);
      var before, now := set p | p in places && p < n - 1 && Near(p, sinks), set p | p in places && p < n && Near(p, sinks);
      assert now == if n - 1 in places && Near(n - 1, sinks) then before + {n - 1} else before;
    }
  }

  lemma {:induction false} FoundInText(text: bytes, tokens: seq<bytes>)
    requires Searchable(tokens)
    ensures forall i | i in AllFound(text, tokens) :: i < |text|
  {
    if tokens != [] {
      var token := tokens[|tokens| - 1];
      FoundInText(text, tokens[..|tokens| - 1]);
      GreedyIsLeftmost(text, token, 0);
      assert forall i | i in multiset(Greedy(text, token, 0)) :: i in Greedy(text, token, 0);
    }
  }

  /**
   * credentialEgressOccurrences: how many finds of sources have a find of a sink close after them. For tokens that
   * cannot overlap these are the places of sources with a place of a sink close after them.
   */
  method CredentialEgress(masked: bytes, sources: seq<bytes>, sinks: seq<bytes>) returns (count: nat)
    requires Searchable(sources) && Searchable(sinks)
    ensures count == Followed(AllFound(masked, sources), Positions(AllFound(masked, sinks)), |masked|)
    ensures Separated(sources) && Separated(sinks) ==>
              count == |set p | p in AllPlaces(masked, sources) && p < |masked| && Near(p, AllPlaces(masked, sinks))|
  {
    hide AllPlaces, AllFound, Followed, Near;
    var from := TokenPositions(masked, sources);
    var to := TokenPositions(masked, sinks);
    FoundInText(masked, sources);
    assert Listed(to) == Positions(multiset(to));
    count := 0;
    NoSources(Listed(to), |masked|);
    for i := 0 to |from|
      invariant count == Followed(multiset(from[..i]), Listed(to), |masked|)
    {
      assert from[..i + 1] == from[..i] + [from[i]];
      assert from[i] in multiset(from);
      var near := SinkFollows(from[i], to);
      OneMoreSource(multiset(from[..i]), Listed(to), |masked|, from[i]);
      if near { count := count + 1; }
    }
    assert from[..|from|] == from;
    if Separated(sources) && Separated(sinks) {
      AllFoundOnce(masked, sources);
      AllFoundOnce(masked, sinks);
      FollowedPlaces(AllFound(masked, sources), AllPlaces(masked, sources), Listed(to), |masked|);
    }
  }

  // The tokens the analyzer looks for.
  function Sources(): seq<bytes> {
    [Ascii("process.env"), Ascii("os.getenv("), Ascii("os.environ"), Ascii("keychain"), Ascii("credential")]
  }

  function Sinks(): seq<bytes> {
    [Ascii("fetch("), Ascii("http.newrequest"), Ascii("requests."), Ascii("urllib."), Ascii("axios."),
     Ascii("xmlhttprequest")]
  }

  /** A first byte that does not come again rules out borders. */
  lemma FirstByteOnce(token: bytes)
    requires token != [] && forall k | 0 < k < |token| :: token[k] != token[0]
    ensures Borderless(token)
  {
    forall k | 0 < k < |token|
      ensures token[k..] != token[..|token| - k]
    {
      assert token[k..][0] == token[k] && token[..|token| - k][0] == token[0];
    }
  }

  lemma SinksAreSeparated()
    ensures Separated(Sinks())
  {
    var s := Sinks();
    forall i | 0 <= i < |s|
      ensures Borderless(s[i])
    {
      FirstByteOnce(s[i]);
    }
    assert s[0][0] == 102 && s[1][0] == 104 && s[2][0] == 114 && s[3][0] == 117 && s[4][0] == 97 && s[5][0] == 120;
  }

  lemma SourcesAreSeparated()
    ensures Separated(Sources())
  {
    var s := Sources();
    var e := s[2];
    assert e[0] == 111 && e[8] == 111 && e[9] == 110 && e[1] == 115;
    forall k | 0 < k < |e|
      ensures e[k..] != e[..|e| - k]
    {
      if k == 8 {
        assert e[k..][1] == 110 && e[..|e| - k][1] == 115;
      } else {
        assert e[k..][0] == e[k] && e[..|e| - k][0] == e[0];
      }
    }
    FirstByteOnce(s[0]);
    FirstByteOnce(s[1]);
    FirstByteOnce(s[3]);
    FirstByteOnce(s[4]);
    assert s[0][0] == 112 && s[1][0] == 111 && s[1][3] == 103 && e[3] == 101 && s[3][0] == 107 && s[4][0] == 99;
  }
}
