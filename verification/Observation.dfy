// Observation identity: the canonical tuple, and what two equal identities mean.
module Observation {
  import opened Framing
  import opened Ordering

  datatype Observation = Observation(
    assetID: bytes, collector: bytes, host: bytes, scope: bytes, locationRef: bytes, projectID: bytes, source: bytes,
    consumers: seq<bytes>, metadata: map<bytes, bytes>)

  // "observation:sha256:" and the digest of a tuple; two IDs are the same when their tuples are.
  datatype ID = Sha256Of(tuple: bytes)

  // ----------------------------------------------------------------- the tuple

  // The domain a tuple opens with; the results below hold for any.
  const OBSERVATION_DOMAIN: bytes := Ascii("ssc-init.observation.v1")

  function Scalars(domain: bytes, o: Observation): seq<bytes> {
    [domain, o.assetID, o.collector, o.host, o.scope, o.locationRef, o.projectID, o.source]
  }

  function Pairs(keys: seq<bytes>, metadata: map<bytes, bytes>): (fs: seq<bytes>)
    requires forall k | k in keys :: k in metadata
    ensures |fs| == 2 * |keys|
  {
    if keys == [] then [] else [keys[0], metadata[keys[0]]] + Pairs(keys[1..], metadata)
  }

  function Counted(count: nat, fs: seq<bytes>): bytes {
    U32(Truncate32(count)) + Fields(fs)
  }

  ghost function Tuple(domain: bytes, o: Observation): bytes {
    var keys := InOrder(o.metadata.Keys);
    Fields(Scalars(domain, o)) + (Counted(|o.consumers|, o.consumers) + Counted(|keys|, Pairs(keys, o.metadata)))
  }

  method CanonicalTuple(domain: bytes, o: Observation) returns (output: bytes)
    ensures output == Tuple(domain, o)
  {
    hide Fields, U32, Scalars, Pairs;
    output := AppendFields([], Scalars(domain, o));
    assert [] + Fields(Scalars(domain, o)) == Fields(Scalars(domain, o));
    output := AppendCounted(output, |o.consumers|, o.consumers);
    var keys := SortedListing(o.metadata.Keys);
    output := AppendCounted(output, |keys|, Pairs(keys, o.metadata));
    Associative(Fields(Scalars(domain, o)), Counted(|o.consumers|, o.consumers), Counted(|keys|, Pairs(keys, o.metadata)));
  }

  method AppendCounted(start: bytes, count: nat, fs: seq<bytes>) returns (output: bytes)
    ensures output == start + Counted(count, fs)
  {
    hide Fields, U32;
    output := start + U32(Truncate32(count));
    output := AppendFields(output, fs);
    Associative(start, U32(Truncate32(count)), Fields(fs));
  }

  method AppendFields(start: bytes, fs: seq<bytes>) returns (output: bytes)
    ensures output == start + Fields(fs)
  {
    output := start;
    for i := 0 to |fs|
      invariant output == start + Fields(fs[..i])
    {
      FieldsAppend(fs[..i], [fs[i]]);
      assert fs[..i + 1] == fs[..i] + [fs[i]];
      assert Fields([fs[i]]) == Field(fs[i]) + Fields([]);
      output := output + Field(fs[i]);
    }
    assert fs[..|fs|] == fs;
  }

  // --------------------------------------------------------------- reading back

  function ReadN(s: bytes, n: nat): Option<(seq<bytes>, bytes)>
    decreases n
  {
    if n == 0 then Some(([], s))
    else match ReadField(s)
      case None => None
      case Some((first, rest)) =>
        match ReadN(rest, n - 1)
        case None => None
        case Some((others, left)) => Some(([first] + others, left))
  }

  lemma {:induction false} ReadNInverse(fs: seq<bytes>, rest: bytes)
    requires Fits(fs)
    ensures ReadN(Fields(fs) + rest, |fs|) == Some((fs, rest))
  {
    if fs == [] {
      assert Fields(fs) + rest == rest;
    } else {
      var tail := Fields(fs[1..]) + rest;
      Associative(Field(fs[0]), Fields(fs[1..]), rest);
      ReadFieldInverse(fs[0], tail);
      ReadNInverse(fs[1..], rest);
      assert fs == [fs[0]] + fs[1..];
    }
  }

  function ReadCounted(s: bytes, pairs: bool): Option<(seq<bytes>, bytes)> {
    if |s| < 4 then None else ReadN(s[4..], if pairs then 2 * U32Value(s[..4]) else U32Value(s[..4]))
  }

  lemma {:induction false} SplitCount(count: nat, fs: seq<bytes>, rest: bytes)
    requires count < LENGTH_BOUND
    ensures var s := Counted(count, fs) + rest;
            |s| >= 4 && U32Value(s[..4]) == count && s[4..] == Fields(fs) + rest
  {
    hide U32, U32Value, Fields;
    U32RoundTrip(count);
    assert (Counted(count, fs) + rest)[..4] == U32(count);
  }

  lemma {:induction false} ReadAfterCount(s: bytes, pairs: bool, n: nat, body: bytes)
    requires |s| >= 4 && s[4..] == body && n == (if pairs then 2 * U32Value(s[..4]) else U32Value(s[..4]))
    ensures ReadCounted(s, pairs) == ReadN(body, n)
  {}

  lemma ReadCountedInverse(count: nat, fs: seq<bytes>, pairs: bool, rest: bytes)
    requires Fits(fs) && count < LENGTH_BOUND && |fs| == (if pairs then 2 * count else count)
    ensures ReadCounted(Counted(count, fs) + rest, pairs) == Some((fs, rest))
  {
    SplitCount(count, fs, rest);
    ReadAfterCount(Counted(count, fs) + rest, pairs, |fs|, Fields(fs) + rest);
    ReadNInverse(fs, rest);
  }

  /** Every string and count is below 2^32, so that no length is truncated. */
  ghost predicate Encodable(o: Observation) {
    && Fits(Scalars([], o)) && Fits(o.consumers) && |o.consumers| < LENGTH_BOUND
    && |o.metadata| < LENGTH_BOUND && forall k | k in o.metadata :: |k| < LENGTH_BOUND && |o.metadata[k]| < LENGTH_BOUND
  }

  lemma {:induction false} PairsFit(keys: seq<bytes>, metadata: map<bytes, bytes>)
    requires forall k | k in keys :: k in metadata && |k| < LENGTH_BOUND && |metadata[k]| < LENGTH_BOUND
    ensures Fits(Pairs(keys, metadata))
  {
    if keys != [] { PairsFit(keys[1..], metadata); }
  }

  lemma {:induction false} PairsDetermine(keys: seq<bytes>, m: map<bytes, bytes>, keys': seq<bytes>, m': map<bytes, bytes>)
    requires (forall k | k in keys :: k in m) && (forall k | k in keys' :: k in m')
    requires Pairs(keys, m) == Pairs(keys', m')
    ensures keys == keys' && forall k | k in keys :: m[k] == m'[k]
  {
    if keys != [] {
      var p, p' := Pairs(keys, m), Pairs(keys', m');
      assert p[0] == keys[0] && p[1] == m[keys[0]] && p[2..] == Pairs(keys[1..], m);
      assert p'[0] == keys'[0] && p'[1] == m'[keys'[0]] && p'[2..] == Pairs(keys'[1..], m');
      PairsDetermine(keys[1..], m, keys'[1..], m');
      assert keys == [keys[0]] + keys[1..] && keys' == [keys'[0]] + keys'[1..];
    }
  }

  lemma KeyCount(o: Observation)
    ensures |InOrder(o.metadata.Keys)| == |o.metadata|
  {
    assert |InOrder(o.metadata.Keys)| == |multiset(InOrder(o.metadata.Keys))| == |o.metadata.Keys| == |o.metadata|;
  }

  /** What the decoder gets back from a tuple. */
  lemma {:induction false} TupleDecodes(domain: bytes, o: Observation)
    requires Encodable(o) && |domain| < LENGTH_BOUND
    ensures var keys := InOrder(o.metadata.Keys);
            var tail := Counted(|keys|, Pairs(keys, o.metadata));
            && ReadN(Tuple(domain, o), 8) == Some((Scalars(domain, o), Counted(|o.consumers|, o.consumers) + tail))
            && ReadCounted(Counted(|o.consumers|, o.consumers) + tail, false) == Some((o.consumers, tail))
            && ReadCounted(tail, true) == Some((Pairs(keys, o.metadata), []))
  {
    var keys := InOrder(o.metadata.Keys);
    var tail := Counted(|keys|, Pairs(keys, o.metadata));
    KeyCount(o);
    PairsFit(keys, o.metadata);
    ScalarsFit(domain, o);
    ReadNInverse(Scalars(domain, o), Counted(|o.consumers|, o.consumers) + tail);
    ReadCountedInverse(|o.consumers|, o.consumers, false, tail);
    ReadCountedInverse(|keys|, Pairs(keys, o.metadata), true, []);
    assert tail + [] == tail;
  }

  lemma ScalarsFit(domain: bytes, o: Observation)
    requires Encodable(o) && |domain| < LENGTH_BOUND
    ensures Fits(Scalars(domain, o))
  {
    var a, b := Scalars([], o), Scalars(domain, o);
    forall i | 0 <= i < |b|
      ensures |b[i]| < LENGTH_BOUND
    {
      assert i == 0 || b[i] == a[i];
      assert a[i] in a;
    }
  }

  lemma ScalarsDetermine(domain: bytes, o: Observation, o': Observation)
    requires Scalars(domain, o) == Scalars(domain, o') && o.consumers == o'.consumers && o.metadata == o'.metadata
    ensures o == o'
  {
    var a, b := Scalars(domain, o), Scalars(domain, o');
    assert a[1] == b[1] && a[2] == b[2] && a[3] == b[3] && a[4] == b[4] && a[5] == b[5] && a[6] == b[6] && a[7] == b[7];
  }

  lemma {:induction false} MetadataDetermines(m: map<bytes, bytes>, m': map<bytes, bytes>)
    requires Pairs(InOrder(m.Keys), m) == Pairs(InOrder(m'.Keys), m')
    ensures m == m'
  {
    var keys, keys' := InOrder(m.Keys), InOrder(m'.Keys);
    PairsDetermine(keys, m, keys', m');
    SameMembers(m.Keys, m'.Keys);
    forall k | k in m
      ensures m[k] == m'[k]
    {
      assert k in keys;
    }
  }

  lemma {:induction false} SameMembers(s: set<bytes>, s': set<bytes>)
    requires InOrder(s) == InOrder(s')
    ensures s == s'
  {
    assert forall x :: (x in s <==> x in InOrder(s)) && (x in s' <==> x in InOrder(s'));
  }

  /** Equal tuples come only from equal observations. */
  lemma {:induction false} TupleInjective(domain: bytes, o: Observation, o': Observation)
    requires Encodable(o) && Encodable(o') && |domain| < LENGTH_BOUND
    requires Tuple(domain, o) == Tuple(domain, o')
    ensures o == o'
  {
    TupleDecodes(domain, o);
    TupleDecodes(domain, o');
    MetadataDetermines(o.metadata, o'.metadata);
    ScalarsDetermine(domain, o, o');
  }

  lemma {:induction false} SwallowedField(filler: bytes, next: bytes)
    requires |filler| == LENGTH_BOUND - 4 && |next| < LENGTH_BOUND
    ensures Field(U32(|next|) + filler) + Field(next) == Field([]) + Field(filler + Field(next))
  {
    assert Truncate32(|U32(|next|) + filler|) == 0 && Truncate32(|filler + Field(next)|) == |next|;
  }

  /** Past the bound the tuple is not injective: a truncated length lets one field swallow the next. */
  lemma TruncationCollides(domain: bytes, o: Observation, filler: bytes)
    requires |filler| == LENGTH_BOUND - 4 && |o.source| < LENGTH_BOUND
    ensures var o1, o2 := o.(projectID := U32(|o.source|) + filler), o.(projectID := [], source := filler + Field(o.source));
            o1 != o2 && Tuple(domain, o1) == Tuple(domain, o2)
  {
    LastFields(domain, o, U32(|o.source|) + filler, o.source);
    LastFields(domain, o, [], filler + Field(o.source));
    SwallowedField(filler, o.source);
  }

  lemma {:induction false} LastFields(domain: bytes, o: Observation, projectID: bytes, source: bytes)
    ensures Fields(Scalars(domain, o.(projectID := projectID, source := source)))
         == Fields([domain, o.assetID, o.collector, o.host, o.scope, o.locationRef]) + (Field(projectID) + Field(source))
  {
    var head := [domain, o.assetID, o.collector, o.host, o.scope, o.locationRef];
    assert Scalars(domain, o.(projectID := projectID, source := source)) == head + [projectID, source];
    FieldsAppend(head, [projectID, source]);
    TwoFields(projectID, source);
  }

  lemma TwoFields(a: bytes, b: bytes)
    ensures Fields([a, b]) == Field(a) + Field(b)
  {
    assert [a, b][1..] == [b];
    assert Fields([b]) == Field(b) + Fields([]);
    assert Field(b) + [] == Field(b);
  }

  // ------------------------------------------------------------------ identity

  ghost function Canonical(o: Observation): Observation {
    o.(consumers := InOrder(Members(o.consumers)))
  }

  predicate Required(sensitive: bytes -> bool, field: bytes) {
    field != [] && !sensitive(field)
  }

  /** FinalizeObservation: None is the rejection of an empty required field or a sensitive one. */
  method FinalizeObservation(domain: bytes, sensitive: bytes -> bool, o: Observation)
    returns (result: Option<(Observation, ID)>)
    ensures result.Some? <==>
              && [] !in [o.assetID, o.collector, o.scope, o.locationRef]
              && forall f | f in [o.assetID, o.collector, o.scope, o.locationRef, o.host, o.projectID, o.source] + o.consumers ::
                   !sensitive(f)
    ensures result.Some? ==> result.value == (Canonical(o), Sha256Of(Tuple(domain, Canonical(o))))
  {
    var consumers := UniqueSorted(o.consumers);
    var value := o.(consumers := consumers);
    var required, others := [o.assetID, o.collector, o.scope, o.locationRef], [o.host, o.projectID, o.source] + consumers;
    var theirs := [o.host, o.projectID, o.source] + o.consumers;
    assert forall f :: f in consumers <==> f in o.consumers;
    assert forall f :: f in others <==> f in theirs;
    if (exists f <- required :: !Required(sensitive, f)) || (exists f <- others :: sensitive(f)) {
      return None;
    }
    var tuple := CanonicalTuple(domain, value);
    result := Some((value, Sha256Of(tuple)));
  }

  /** Two observations get one ID exactly when they agree on every field, on who consumes them, and on metadata. */
  lemma {:induction false} SameIdentity(domain: bytes, o: Observation, o': Observation)
    requires Encodable(Canonical(o)) && Encodable(Canonical(o')) && |domain| < LENGTH_BOUND
    ensures Sha256Of(Tuple(domain, Canonical(o))) == Sha256Of(Tuple(domain, Canonical(o')))
            <==> o.(consumers := []) == o'.(consumers := []) && Members(o.consumers) == Members(o'.consumers)
  {
    if Tuple(domain, Canonical(o)) == Tuple(domain, Canonical(o')) {
      TupleInjective(domain, Canonical(o), Canonical(o'));
      SameMembers(Members(o.consumers), Members(o'.consumers));
    }
  }
}
