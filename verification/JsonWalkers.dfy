// The recursive walkers that consume a token reader.
module JsonWalkers {
  import opened Framing
  import opened Json

  // Inside a list, or inside an object before a name or before a value.
  datatype Place = InList | AtName | AtValue

  // What lies after the last readable token: the end of the input, or bytes the reader
  // cannot tokenize, which may or may not look like one more value.
  datatype Tail = End | Garbage(looksLikeMore: bool)

  function Advance(places: seq<Place>): seq<Place> {
    if places != [] && places[|places| - 1] == AtValue then places[..|places| - 1] + [AtName] else places
  }

  predicate ValueNext(places: seq<Place>) {
    places == [] || places[|places| - 1] != AtName
  }

  /** The places after a token, or None where the reader reports that the token cannot stand here. */
  function Read(places: seq<Place>, t: Token): Option<seq<Place>> {
    match t
    case OpenList => if ValueNext(places) then Some(Advance(places) + [InList]) else None
    case OpenObject => if ValueNext(places) then Some(Advance(places) + [AtName]) else None
    case CloseList =>
      if places != [] && places[|places| - 1] == InList then Some(places[..|places| - 1]) else None
    case CloseObject =>
      if places != [] && places[|places| - 1] == AtName then Some(places[..|places| - 1]) else None
    case Str(_) => Some(if ValueNext(places) then Advance(places) else places[..|places| - 1] + [AtValue])
    case Plain => if ValueNext(places) then Some(Advance(places)) else None
  }

  class Decoder {
    var ahead: Tokens
    var places: seq<Place>
    const tail: Tail

    constructor (input: Tokens, tail: Tail)
      ensures ahead == input && places == [] && this.tail == tail
    {
      ahead, places, this.tail := input, [], tail;
    }

    method Token() returns (t: Option<Token>)
      modifies this
      ensures t.Some? <==> old(ahead) != [] && Read(old(places), old(ahead)[0]).Some?
      ensures t.Some? ==>
                t.value == old(ahead)[0] && ahead == old(ahead)[1..] && Read(old(places), t.value) == Some(places)
      ensures t.None? ==> ahead == old(ahead) && places == old(places)
    {
      if ahead == [] { return None; }
      var next := Read(places, ahead[0]);
      if next.None? { return None; }
      t, ahead, places := Some(ahead[0]), ahead[1..], next.value;
    }

    function More(): bool
      reads this
    {
      if ahead == [] then tail.Garbage? && tail.looksLikeMore else !ahead[0].CloseList? && !ahead[0].CloseObject?
    }

    predicate AtEnd()
      reads this
    {
      ahead == [] && tail.End?
    }
  }

  // What a walk accepts of a stream: its first value, or its members or items up to the closing bracket.
  predicate Sound(p: Parsed<Value>) { p.Some? && Unique(p.value.0) }

  predicate SoundMembers(p: Parsed<seq<Member>>) { p.Some? && Unique(Object(p.value.0)) }

  predicate SoundItems(p: Parsed<seq<Value>>) { p.Some? && Unique(List(p.value.0)) }

  /** One more member read: either it joins those before it, or no reading of the object is sound. */
  lemma {:induction false} NextMember(done: seq<Member>, ts: Tokens)
    requires ts != [] && ts[0].Str? && Unique(Object(done))
    ensures var p, q := Parse(ts[1..]), Prepend(done, ParseMembers(ts));
            var repeats := exists m <- done :: m.name == ts[0].text;
            && (repeats || !Sound(p) ==> !SoundMembers(q))
            && (!repeats && Sound(p) ==>
                  var m := Member(ts[0].text, p.value.0);
                  Unique(Object(done + [m])) && q == Prepend(done + [m], ParseMembers(p.value.1)))
  {
    hide Parse;
    var p, q := Parse(ts[1..]), Prepend(done, ParseMembers(ts));
    if p.Some? {
      var m := Member(ts[0].text, p.value.0);
      PrependTwice(done, [m], ParseMembers(p.value.1));
      if q.Some? { assert q.value.0 == done + [m] + ParseMembers(p.value.1).value.0 && q.value.0[|done|] == m; }
      forall i | 0 <= i < |done| && q.Some?
        ensures q.value.0[i] == done[i]
      {
      }
    }
  }

  lemma {:induction false} NextItem(done: seq<Value>, ts: Tokens)
    requires ts != [] && ts[0] != CloseList && Unique(List(done))
    ensures var p, q := Parse(ts), Prepend(done, ParseItems(ts));
            && (!Sound(p) ==> !SoundItems(q))
            && (Sound(p) ==> Unique(List(done + [p.value.0])) && q == Prepend(done + [p.value.0], ParseItems(p.value.1)))
  {
    hide Parse;
    var p, q := Parse(ts), Prepend(done, ParseItems(ts));
    if p.Some? {
      PrependTwice(done, [p.value.0], ParseItems(p.value.1));
      if q.Some? {
        assert q.value.0 == done + [p.value.0] + ParseItems(p.value.1).value.0 && q.value.0[|done|] == p.value.0;
      }
    }
  }

  /** walk: reports a repeat, or a stream that does not start with a value; otherwise consumes exactly that value. */
  method Walk(d: Decoder) returns (duplicate: bool)
    requires ValueNext(d.places)
    modifies d
    ensures duplicate <==> !Sound(Parse(old(d.ahead)))
    ensures !duplicate ==> d.ahead == Parse(old(d.ahead)).value.1 && d.places == Advance(old(d.places))
    decreases |d.ahead|, 0
  {
    var token := d.Token();
    if token.None? { return true; }
    match token.value
    case OpenObject => duplicate := WalkObject(d);
    case OpenList => duplicate := WalkList(d);
    case CloseList => duplicate := true;
    case CloseObject => duplicate := true;
    case _ => duplicate := false;
  }

  method WalkObject(d: Decoder) returns (duplicate: bool)
    requires d.places != [] && d.places[|d.places| - 1] == AtName
    modifies d
    ensures duplicate <==> !SoundMembers(ParseMembers(old(d.ahead)))
    ensures !duplicate ==>
              d.ahead == ParseMembers(old(d.ahead)).value.1 && d.places == old(d.places)[..|old(d.places)| - 1]
    decreases |d.ahead|, 1
  {
    hide Parse, ParseMembers, Prepend, Unique;
    var seen: set<bytes> := {};
    ghost var start, places, done: seq<Member> := d.ahead, d.places, [];
    NothingRepeats();
    PrependNone(ParseMembers(start));
    while d.More()
      invariant |d.ahead| <= |start| && d.places == places
      invariant ParseMembers(start) == Prepend(done, ParseMembers(d.ahead)) && Unique(Object(done))
      invariant forall name :: name in seen <==> exists m <- done :: m.name == name
      decreases |d.ahead|
    {
      ghost var ts := d.ahead;
      var key := d.Token();
      if key.None? || !key.value.Str? {
        MembersEnd(done, ts);
        return true;
      }
      NextMember(done, ts);
      if key.value.text in seen { return true; }
      seen := seen + {key.value.text};
      var inner := Walk(d);
      if inner { return true; }
      done := done + [Member(key.value.text, Parse(ts[1..]).value.0)];
    }
    MembersEnd(done, d.ahead);
    var close := d.Token();
    duplicate := close.None?;
  }

  method WalkList(d: Decoder) returns (duplicate: bool)
    requires d.places != [] && d.places[|d.places| - 1] == InList
    modifies d
    ensures duplicate <==> !SoundItems(ParseItems(old(d.ahead)))
    ensures !duplicate ==>
              d.ahead == ParseItems(old(d.ahead)).value.1 && d.places == old(d.places)[..|old(d.places)| - 1]
    decreases |d.ahead|, 1
  {
    hide Parse, ParseItems, Prepend, Unique;
    ghost var start, places, done: seq<Value> := d.ahead, d.places, [];
    NothingRepeats();
    PrependNone(ParseItems(start));
    while d.More()
      invariant |d.ahead| <= |start| && d.places == places
      invariant ParseItems(start) == Prepend(done, ParseItems(d.ahead)) && Unique(List(done))
      decreases |d.ahead|
    {
      ghost var ts := d.ahead;
      if ts == [] { ItemsEnd(done, ts); } else { NextItem(done, ts); }
      var inner := Walk(d);
      if inner { return true; }
      done := done + [Parse(ts).value.0];
    }
    ItemsEnd(done, d.ahead);
    var close := d.Token();
    duplicate := close.None?;
  }

  /** Where no member follows, the members end here or the object is not well formed. */
  lemma {:induction false} MembersEnd(done: seq<Member>, ts: Tokens)
    requires ts == [] || !ts[0].Str?
    ensures Prepend(done, ParseMembers(ts)) == if ts != [] && ts[0].CloseObject? then Some((done, ts[1..])) else None
  {
    assert done + [] == done;
  }

  lemma {:induction false} ItemsEnd(done: seq<Value>, ts: Tokens)
    requires ts == [] || ts[0].CloseList? || ts[0].CloseObject?
    ensures Prepend(done, ParseItems(ts)) == if ts != [] && ts[0].CloseList? then Some((done, ts[1..])) else None
  {
    assert done + [] == done;
  }

  lemma NothingRepeats()
    ensures Unique(Object([])) && Unique(List([]))
  {}

  /** hasDuplicateObjectKey: false exactly on the tokens of one value, and nothing more, that repeats no name. */
  method HasDuplicateObjectKey(input: Tokens, tail: Tail) returns (duplicate: bool)
    ensures !duplicate <==> tail.End? && exists v :: input == Write(v) && Unique(v)
  {
    var d := new Decoder(input, tail);
    duplicate := Walk(d);
    if !duplicate { duplicate := !d.AtEnd(); }
    OneValue(input);
  }

  lemma {:induction false} OneValue(input: Tokens)
    ensures forall v | input == Write(v) :: Parse(input) == Some((v, []))
    ensures Parse(input).Some? && Parse(input).value.1 == [] ==> input == Write(Parse(input).value.0)
  {
    hide Parse, Write;
    forall v | input == Write(v)
      ensures Parse(input) == Some((v, []))
    {
      ParseWritten(v, []);
      assert Write(v) + [] == Write(v);
    }
    ParsedIsWritten(input);
    if Parse(input).Some? { assert Write(Parse(input).value.0) + [] == Write(Parse(input).value.0); }
  }

  // ------------------------------------------------------------- with a schema

  datatype Schema = Schema(fields: map<bytes, Option<Schema>>)

  /** Every member is a field of the schema, no field comes twice, and a field with a schema of its own meets it. */
  predicate Exact(v: Value, schema: Schema)
    decreases v
  {
    && v.Object? && Distinct(v.members)
    && forall i | 0 <= i < |v.members| :: ExactMember(v.members[i], schema)
  }

  predicate ExactMember(m: Member, schema: Schema)
    decreases m
  {
    m.name in schema.fields && (schema.fields[m.name].Some? ==> Exact(m.value, schema.fields[m.name].value))
  }

  predicate ExactMembers(p: Parsed<seq<Member>>, schema: Schema) { p.Some? && Exact(Object(p.value.0), schema) }

  /** The next whole value as raw input, whatever names it repeats. */
  method DecodeRaw(d: Decoder) returns (raw: Option<Tokens>)
    requires ValueNext(d.places)
    modifies d
    ensures raw.Some? <==> Parse(old(d.ahead)).Some?
    ensures raw.Some? ==>
              && raw.value == Write(Parse(old(d.ahead)).value.0) && old(d.ahead) == raw.value + d.ahead
              && d.ahead == Parse(old(d.ahead)).value.1 && d.places == Advance(old(d.places))
  {
    ParsedIsWritten(d.ahead);
    match Parse(d.ahead)
    case None => raw := None;
    case Some(p) => raw, d.ahead, d.places := Some(Write(p.0)), p.1, Advance(d.places);
  }

  lemma {:induction false} NextExactMember(done: seq<Member>, ts: Tokens, schema: Schema)
    requires ts != [] && ts[0].Str? && Exact(Object(done), schema)
    ensures var p, q := Parse(ts[1..]), Prepend(done, ParseMembers(ts));
            var repeats := exists m <- done :: m.name == ts[0].text;
            && (repeats || p.None? || !ExactMember(Member(ts[0].text, p.value.0), schema) ==> !ExactMembers(q, schema))
            && (!repeats && p.Some? && ExactMember(Member(ts[0].text, p.value.0), schema) ==>
                  var more := done + [Member(ts[0].text, p.value.0)];
                  Exact(Object(more), schema) && q == Prepend(more, ParseMembers(p.value.1)))
  {
    hide Parse, ExactMember;
    var p, q := Parse(ts[1..]), Prepend(done, ParseMembers(ts));
    if p.Some? {
      var m := Member(ts[0].text, p.value.0);
      PrependTwice(done, [m], ParseMembers(p.value.1));
      if q.Some? { assert q.value.0 == done + [m] + ParseMembers(p.value.1).value.0 && q.value.0[|done|] == m; }
      forall i | 0 <= i < |done| && q.Some?
        ensures q.value.0[i] == done[i]
      {
      }
    }
  }

  /** The tokens of one value, and nothing more, that meets the schema. */
  ghost predicate Meets(input: Tokens, schema: Schema) {
    exists v :: input == Write(v) && Exact(v, schema)
  }

  method HasExactFields(input: Tokens, tail: Tail, schema: Schema) returns (ok: bool)
    ensures ok <==> tail.End? && Meets(input, schema)
    decreases |input|, 1
  {
    hide Parse, Exact, ExactMember, Write, Meets;
    ObjectsOpen(input, schema);
    var d := new Decoder(input, tail);
    var token := d.Token();
    if token != Some(OpenObject) { return false; }
    ok := ExactFieldsOf(d, schema);
    if ok { ok := d.AtEnd(); }
  }

  method ExactFieldsOf(d: Decoder, schema: Schema) returns (ok: bool)
    requires d.places == [AtName]
    modifies d
    ensures ok <==> ExactMembers(ParseMembers(old(d.ahead)), schema)
    ensures ok ==> d.ahead == ParseMembers(old(d.ahead)).value.1
    decreases |d.ahead|, 2
  {
    hide Parse, ParseMembers, Prepend, Exact, ExactMember, Write, Meets;
    var seen: set<bytes> := {};
    ghost var start, done: seq<Member> := d.ahead, [];
    NothingIsExact(schema);
    PrependNone(ParseMembers(start));
    while d.More()
      invariant |d.ahead| <= |start| && d.places == [AtName]
      invariant ParseMembers(start) == Prepend(done, ParseMembers(d.ahead)) && Exact(Object(done), schema)
      invariant forall name :: name in seen <==> exists m <- done :: m.name == name
      decreases |d.ahead|
    {
      ghost var ts := d.ahead;
      var key := d.Token();
      if key.None? || !key.value.Str? {
        MembersEnd(done, ts);
        return false;
      }
      NextExactMember(done, ts, schema);
      MembersMeet(ts[1..], key.value.text, schema);
      if key.value.text !in schema.fields || key.value.text in seen { return false; }
      seen := seen + {key.value.text};
      var value := DecodeRaw(d);
      if value.None? { return false; }
      var child := schema.fields[key.value.text];
      if child.Some? {
        var meets := HasExactFields(value.value, End, child.value);
        if !meets { return false; }
      }
      done := done + [Member(key.value.text, Parse(ts[1..]).value.0)];
    }
    MembersEnd(done, d.ahead);
    var close := d.Token();
    ok := close.Some?;
  }

  lemma ObjectsOpen(input: Tokens, schema: Schema)
    ensures Meets(input, schema) <==>
              && input != [] && input[0] == OpenObject && ExactMembers(ParseMembers(input[1..]), schema)
              && ParseMembers(input[1..]).value.1 == []
  {
    hide Write, Exact;
    OneValue(input);
    ExactIsObject(schema);
    if Meets(input, schema) {
      var v :| input == Write(v) && Exact(v, schema);
      assert Parse(input) == Some((v, []));
    }
  }

  lemma ExactIsObject(schema: Schema)
    ensures forall v | Exact(v, schema) :: v.Object?
  {}

  lemma {:induction false} NothingIsExact(schema: Schema)
    ensures Exact(Object([]), schema)
  {}

  lemma {:induction false} MembersMeet(ts: Tokens, name: bytes, schema: Schema)
    ensures Parse(ts).Some? ==>
              var m := Member(name, Parse(ts).value.0);
              ExactMember(m, schema) <==>
                && name in schema.fields
                && (schema.fields[name].Some? ==> Meets(Write(m.value), schema.fields[name].value))
  {
    hide Parse, Exact, Write;
    if Parse(ts).Some? {
      var value := Parse(ts).value.0;
      OneValue(Write(value));
    }
  }

  // --------------------------------------------------------------- with a budget

  class DecodedBudget {
    var elements: int
    var stringBytes: int

    constructor ()
      ensures Total() == Usage(0, 0)
    {
      elements, stringBytes := 0, 0;
    }

    function Total(): Usage
      reads this
    {
      Usage(elements, stringBytes)
    }
  }

  function Counted(count: bool): Usage { Usage(if count then 1 else 0, 0) }

  predicate Fits(p: Parsed<Value>, used: Usage, limit: Usage) {
    Sound(p) && used.Plus(Use(p.value.0)).Within(limit)
  }

  predicate FitsMembers(p: Parsed<seq<Member>>, used: Usage, limit: Usage) {
    SoundMembers(p) && used.Plus(UseMembers(p.value.0)).Within(limit)
  }

  predicate FitsItems(p: Parsed<seq<Value>>, used: Usage, limit: Usage) {
    SoundItems(p) && used.Plus(UseItems(p.value.0)).Within(limit)
  }

  /** One more member read within the budget, or no reading of the object is. */
  lemma {:induction false} NextMemberFits(done: seq<Member>, ts: Tokens, start: Usage, limit: Usage)
    requires ts != [] && ts[0].Str? && Unique(Object(done))
    ensures var p, q := Parse(ts[1..]), Prepend(done, ParseMembers(ts));
            var used := start.Plus(UseMembers(done));
            var repeats := exists m <- done :: m.name == ts[0].text;
            && (repeats || !Fits(p, used, limit) ==> !FitsMembers(q, start, limit))
            && (!repeats && Fits(p, used, limit) ==>
                  var more := done + [Member(ts[0].text, p.value.0)];
                  && Unique(Object(more)) && q == Prepend(more, ParseMembers(p.value.1))
                  && start.Plus(UseMembers(more)) == used.Plus(Use(p.value.0)))
  {
    hide Parse, ParseMembers, Use, UseMembers, Unique;
    NextMember(done, ts);
    var p := Parse(ts[1..]);
    if p.Some? {
      var m := Member(ts[0].text, p.value.0);
      var q := Prepend(done + [m], ParseMembers(p.value.1));
      UseMembersAppend(done, [m]);
      SingleUse(m);
      if q.Some? { UseMembersAppend(done + [m], ParseMembers(p.value.1).value.0); }
    }
  }

  lemma SingleUse(m: Member)
    ensures UseMembers([m]) == Use(m.value) && UseItems([m.value]) == Usage(1, 0).Plus(Use(m.value))
  {
    hide *;
    UseOneMember(m, []);
    UseOneItem(m.value, []);
    NoItems(Use(m.value));
    NoItems(Usage(1, 0).Plus(Use(m.value)));
    assert [m] + [] == [m] && [m.value] + [] == [m.value];
  }

  lemma {:induction false} NextItemFits(done: seq<Value>, ts: Tokens, start: Usage, limit: Usage)
    requires ts != [] && ts[0] != CloseList && Unique(List(done))
    ensures var p, q := Parse(ts), Prepend(done, ParseItems(ts));
            var used := start.Plus(UseItems(done)).Plus(Counted(true));
            && (!used.Within(limit) || !Fits(p, used, limit) ==> !FitsItems(q, start, limit))
            && (Fits(p, used, limit) ==>
                  var more := done + [p.value.0];
                  && Unique(List(more)) && q == Prepend(more, ParseItems(p.value.1))
                  && start.Plus(UseItems(more)) == used.Plus(Use(p.value.0)))
  {
    hide Parse, Use, UseItems, Unique;
    NextItem(done, ts);
    var p := Parse(ts);
    if p.Some? {
      var q := Prepend(done + [p.value.0], ParseItems(p.value.1));
      UseItemsAppend(done, [p.value.0]);
      SingleUse(Member([], p.value.0));
      if q.Some? { UseItemsAppend(done + [p.value.0], ParseItems(p.value.1).value.0); }
    }
  }

  /**
   * inspectJSONValue: accepts exactly when the value ahead repeats no name and its whole use fits the budget,
   * although it stops at the first element or string that does not.
   */
  method Inspect(d: Decoder, used: DecodedBudget, limit: Usage, count: bool) returns (ok: bool)
    requires ValueNext(d.places)
    requires used.stringBytes <= limit.stringBytes && (count || used.elements <= limit.elements)
    modifies d, used
    ensures ok <==> Fits(Parse(old(d.ahead)), old(used.Total()).Plus(Counted(count)), limit)
    ensures ok ==>
              && d.ahead == Parse(old(d.ahead)).value.1 && d.places == Advance(old(d.places))
              && used.Total() == old(used.Total()).Plus(Counted(count)).Plus(Use(Parse(old(d.ahead)).value.0))
              && used.Total().Within(limit)
    decreases |d.ahead|, 0
  {
    hide Parse, ParseItems, ParseMembers, Use, UseItems, UseMembers, Unique, Fits, FitsItems, FitsMembers;
    ghost var ts := d.ahead;
    InspectCases(ts, used.Total().Plus(Counted(count)), limit);
    if count {
      used.elements := used.elements + 1;
      if used.elements > limit.elements { return false; }
    }
    var token := d.Token();
    if token.None? { return false; }
    match token.value
    case Str(text) =>
      used.stringBytes := used.stringBytes + |text|;
      ok := used.stringBytes <= limit.stringBytes;
    case OpenObject => ok := InspectObject(d, used, limit);
    case OpenList => ok := InspectList(d, used, limit);
    case CloseList => ok := false;
    case CloseObject => ok := false;
    case Plain => ok := true;
  }

  /** What the first token says of a value and of its use. */
  lemma {:induction false} InspectCases(ts: Tokens, used: Usage, limit: Usage)
    ensures Fits(Parse(ts), used, limit) ==> used.Within(limit)
    ensures ts == [] || ts[0].CloseList? || ts[0].CloseObject? ==> !Fits(Parse(ts), used, limit)
    ensures ts != [] && ts[0].Plain? ==>
              && (Fits(Parse(ts), used, limit) <==> used.Within(limit))
              && Parse(ts) == Some((Scalar, ts[1..])) && used.Plus(Use(Scalar)) == used
    ensures ts != [] && ts[0].Str? ==>
              var v := Text(ts[0].text);
              && (Fits(Parse(ts), used, limit) <==> used.Plus(Usage(0, |ts[0].text|)).Within(limit))
              && Parse(ts) == Some((v, ts[1..])) && Use(v) == Usage(0, |ts[0].text|)
    ensures ts != [] && ts[0].OpenObject? ==>
              var p := ParseMembers(ts[1..]);
              && (Fits(Parse(ts), used, limit) <==> FitsMembers(p, used, limit))
              && (FitsMembers(p, used, limit) ==> p.Some? && used.Plus(UseMembers(p.value.0)).Within(limit))
              && (p.Some? ==> Parse(ts) == Some((Object(p.value.0), p.value.1)) && Use(Object(p.value.0)) == UseMembers(p.value.0))
    ensures ts != [] && ts[0].OpenList? ==>
              var p := ParseItems(ts[1..]);
              && (Fits(Parse(ts), used, limit) <==> FitsItems(p, used, limit))
              && (FitsItems(p, used, limit) ==> p.Some? && used.Plus(UseItems(p.value.0)).Within(limit))
              && (p.Some? ==> Parse(ts) == Some((List(p.value.0), p.value.1)) && Use(List(p.value.0)) == UseItems(p.value.0))
  {
    hide ParseItems, ParseMembers, UseItems, UseMembers;
  }

  method InspectObject(d: Decoder, used: DecodedBudget, limit: Usage) returns (ok: bool)
    requires d.places != [] && d.places[|d.places| - 1] == AtName && used.Total().Within(limit)
    modifies d, used
    ensures ok <==> FitsMembers(ParseMembers(old(d.ahead)), old(used.Total()), limit)
    ensures ok ==>
              && d.ahead == ParseMembers(old(d.ahead)).value.1 && d.places == old(d.places)[..|old(d.places)| - 1]
              && used.Total() == old(used.Total()).Plus(UseMembers(ParseMembers(old(d.ahead)).value.0))
    decreases |d.ahead|, 1
  {
    hide Parse, ParseMembers, Prepend, Unique, Use, UseMembers;
    var keys: set<bytes> := {};
    ghost var start, places, done: seq<Member> := d.ahead, d.places, [];
    ghost var before := used.Total();
    NoItems(before);
    NothingRepeats();
    PrependNone(ParseMembers(start));
    while d.More()
      invariant |d.ahead| <= |start| && d.places == places
      invariant ParseMembers(start) == Prepend(done, ParseMembers(d.ahead)) && Unique(Object(done))
      invariant used.Total() == before.Plus(UseMembers(done)) && used.Total().Within(limit)
      invariant forall name :: name in keys <==> exists m <- done :: m.name == name
      decreases |d.ahead|
    {
      ghost var ts := d.ahead;
      var key := d.Token();
      if key.None? || !key.value.Str? {
        MembersEnd(done, ts);
        return false;
      }
      NextMemberFits(done, ts, before, limit);
      if key.value.text in keys { return false; }
      keys := keys + {key.value.text};
      assert used.Total().Plus(Counted(false)) == used.Total();
      var inner := Inspect(d, used, limit, false);
      if !inner { return false; }
      done := done + [Member(key.value.text, Parse(ts[1..]).value.0)];
    }
    MembersEnd(done, d.ahead);
    var close := d.Token();
    ok := close.Some?;
  }

  method InspectList(d: Decoder, used: DecodedBudget, limit: Usage) returns (ok: bool)
    requires d.places != [] && d.places[|d.places| - 1] == InList && used.Total().Within(limit)
    modifies d, used
    ensures ok <==> FitsItems(ParseItems(old(d.ahead)), old(used.Total()), limit)
    ensures ok ==>
              && d.ahead == ParseItems(old(d.ahead)).value.1 && d.places == old(d.places)[..|old(d.places)| - 1]
              && used.Total() == old(used.Total()).Plus(UseItems(ParseItems(old(d.ahead)).value.0))
    decreases |d.ahead|, 1
  {
    hide Parse, ParseItems, Prepend, Unique, Use, UseItems;
    ghost var start, places, done: seq<Value> := d.ahead, d.places, [];
    ghost var before := used.Total();
    NoItems(before);
    NothingRepeats();
    PrependNone(ParseItems(start));
    while d.More()
      invariant |d.ahead| <= |start| && d.places == places
      invariant ParseItems(start) == Prepend(done, ParseItems(d.ahead)) && Unique(List(done))
      invariant used.Total() == before.Plus(UseItems(done)) && used.Total().Within(limit)
      decreases |d.ahead|
    {
      ghost var ts := d.ahead;
      if ts == [] { ItemsEnd(done, ts); } else { NextItemFits(done, ts, before, limit); }
      var inner := Inspect(d, used, limit, true);
      if !inner { return false; }
      done := done + [Parse(ts).value.0];
    }
    ItemsEnd(done, d.ahead);
    var close := d.Token();
    ok := close.Some?;
  }

  /** preflightOSVRecord: the root counts as an element, and nothing may follow the record. */
  method Preflight(input: Tokens, tail: Tail, limit: Usage) returns (ok: bool)
    requires 0 <= limit.stringBytes
    ensures ok <==> tail.End? && Record(input, limit)
  {
    hide Record, Fits, Parse, Use, Unique, Write, Usage.Plus, Usage.Within;
    var d := new Decoder(input, tail);
    var used := new DecodedBudget();
    ok := Inspect(d, used, limit, true);
    if ok { ok := d.AtEnd(); }
    RecordIsParsed(input, limit);
  }

  // Nothing used yet but the root.
  const ROOT := Usage(0, 0).Plus(Counted(true))

  /** A stream that is one value, repeats no name, and fits the budget with its root counted. */
  ghost predicate Record(input: Tokens, limit: Usage) {
    exists v :: input == Write(v) && Unique(v) && ROOT.Plus(Use(v)).Within(limit)
  }

  lemma {:induction false} RecordIsParsed(input: Tokens, limit: Usage)
    ensures Record(input, limit) <==> Fits(Parse(input), ROOT, limit) && Parse(input).value.1 == []
  {
    hide Parse, Use, Unique, Write, Usage.Plus, Usage.Within;
    OneValue(input);
  }
}
