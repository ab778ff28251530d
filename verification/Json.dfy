// JSON values as trees, their token streams, and what the walkers ask about them.
module Json {
  import opened Framing

  datatype Value =
    | Scalar
    | Text(text: bytes)
    | List(items: seq<Value>)
    | Object(members: seq<Member>)

  datatype Member = Member(name: bytes, value: Value)

  // What a token reader hands out: punctuation between values is already read, numbers and literals are one kind.
  datatype Token = Plain | Str(text: bytes) | OpenList | CloseList | OpenObject | CloseObject

  type Tokens = seq<Token>

  function Write(v: Value): (ts: Tokens)
    ensures ts != [] && !ts[0].CloseList? && !ts[0].CloseObject?
    decreases v, 1
  {
    match v
    case Scalar => [Plain]
    case Text(s) => [Str(s)]
    case List(items) => [OpenList] + WriteItems(items) + [CloseList]
    case Object(members) => [OpenObject] + WriteMembers(members) + [CloseObject]
  }

  function WriteItems(items: seq<Value>): Tokens
    decreases items, 0
  {
    if items == [] then [] else Write(items[0]) + WriteItems(items[1..])
  }

  function WriteMembers(members: seq<Member>): Tokens
    decreases members, 0
  {
    if members == [] then [] else [Str(members[0].name)] + Write(members[0].value) + WriteMembers(members[1..])
  }

  // -------------------------------------------------------------------- parsing

  type Parsed<T> = Option<(T, Tokens)>

  /** The value a stream starts with, and the rest of the stream. */
  function Parse(ts: Tokens): (p: Parsed<Value>)
    ensures p.Some? ==> |p.value.1| < |ts|
    decreases |ts|, 0
  {
    if ts == [] then None
    else match ts[0]
      case Plain => Some((Scalar, ts[1..]))
      case Str(s) => Some((Text(s), ts[1..]))
      case OpenList => (match ParseItems(ts[1..]) case None => None case Some(p) => Some((List(p.0), p.1)))
      case OpenObject => (match ParseMembers(ts[1..]) case None => None case Some(p) => Some((Object(p.0), p.1)))
      case _ => None
  }

  function ParseItems(ts: Tokens): (p: Parsed<seq<Value>>)
    ensures p.Some? ==> |p.value.1| < |ts|
    decreases |ts|, 1
  {
    if ts == [] then None
    else if ts[0] == CloseList then Some(([], ts[1..]))
    else match Parse(ts)
      case None => None
      case Some(p) => Prepend([p.0], ParseItems(p.1))
  }

  function ParseMembers(ts: Tokens): (p: Parsed<seq<Member>>)
    ensures p.Some? ==> |p.value.1| < |ts|
    decreases |ts|, 1
  {
    if ts == [] then None
    else if ts[0] == CloseObject then Some(([], ts[1..]))
    else if !ts[0].Str? then None
    else match Parse(ts[1..])
      case None => None
      case Some(p) => Prepend([Member(ts[0].text, p.0)], ParseMembers(p.1))
  }

  function Prepend<T>(done: seq<T>, p: Parsed<seq<T>>): (r: Parsed<seq<T>>)
    ensures r.Some? <==> p.Some?
    ensures r.Some? ==> r.value == (done + p.value.0, p.value.1)
  {
    match p case None => None case Some(q) => Some((done + q.0, q.1))
  }

  lemma PrependNone<T>(p: Parsed<seq<T>>)
    ensures Prepend([], p) == p
  {
    if p.Some? { assert [] + p.value.0 == p.value.0; }
  }

  lemma PrependTwice<T>(a: seq<T>, b: seq<T>, p: Parsed<seq<T>>)
    ensures Prepend(a, Prepend(b, p)) == Prepend(a + b, p)
  {
    if p.Some? { assert a + (b + p.value.0) == a + b + p.value.0; }
  }

  /** Reading back what was written gives the same value and leaves exactly what follows it. */
  lemma {:induction false} ParseWritten(v: Value, rest: Tokens)
    ensures Parse(Write(v) + rest) == Some((v, rest))
    decreases v, 1
  {
    match v
    case Scalar => ParseSimple(v, rest);
    case Text(_) => ParseSimple(v, rest);
    case List(items) =>
      hide *;
      ParseWrittenItems(items, rest);
      ParseOpenList(items, rest);
    case Object(members) =>
      hide *;
      ParseWrittenMembers(members, rest);
      ParseOpenObject(members, rest);
  }

  lemma {:induction false} ParseSimple(v: Value, rest: Tokens)
    requires v.Scalar? || v.Text?
    ensures Parse(Write(v) + rest) == Some((v, rest))
  {
    assert (Write(v) + rest)[1..] == rest;
  }

  lemma {:induction false} ParseOpenList(items: seq<Value>, rest: Tokens)
    requires ParseItems(WriteItems(items) + ([CloseList] + rest)) == Some((items, rest))
    ensures Parse(Write(List(items)) + rest) == Some((List(items), rest))
  {
    hide WriteItems, ParseItems;
    assert (Write(List(items)) + rest)[1..] == WriteItems(items) + ([CloseList] + rest);
  }

  lemma {:induction false} ParseOpenObject(members: seq<Member>, rest: Tokens)
    requires ParseMembers(WriteMembers(members) + ([CloseObject] + rest)) == Some((members, rest))
    ensures Parse(Write(Object(members)) + rest) == Some((Object(members), rest))
  {
    hide WriteMembers, ParseMembers;
    assert (Write(Object(members)) + rest)[1..] == WriteMembers(members) + ([CloseObject] + rest);
  }

  lemma {:induction false} ParseWrittenItems(items: seq<Value>, rest: Tokens)
    ensures ParseItems(WriteItems(items) + ([CloseList] + rest)) == Some((items, rest))
    decreases items, 0
  {
    var ts := WriteItems(items) + ([CloseList] + rest);
    if items == [] {
      assert ts[0] == CloseList && ts[1..] == rest;
    } else {
      var after := WriteItems(items[1..]) + ([CloseList] + rest);
      assert ts == Write(items[0]) + after && ts[0] == Write(items[0])[0];
      ParseWritten(items[0], after);
      ParseWrittenItems(items[1..], rest);
      assert [items[0]] + items[1..] == items;
    }
  }

  lemma {:induction false} ParseWrittenMembers(members: seq<Member>, rest: Tokens)
    ensures ParseMembers(WriteMembers(members) + ([CloseObject] + rest)) == Some((members, rest))
    decreases members, 0
  {
    var ts := WriteMembers(members) + ([CloseObject] + rest);
    if members == [] {
      assert ts[0] == CloseObject && ts[1..] == rest;
    } else {
      var m, after := members[0], WriteMembers(members[1..]) + ([CloseObject] + rest);
      assert ts[0] == Str(m.name) && ts[1..] == Write(m.value) + after;
      ParseWritten(m.value, after);
      ParseWrittenMembers(members[1..], rest);
      assert [Member(m.name, m.value)] + members[1..] == members;
    }
  }

  /** A stream that parses starts with the tokens of the value found. */
  lemma {:induction false} ParsedIsWritten(ts: Tokens)
    ensures Parse(ts).Some? ==> ts == Write(Parse(ts).value.0) + Parse(ts).value.1
    decreases |ts|, 0
  {
    if Parse(ts).Some? {
      var p := Parse(ts).value;
      assert ts == [ts[0]] + ts[1..];
      match ts[0]
      case OpenList => ParsedItemsAreWritten(ts[1..]);
      case OpenObject => ParsedMembersAreWritten(ts[1..]);
      case _ =>
    }
  }

  lemma {:induction false} ParsedItemsAreWritten(ts: Tokens)
    ensures ParseItems(ts).Some? ==> ts == WriteItems(ParseItems(ts).value.0) + [CloseList] + ParseItems(ts).value.1
    decreases |ts|, 1
  {
    if ParseItems(ts).Some? {
      if ts[0] == CloseList {
        assert ts == [ts[0]] + ts[1..];
      } else {
        var p := Parse(ts).value;
        ParsedIsWritten(ts);
        ParsedItemsAreWritten(p.1);
        assert ([p.0] + ParseItems(p.1).value.0)[1..] == ParseItems(p.1).value.0;
      }
    }
  }

  lemma {:induction false} ParsedMembersAreWritten(ts: Tokens)
    ensures ParseMembers(ts).Some? ==> ts == WriteMembers(ParseMembers(ts).value.0) + [CloseObject] + ParseMembers(ts).value.1
    decreases |ts|, 1
  {
    hide Write;
    if ParseMembers(ts).Some? {
      assert ts == [ts[0]] + ts[1..];
      if ts[0] != CloseObject {
        var p := Parse(ts[1..]).value;
        ParsedIsWritten(ts[1..]);
        ParsedMembersAreWritten(p.1);
        var q := ParseMembers(p.1).value;
        WriteOneMember(Member(ts[0].text, p.0), q.0);
        hide WriteMembers, ParseMembers, Parse;
        Regroup([ts[0]], Write(p.0), WriteMembers(q.0), [CloseObject], q.1);
      }
    }
  }

  lemma Regroup(a: Tokens, b: Tokens, c: Tokens, d: Tokens, e: Tokens)
    ensures a + (b + (c + d + e)) == a + b + c + d + e
  {}

  lemma {:induction false} WriteOneMember(m: Member, members: seq<Member>)
    ensures WriteMembers([m] + members) == [Str(m.name)] + Write(m.value) + WriteMembers(members)
  {
    hide Write;
    assert ([m] + members)[1..] == members;
  }

  // -------------------------------------------------------- what is asked of it

  predicate Distinct(members: seq<Member>) {
    forall i, j | 0 <= i < j < |members| :: members[i].name != members[j].name
  }

  /** No object at any depth repeats a name. */
  predicate Unique(v: Value) {
    match v
    case Scalar => true
    case Text(_) => true
    case List(items) => forall i | 0 <= i < |items| :: Unique(items[i])
    case Object(members) => Distinct(members) && forall i | 0 <= i < |members| :: Unique(members[i].value)
  }

  datatype Usage = Usage(elements: int, stringBytes: int) {
    function Plus(u: Usage): Usage { Usage(elements + u.elements, stringBytes + u.stringBytes) }
    predicate Within(limit: Usage) { elements <= limit.elements && stringBytes <= limit.stringBytes }
  }

  /** List elements, and the bytes of string values; names are not counted. */
  function Use(v: Value): (u: Usage)
    ensures 0 <= u.elements && 0 <= u.stringBytes
    decreases v, 1
  {
    match v
    case Scalar => Usage(0, 0)
    case Text(s) => Usage(0, |s|)
    case List(items) => UseItems(items)
    case Object(members) => UseMembers(members)
  }

  function UseItems(items: seq<Value>): (u: Usage)
    ensures 0 <= u.elements && 0 <= u.stringBytes
    decreases items, 0
  {
    if items == [] then Usage(0, 0) else Usage(1, 0).Plus(Use(items[0])).Plus(UseItems(items[1..]))
  }

  function UseMembers(members: seq<Member>): (u: Usage)
    ensures 0 <= u.elements && 0 <= u.stringBytes
    decreases members, 0
  {
    if members == [] then Usage(0, 0) else Use(members[0].value).Plus(UseMembers(members[1..]))
  }

  lemma {:induction false} UseItemsAppend(a: seq<Value>, b: seq<Value>)
    ensures UseItems(a + b) == UseItems(a).Plus(UseItems(b))
    decreases |a|
  {
    hide *;
    if a == [] {
      assert a + b == b;
      NoItems(UseItems(b));
    } else {
      UseItemsAppend(a[1..], b);
      assert a + b == [a[0]] + (a[1..] + b) && a == [a[0]] + a[1..];
      UseOneItem(a[0], a[1..] + b);
      UseOneItem(a[0], a[1..]);
      PlusAssociates(Usage(1, 0).Plus(Use(a[0])), UseItems(a[1..]), UseItems(b));
    }
  }

  lemma NoItems(u: Usage)
    ensures UseItems([]).Plus(u) == u == u.Plus(UseItems([]))
    ensures UseMembers([]).Plus(u) == u == u.Plus(UseMembers([]))
  {}

  lemma {:induction false} UseOneItem(v: Value, items: seq<Value>)
    ensures UseItems([v] + items) == Usage(1, 0).Plus(Use(v)).Plus(UseItems(items))
  {
    hide Use;
    assert ([v] + items)[1..] == items;
  }

  lemma {:induction false} UseOneMember(m: Member, members: seq<Member>)
    ensures UseMembers([m] + members) == Use(m.value).Plus(UseMembers(members))
  {
    hide Use;
    assert ([m] + members)[1..] == members;
  }

  lemma PlusAssociates(a: Usage, b: Usage, c: Usage)
    ensures a.Plus(b).Plus(c) == a.Plus(b.Plus(c))
  {}

  lemma {:induction false} UseMembersAppend(a: seq<Member>, b: seq<Member>)
    ensures UseMembers(a + b) == UseMembers(a).Plus(UseMembers(b))
    decreases |a|
  {
    hide *;
    if a == [] {
      assert a + b == b;
      NoItems(UseMembers(b));
    } else {
      UseMembersAppend(a[1..], b);
      assert a + b == [a[0]] + (a[1..] + b) && a == [a[0]] + a[1..];
      UseOneMember(a[0], a[1..] + b);
      UseOneMember(a[0], a[1..]);
      PlusAssociates(Use(a[0].value), UseMembers(a[1..]), UseMembers(b));
    }
  }
}
