// Masking comments and string literals out of source text, in place.
module Masker {
  import opened Framing

  const SPACE: byte := 0x20
  const NEWLINE: byte := 0x0A
  const SLASH: byte := 0x2F
  const STAR: byte := 0x2A
  const HASH: byte := 0x23
  const BACKSLASH: byte := 0x5C
  const SINGLE: byte := 0x27
  const DOUBLE: byte := 0x22
  const TICK: byte := 0x60

  predicate IsQuote(b: byte) { b == SINGLE || b == DOUBLE || b == TICK }

  // ------------------------------------------------------------ spans, as a reader sees them

  datatype Span = LineComment | BlockComment | Quoted(quote: byte)

  /** The comment or literal that opens at i, if one does. */
  function Opens(s: bytes, i: nat): Option<Span>
    requires i < |s|
  {
    if s[i] == SLASH && i + 1 < |s| && s[i + 1] == SLASH then Some(LineComment)
    else if s[i] == SLASH && i + 1 < |s| && s[i + 1] == STAR then Some(BlockComment)
    else if s[i] == HASH then Some(LineComment)
    else if IsQuote(s[i]) then Some(Quoted(s[i]))
    else None
  }

  /** How long the opener itself is. */
  function Opener(s: bytes, i: nat): (n: nat)
    requires i < |s| && Opens(s, i).Some?
    ensures 1 <= n && i + n <= |s|
  {
    if s[i] == SLASH then 2 else 1
  }

  /** Where a span whose text goes on at i ends: before the newline, or after the closing mark, or at the end. */
  function End(span: Span, s: bytes, i: nat): (e: nat)
    requires i <= |s|
    ensures i <= e <= |s|
    decreases |s| - i
  {
    if i == |s| then i
    else match span
      case LineComment => if s[i] == NEWLINE then i else End(span, s, i + 1)
      case BlockComment => if s[i] == STAR && i + 1 < |s| && s[i + 1] == SLASH then i + 2 else End(span, s, i + 1)
      case Quoted(q) =>
        if s[i] == BACKSLASH && i + 1 < |s| then End(span, s, i + 2)
        else if s[i] == q then i + 1
        else End(span, s, i + 1)
  }

  /** How many backslashes in a row stand right before k, counted from i on. */
  function Backslashes(s: bytes, i: nat, k: nat): (n: nat)
    requires i <= k <= |s|
    ensures n <= k - i
  {
    if i < k && s[k - 1] == 0x5C then Backslashes(s, i, k - 1) + 1 else 0
  }

  /** The mark that closes a literal stands at k: it is not escaped. */
  predicate ClosesAt(quote: byte, s: bytes, i: nat, k: nat)
    requires i <= k < |s|
  {
    s[k] == quote && Backslashes(s, i, k) % 2 == 0
  }

  lemma {:induction false} LineCommentEnds(s: bytes, i: nat)
    requires i <= |s|
    ensures var e := End(LineComment, s, i);
            && (forall k | i <= k < e :: s[k] != 0x0A) && (e < |s| ==> s[e] == 0x0A)
    decreases |s| - i
  {
    if i < |s| && s[i] != NEWLINE { LineCommentEnds(s, i + 1); }
  }

  /** A block comment ends behind its first star and slash, or with the text when there are none. */
  lemma {:induction false} BlockCommentEnds(s: bytes, i: nat)
    requires i <= |s|
    ensures var e := End(BlockComment, s, i);
            var closed := e >= i + 2 && s[e - 2] == 0x2A && s[e - 1] == 0x2F;
            && (closed || e == |s|)
            && forall k | i <= k < (if closed then e - 2 else |s| - 1) :: !(s[k] == 0x2A && s[k + 1] == 0x2F)
    decreases |s| - i
  {
    if i < |s| && !(s[i] == STAR && i + 1 < |s| && s[i + 1] == SLASH) { BlockCommentEnds(s, i + 1); }
  }

  lemma {:induction false} BackslashesSkip(s: bytes, i: nat, k: nat)
    requires i + 2 <= k <= |s| && s[i] == BACKSLASH
    ensures Backslashes(s, i, k) % 2 == Backslashes(s, i + 2, k) % 2
  {
    if k > i + 2 {
      if s[k - 1] == BACKSLASH { BackslashesSkip(s, i, k - 1); }
    } else {
      assert Backslashes(s, i, i + 1) == 1;
    }
  }

  lemma BackslashesFrom(s: bytes, i: nat, k: nat)
    requires i < k <= |s| && s[i] != BACKSLASH
    ensures Backslashes(s, i, k) == Backslashes(s, i + 1, k)
  {
    if k > i + 1 && s[k - 1] == BACKSLASH { BackslashesFrom(s, i, k - 1); }
  }

  /** A literal ends behind its first closing mark that is not escaped, or with the text when there is none. */
  lemma {:induction false} LiteralEnds(quote: byte, s: bytes, i: nat)
    requires i <= |s| && quote != BACKSLASH
    ensures var e := End(Quoted(quote), s, i);
            var closed := e > i && ClosesAt(quote, s, i, e - 1);
            (closed || e == |s|) && forall k | i <= k < (if closed then e - 1 else |s|) :: !ClosesAt(quote, s, i, k)
    decreases |s| - i
  {
    if i < |s| {
      if s[i] == BACKSLASH && i + 1 < |s| {
        LiteralEnds(quote, s, i + 2);
        assert Backslashes(s, i, i + 1) == 1;
        forall k | i + 2 <= k < |s|
          ensures ClosesAt(quote, s, i, k) <==> ClosesAt(quote, s, i + 2, k)
        {
          BackslashesSkip(s, i, k);
        }
      } else if s[i] != quote && s[i] != BACKSLASH {
        LiteralEnds(quote, s, i + 1);
        forall k | i + 1 <= k < |s|
          ensures ClosesAt(quote, s, i, k) <==> ClosesAt(quote, s, i + 1, k)
        {
          BackslashesFrom(s, i, k);
        }
      }
    }
  }

  /** Spaces in place of a span's text; comments keep their line breaks. */
  function Blank(span: Span, s: bytes): (r: bytes)
    ensures |r| == |s|
    ensures forall k | 0 <= k < |s| :: r[k] == (if s[k] == NEWLINE && !span.Quoted? then NEWLINE else SPACE)
  {
    seq(|s|, k requires 0 <= k < |s| => if s[k] == NEWLINE && !span.Quoted? then NEWLINE else SPACE)
  }

  /** The rest of the text from i, which is not inside any span. */
  function Mask(s: bytes, i: nat): (r: bytes)
    requires i <= |s|
    ensures |r| == |s| - i
    decreases |s| - i
  {
    if i == |s| then []
    else match Opens(s, i)
      case None => [s[i]] + Mask(s, i + 1)
      case Some(span) =>
        var e := End(span, s, i + Opener(s, i));
        Blank(span, s[i..e]) + Mask(s, e)
  }

  // ---------------------------------------------------------------------- properties

  /** Every byte is the original one or a space. */
  lemma {:induction false} MaskOnlyBlanks(s: bytes, i: nat)
    requires i <= |s|
    ensures forall k | 0 <= k < |s| - i :: Mask(s, i)[k] == s[i + k] || Mask(s, i)[k] == SPACE
    decreases |s| - i
  {
    if i < |s| {
      match Opens(s, i)
      case None => MaskOnlyBlanks(s, i + 1);
      case Some(span) => MaskOnlyBlanks(s, End(span, s, i + Opener(s, i)));
    }
  }

  /** Nothing that would open a comment or a literal. */
  predicate Clean(s: bytes) {
    forall i | 0 <= i < |s| :: Opens(s, i).None?
  }

  lemma CleanCons(b: byte, rest: bytes)
    requires Clean(rest) && b != HASH && !IsQuote(b)
    requires b == SLASH && rest != [] ==> rest[0] != SLASH && rest[0] != STAR
    ensures Clean([b] + rest)
  {
    var s := [b] + rest;
    forall i | 0 <= i < |s|
      ensures Opens(s, i).None?
    {
      if i > 0 { assert Opens(rest, i - 1).None?; }
    }
  }

  lemma CleanBlank(blank: bytes, rest: bytes)
    requires Clean(rest) && forall b | b in blank :: b == SPACE || b == NEWLINE
    ensures Clean(blank + rest)
  {
    var s := blank + rest;
    forall i | 0 <= i < |s|
      ensures Opens(s, i).None?
    {
      if i < |blank| { assert s[i] in blank; } else { assert Opens(rest, i - |blank|).None?; }
    }
  }

  /** What opens a span, byte by byte. */
  lemma CleanSpelled(s: bytes)
    ensures Clean(s) <==>
              && (forall b | b in s :: b != 0x22 && b != 0x23 && b != 0x27 && b != 0x60)
              && forall i | 0 <= i < |s| - 1 :: !(s[i] == 0x2F && (s[i + 1] == 0x2F || s[i + 1] == 0x2A))
  {
    if Clean(s) {
      forall b | b in s
        ensures b != 0x22 && b != 0x23 && b != 0x27 && b != 0x60
      {
        var i :| 0 <= i < |s| && s[i] == b;
        assert Opens(s, i).None?;
      }
      forall i | 0 <= i < |s| - 1
        ensures !(s[i] == 0x2F && (s[i + 1] == 0x2F || s[i + 1] == 0x2A))
      {
        assert Opens(s, i).None?;
      }
    } else {
      var i :| 0 <= i < |s| && Opens(s, i).Some?;
      assert s[i] in s;
    }
  }

  /** No quote, #, // or slash-star survives. */
  lemma {:induction false} MaskIsClean(s: bytes, i: nat)
    requires i <= |s|
    ensures Clean(Mask(s, i))
    decreases |s| - i
  {
    if i < |s| {
      match Opens(s, i)
      case None =>
        MaskIsClean(s, i + 1);
        MaskOnlyBlanks(s, i + 1);
        if i + 1 < |s| { assert Mask(s, i + 1)[0] == s[i + 1 + 0] || Mask(s, i + 1)[0] == SPACE; }
        CleanCons(s[i], Mask(s, i + 1));
      case Some(span) =>
        var e := End(span, s, i + Opener(s, i));
        MaskIsClean(s, e);
        CleanBlank(Blank(span, s[i..e]), Mask(s, e));
    }
  }

  lemma {:induction false} CleanIsUnmasked(s: bytes, i: nat)
    requires i <= |s| && Clean(s)
    ensures Mask(s, i) == s[i..]
    decreases |s| - i
  {
    if i < |s| {
      CleanIsUnmasked(s, i + 1);
      assert s[i..] == [s[i]] + s[i + 1..];
    }
  }

  /** Masking changes text exactly when something in it opens, and so masking twice is masking once. */
  lemma {:induction false} MaskFixesClean(s: bytes)
    ensures Mask(s, 0) == s <==> Clean(s)
    ensures Mask(Mask(s, 0), 0) == Mask(s, 0)
  {
    MaskIsClean(s, 0);
    CleanIsUnmasked(Mask(s, 0), 0);
    if Clean(s) { CleanIsUnmasked(s, 0); }
  }

  /** Text before the first opener is kept as it is. */
  lemma {:induction false} KeptUpToOpener(s: bytes, i: nat, n: nat)
    requires i <= n <= |s| && forall k | i <= k < n :: Opens(s, k).None?
    ensures Mask(s, i)[..n - i] == s[i..n]
    decreases n - i
  {
    if i < n {
      KeptUpToOpener(s, i + 1, n);
      assert s[i..n] == [s[i]] + s[i + 1..n];
      assert Mask(s, i)[..n - i] == [s[i]] + Mask(s, i + 1)[..n - (i + 1)];
    }
  }

  /** In text without quotes every line break stays, so masking comments keeps line numbers. */
  lemma {:induction false} LineBreaksStay(s: bytes, i: nat)
    requires i <= |s| && forall b | b in s :: !IsQuote(b)
    ensures forall k | 0 <= k < |s| - i :: s[i + k] == NEWLINE ==> Mask(s, i)[k] == NEWLINE
    decreases |s| - i
  {
    if i < |s| {
      match Opens(s, i)
      case None => LineBreaksStay(s, i + 1);
      case Some(span) => LineBreaksStay(s, End(span, s, i + Opener(s, i)));
    }
  }

  // ------------------------------------------------------------------ the state machine

  /** What is still to come when the scan is at i, inside a span or not. */
  function Rest(state: Option<Span>, s: bytes, i: nat): (r: bytes)
    requires i <= |s|
    ensures |r| == |s| - i
  {
    match state
    case None => Mask(s, i)
    case Some(span) => Blank(span, s[i..End(span, s, i)]) + Mask(s, End(span, s, i))
  }

  lemma BlankAppend(span: Span, s: bytes, i: nat, j: nat, e: nat)
    requires i <= j <= e <= |s|
    ensures Blank(span, s[i..e]) == Blank(span, s[i..j]) + Blank(span, s[j..e])
  {
    assert s[i..e] == s[i..j] + s[j..e];
  }

  /** Inside a span, at i: n bytes are blanked and the span goes on, or ends there. */
  lemma InsideStep(span: Span, s: bytes, i: nat, n: nat, state: Option<Span>)
    requires i + n <= |s| && i + n <= End(span, s, i)
    requires state == Some(span) ==> End(span, s, i + n) == End(span, s, i)
    requires state != Some(span) ==> state == None && End(span, s, i) == i + n
    ensures Rest(Some(span), s, i) == Blank(span, s[i..i + n]) + Rest(state, s, i + n)
  {
    hide Mask, End;
    var e := End(span, s, i);
    BlankAppend(span, s, i, i + n, e);
    if state == None { assert s[i + n..e] == []; }
    assert Blank(span, s[i..i + n]) + Blank(span, s[i + n..e]) + Mask(s, e)
        == Blank(span, s[i..i + n]) + (Blank(span, s[i + n..e]) + Mask(s, e));
  }

  /** One step of the scan: the bytes it writes, and the state it goes on in. */
  function Step(state: Option<Span>, s: bytes, i: nat): (r: (bytes, Option<Span>))
    requires i < |s|
    ensures 1 <= |r.0| <= 2 && i + |r.0| <= |s|
  {
    match state
    case None =>
      (match Opens(s, i)
       case None => ([s[i]], None)
       case Some(span) => (if Opener(s, i) == 2 then [SPACE, SPACE] else [SPACE], Some(span)))
    case Some(LineComment) => if s[i] == NEWLINE then ([NEWLINE], None) else ([SPACE], state)
    case Some(BlockComment) =>
      if s[i] == STAR && i + 1 < |s| && s[i + 1] == SLASH then ([SPACE, SPACE], None)
      else ([if s[i] == NEWLINE then NEWLINE else SPACE], state)
    case Some(Quoted(q)) =>
      if s[i] == BACKSLASH && i + 1 < |s| then ([SPACE, SPACE], state)
      else ([SPACE], if s[i] == q then None else state)
  }

  /** Each step writes what the spans say. */
  lemma StepWrites(state: Option<Span>, s: bytes, i: nat)
    requires i < |s|
    ensures var r := Step(state, s, i);
            Rest(state, s, i) == r.0 + Rest(r.1, s, i + |r.0|)
  {
    hide *;
    match state
    case None => OutsideWrites(s, i);
    case Some(span) => InsideWrites(span, s, i);
  }

  lemma OutsideWrites(s: bytes, i: nat)
    requires i < |s|
    ensures var r := Step(None, s, i);
            Rest(None, s, i) == r.0 + Rest(r.1, s, i + |r.0|)
  {
    hide Mask, End, Blank;
    var r := Step(None, s, i);
    if Opens(s, i).None? {
      NothingOpens(s, i);
    } else {
      var span, n := Opens(s, i).value, Opener(s, i);
      var e := End(span, s, i + n);
      MaskOpens(s, i);
      BlankAppend(span, s, i, i + n, e);
      OpenerIsBlank(s, i);
      Associative(r.0, Blank(span, s[i + n..e]), Mask(s, e));
    }
  }

  lemma NothingOpens(s: bytes, i: nat)
    requires i < |s| && Opens(s, i).None?
    ensures Mask(s, i) == [s[i]] + Mask(s, i + 1)
  {}

  lemma OpenerIsBlank(s: bytes, i: nat)
    requires i < |s| && Opens(s, i).Some?
    ensures var n := Opener(s, i);
            && Blank(Opens(s, i).value, s[i..i + n]) == Step(None, s, i).0 && |Step(None, s, i).0| == n
  {}

  lemma InsideWrites(span: Span, s: bytes, i: nat)
    requires i < |s|
    ensures var r := Step(Some(span), s, i);
            Rest(Some(span), s, i) == r.0 + Rest(r.1, s, i + |r.0|)
  {
    hide Mask, Rest;
    var r := Step(Some(span), s, i);
    if span == LineComment && s[i] == NEWLINE {
      EndsAtNewline(s, i);
    } else {
      InsideStep(span, s, i, |r.0|, r.1);
      assert Blank(span, s[i..i + |r.0|]) == r.0;
    }
  }

  lemma EndsAtNewline(s: bytes, i: nat)
    requires i < |s| && s[i] == NEWLINE
    ensures Rest(Some(LineComment), s, i) == [NEWLINE] + Rest(None, s, i + 1)
  {
    assert s[i..i] == [] && Opens(s, i).None?;
  }

  lemma MaskOpens(s: bytes, i: nat)
    requires i < |s| && Opens(s, i).Some?
    ensures var span := Opens(s, i).value;
            var e := End(span, s, i + Opener(s, i));
            Mask(s, i) == Blank(span, s[i..e]) + Mask(s, e)
  {}

  /** maskCommentsAndStrings, over the array it overwrites. */
  method MaskInPlace(output: array<byte>)
    modifies output
    ensures output[..] == Mask(old(output[..]), 0)
  {
    hide Step, Rest, Mask;
    ghost var s := output[..];
    var index, state: Option<Span> := 0, None;
    ghost var written: bytes := [];
    RestOfAll(s);
    while index < output.Length
      invariant index <= output.Length && |written| == index
      invariant output[..] == written + s[index..]
      invariant written + Rest(state, s, index) == Mask(s, 0)
    {
      ghost var r := Step(state, s, index);
      StepWrites(state, s, index);
      SameStep(state, s, written, index);
      Associative(written, r.0, Rest(r.1, s, index + |r.0|));
      Replaced(written, r.0, s, index);
      index, state := MaskNext(output, index, state);
      written := written + r.0;
    }
    RestOfNothing(state, s);
  }

  lemma Replaced(written: bytes, step: bytes, s: bytes, i: nat)
    requires i + |step| <= |s| && |written| == i
    ensures var now, next := written + s[i..], i + |step|;
            |now| == |s| && now[..i] + step + now[next..] == (written + step) + s[next..]
  {}

  lemma {:induction false} RestOfAll(s: bytes)
    ensures [] + Rest(None, s, 0) == Mask(s, 0) && [] + s[0..] == s
  {}

  lemma RestOfNothing(state: Option<Span>, s: bytes)
    ensures Rest(state, s, |s|) == []
  {}

  /** A step looks only ahead, so what has been overwritten behind it does not matter. */
  lemma SameStep(state: Option<Span>, s: bytes, written: bytes, i: nat)
    requires i < |s| && |written| == i
    ensures Step(state, written + s[i..], i) == Step(state, s, i)
  {
    var now := written + s[i..];
    assert now[i] == s[i] && (i + 1 < |s| ==> now[i + 1] == s[i + 1]);
  }

  /** One turn of the loop. */
  method MaskNext(output: array<byte>, at: nat, from: Option<Span>) returns (index: nat, state: Option<Span>)
    requires at < output.Length
    modifies output
    ensures var r := Step(from, old(output[..]), at);
            && index == at + |r.0| && state == r.1
            && output[..] == old(output[..])[..at] + r.0 + old(output[..])[index..]
  {
    index, state := at, from;
    ghost var s := output[..];
    ghost var r := Step(from, s, at);
    assert s[at] == output[at] && (at + 1 < output.Length ==> s[at + 1] == output[at + 1]);
    var current, more := output[index], index + 1 < output.Length;
    match state {
    case None =>
      if current == SLASH && more && output[index + 1] == SLASH {
        output[index], output[index + 1], state := SPACE, SPACE, Some(LineComment);
        index := index + 1;
      } else if current == SLASH && more && output[index + 1] == STAR {
        output[index], output[index + 1], state := SPACE, SPACE, Some(BlockComment);
        index := index + 1;
      } else if current == HASH {
        output[index], state := SPACE, Some(LineComment);
      } else if IsQuote(current) {
        output[index], state := SPACE, Some(Quoted(current));
      }
    case Some(LineComment) =>
      if current == NEWLINE { state := None; } else { output[index] := SPACE; }
    case Some(BlockComment) =>
      if current == STAR && more && output[index + 1] == SLASH {
        output[index], output[index + 1], state := SPACE, SPACE, None;
        index := index + 1;
      } else if current != NEWLINE {
        output[index] := SPACE;
      }
    case Some(Quoted(quote)) =>
      if current == BACKSLASH && more {
        output[index], output[index + 1] := SPACE, SPACE;
        index := index + 1;
      } else {
        output[index] := SPACE;
        if current == quote { state := None; }
      }
    }
    index := index + 1;
    assert output[at..index] == r.0;
    assert output[..] == output[..at] + output[at..index] + output[index..];
  }
}
