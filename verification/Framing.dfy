// Length-prefixed framing, shared by the tree manifest, the cache key and the
// observation tuple: every field is a 4-byte big-endian length and its bytes.
module Framing {

  type byte = x: int | 0 <= x < 0x100
  type bytes = seq<byte>
  type uint32 = x: int | 0 <= x < 0x1_0000_0000
  type uint64 = x: int | 0 <= x < 0x1_0000_0000_0000_0000
  type int64 = x: int | -0x8000_0000_0000_0000 <= x < 0x8000_0000_0000_0000

  // The output of SHA-256: always 32 bytes.
  type Digest = d: bytes | |d| == 32 witness seq(32, _ => 0)

  datatype Option<+T> = None | Some(value: T) {
    function GetOr(default: T): T {
      if Some? then value else default
    }
  }

  // Two 32-bit lengths are told apart only below this bound.
  const LENGTH_BOUND: int := 0x1_0000_0000

  /** The bytes of an ASCII literal. */
  function Ascii(text: string): (out: bytes)
    ensures |out| == |text|
  {
    seq(|text|, i requires 0 <= i < |text| => if (text[i] as int) < 0x80 then text[i] as int else 0)
  }

  /** Go's conversion uint32(n) of a length, which keeps the low 32 bits. */
  function Truncate32(n: nat): uint32 {
    n % LENGTH_BOUND
  }

  /** Go's conversion uint64(x) of a signed 64-bit value: two's complement. */
  function Unsigned64(x: int64): uint64 {
    if x < 0 then x + 0x1_0000_0000_0000_0000 else x
  }

  function U32(n: uint32): (out: bytes)
    ensures |out| == 4
  {
    [n / 0x100 / 0x100 / 0x100, n / 0x100 / 0x100 % 0x100, n / 0x100 % 0x100, n % 0x100]
  }

  function U64(n: uint64): (out: bytes)
    ensures |out| == 8
  {
    U32(n / LENGTH_BOUND) + U32(n % LENGTH_BOUND)
  }

  function U32Value(b: bytes): uint32
    requires |b| == 4
  {
    var b0: int, b1: int, b2: int, b3: int := b[0], b[1], b[2], b[3];
    ((b0 * 0x100 + b1) * 0x100 + b2) * 0x100 + b3
  }

  function U64Value(b: bytes): uint64
    requires |b| == 8
  {
    var high: int, low: int := U32Value(b[..4]), U32Value(b[4..]);
    high * LENGTH_BOUND + low
  }

  lemma U32RoundTrip(n: uint32)
    ensures U32Value(U32(n)) == n
  {
    assert U32(n)[3] == n % 0x100 && U32(n)[0] == n / 0x100 / 0x100 / 0x100;
  }

  lemma {:induction false} U64RoundTrip(n: uint64)
    ensures U64Value(U64(n)) == n
  {
    U32RoundTrip(n / LENGTH_BOUND);
    U32RoundTrip(n % LENGTH_BOUND);
    assert U64(n)[..4] == U32(n / LENGTH_BOUND) && U64(n)[4..] == U32(n % LENGTH_BOUND);
  }

  function Field(b: bytes): bytes {
    U32(Truncate32(|b|)) + b
  }

  function Fields(fs: seq<bytes>): bytes {
    if fs == [] then [] else Field(fs[0]) + Fields(fs[1..])
  }

  ghost predicate Fits(fs: seq<bytes>) {
    forall f | f in fs :: |f| < LENGTH_BOUND
  }

  /** Splits off the first length-prefixed field. */
  function ReadField(s: bytes): (r: Option<(bytes, bytes)>)
    ensures r.Some? ==> |r.value.1| < |s|
  {
    if |s| < 4 then None
    else
      var n := U32Value(s[..4]);
      if n > |s| - 4 then None else Some((s[4..4 + n], s[4 + n..]))
  }

  /** Reads fields until the input is used up. */
  function ReadFields(s: bytes): Option<seq<bytes>>
    decreases |s|
  {
    if s == [] then Some([])
    else match ReadField(s)
      case None => None
      case Some((first, rest)) =>
        match ReadFields(rest)
        case None => None
        case Some(others) => Some([first] + others)
  }

  lemma ReadFieldInverse(b: bytes, rest: bytes)
    requires |b| < LENGTH_BOUND
    ensures ReadField(Field(b) + rest) == Some((b, rest))
  {
    hide U32, U32Value;
    var s := Field(b) + rest;
    U32RoundTrip(|b|);
    assert s[..4] == U32(|b|);
    assert s[4..4 + |b|] == b;
    assert s[4 + |b|..] == rest;
  }

  lemma {:induction false} ReadFieldsInverse(fs: seq<bytes>)
    requires Fits(fs)
    ensures ReadFields(Fields(fs)) == Some(fs)
  {
    if fs != [] {
      ReadFieldInverse(fs[0], Fields(fs[1..]));
      ReadFieldsInverse(fs[1..]);
      assert fs == [fs[0]] + fs[1..];
    }
  }

  lemma {:induction false} FieldsAppend(a: seq<bytes>, b: seq<bytes>)
    ensures Fields(a + b) == Fields(a) + Fields(b)
  {
    if a == [] {
      assert a + b == b;
    } else {
      assert (a + b)[0] == a[0] && (a + b)[1..] == a[1..] + b;
      FieldsAppend(a[1..], b);
      Associative(Field(a[0]), Fields(a[1..]), Fields(b));
    }
  }

  lemma Associative(a: bytes, b: bytes, c: bytes)
    ensures (a + b) + c == a + (b + c)
  {}
}
