/** Strict UTF-8 (section 3 of RFC 3629): Unicode scalar values to bytes and back. */
module Utf8 {
  import opened Orders

  type Byte = b: int | 0 <= b < 256
  type CodePoint = c: int | 0 <= c < 0xD800 || 0xE000 <= c < 0x110000
  type Text = seq<CodePoint>
  type Bytes = seq<Byte>

  function Num(b: Byte): (n: int)
    ensures 0 <= n < 256
  {
    b
  }

  function EncodePoint(c: CodePoint): Bytes {
    if c < 0x80 then [c]
    else if c < 0x800 then [0xC0 + c / 64, 0x80 + c % 64]
    else if c < 0x10000 then [0xE0 + c / 4096, 0x80 + c / 64 % 64, 0x80 + c % 64]
    else [0xF0 + c / 262144, 0x80 + c / 4096 % 64, 0x80 + c / 64 % 64, 0x80 + c % 64]
  }

  function Encode(s: Text): Bytes {
    if s == [] then [] else EncodePoint(s[0]) + Encode(s[1..])
  }

  predicate Continuation(b: Byte) {
    0x80 <= b < 0xC0
  }

  function Above(b: Byte, base: int): int {
    var value: int := b;
    value - base
  }

  function Bits(b: Byte): int {
    Above(b, 0x80)
  }

  /** The first scalar value of a byte string and how many bytes it takes. Overlong forms,
      surrogates and values past U+10FFFF are refused. */
  function DecodePoint(d: Bytes): (r: Option<(CodePoint, nat)>)
    ensures r.Some? ==> 0 < r.value.1 <= |d|
  {
    if d == [] then None
    else if d[0] < 0x80 then Some((d[0], 1))
    else if 0xC2 <= d[0] < 0xE0 && |d| >= 2 && Continuation(d[1]) then
      Some((Above(d[0], 0xC0) * 64 + Bits(d[1]), 2))
    else if 0xE0 <= d[0] < 0xF0 && |d| >= 3 && Continuation(d[1]) && Continuation(d[2]) then
      var c := Above(d[0], 0xE0) * 4096 + Bits(d[1]) * 64 + Bits(d[2]);
      if c < 0x800 || 0xD800 <= c < 0xE000 then None else Some((c, 3))
    else if 0xF0 <= d[0] < 0xF8 && |d| >= 4 && Continuation(d[1]) && Continuation(d[2]) && Continuation(d[3]) then
      var c := Above(d[0], 0xF0) * 262144 + Bits(d[1]) * 4096 + Bits(d[2]) * 64 + Bits(d[3]);
      if c < 0x10000 || 0x110000 <= c then None else Some((c, 4))
    else None
  }

  function Decode(d: Bytes): Option<Text> {
    if d == [] then Some([])
    else match DecodePoint(d)
      case None => None
      case Some((c, n)) =>
        match Decode(d[n..])
        case None => None
        case Some(rest) => Some([c] + rest)
  }

  lemma {:induction false} DecodeEncodedPoint(c: CodePoint, rest: Bytes)
    ensures DecodePoint(EncodePoint(c) + rest) == Some((c, |EncodePoint(c)|))
  {
    var d := EncodePoint(c) + rest;
    if 0x800 <= c < 0x10000 {
      assert c / 64 == c / 4096 * 64 + c / 64 % 64;
    } else if c >= 0x10000 {
      assert c / 64 == c / 4096 * 64 + c / 64 % 64;
      assert c / 4096 == c / 262144 * 64 + c / 4096 % 64;
    }
  }

  /** The bytes of a scalar value: its bits in groups of six behind the marks of RFC 3629, in the
      fewest bytes that hold them. */
  lemma {:induction false} PointLayout(c: CodePoint)
    ensures var e := EncodePoint(c); var n := |e|;
      && 1 <= n <= 4 && (n == 1 <==> c < 0x80) && (n <= 2 <==> c < 0x800) && (n <= 3 <==> c < 0x10000)
      && (forall i :: 1 <= i < n ==> 0x80 <= e[i] < 0xC0)
      && match n
         case 1 => c == e[0]
         case 2 => 0xC2 <= e[0] < 0xE0 && c == (Num(e[0]) - 0xC0) * 0x40 + (Num(e[1]) - 0x80)
         case 3 => 0xE0 <= e[0] < 0xF0 && c == ((Num(e[0]) - 0xE0) * 0x40 + (Num(e[1]) - 0x80)) * 0x40 + (Num(e[2]) - 0x80)
         case _ =>
           (0xF0 <= e[0] < 0xF5
            && c == (((Num(e[0]) - 0xF0) * 0x40 + (Num(e[1]) - 0x80)) * 0x40 + (Num(e[2]) - 0x80)) * 0x40 + (Num(e[3]) - 0x80))
  {
    if 0x800 <= c < 0x10000 {
      assert c / 64 == c / 4096 * 64 + c / 64 % 64;
    } else if c >= 0x10000 {
      assert c / 64 == c / 4096 * 64 + c / 64 % 64;
      assert c / 4096 == c / 262144 * 64 + c / 4096 % 64;
    }
  }

  lemma {:induction false} DecodeEncode(s: Text)
    ensures Decode(Encode(s)) == Some(s)
  {
    if s != [] {
      var e, rest := EncodePoint(s[0]), Encode(s[1..]);
      DecodeEncodedPoint(s[0], rest);
      assert (e + rest)[|e|..] == rest;
      DecodeEncode(s[1..]);
      assert s == [s[0]] + s[1..];
    }
  }

  lemma {:induction false} EncodeInjective(s: Text, t: Text)
    requires Encode(s) == Encode(t)
    ensures s == t
  {
    DecodeEncode(s);
    DecodeEncode(t);
  }
}
