/** Unpadded base64url as paths are stored (kernel/paths.py, `_b64encode`, `_b64decode`;
    section 5 of RFC 4648). */
module Base64Url {
  import opened Orders
  import opened Utf8

  type Sextet = n: int | 0 <= n < 64

  /** The character for six bits. */
  function Char(n: Sextet): (c: CodePoint)
    ensures 0 < c < 0x80 && c != 61
  {
    if n < 26 then 65 + n
    else if n < 52 then 71 + n
    else if n < 62 then n - 4
    else if n == 62 then 45
    else 95
  }

  /** What the library decoder takes a character for: it also knows the ordinary alphabet. */
  function Value(c: CodePoint): (r: Option<Sextet>) {
    if 65 <= c < 91 then Some(Below(c, 65))
    else if 97 <= c < 123 then Some(Below(c, 71))
    else if 48 <= c < 58 then Some(Above(c, 4))
    else if c == 45 || c == 43 then Some(62)
    else if c == 95 || c == 47 then Some(63)
    else None
  }

  function Below(c: CodePoint, base: int): int {
    var n: int := c;
    n - base
  }

  function Above(c: CodePoint, base: int): int {
    var n: int := c;
    n + base
  }

  /** Groups of three bytes become four sextets; one or two bytes left become two or three. */
  function Sextets(d: Bytes): (s: seq<Sextet>)
    ensures |s| % 4 != 1 && (d == [] <==> s == [])
  {
    if d == [] then []
    else if |d| == 1 then [Num(d[0]) / 4, Num(d[0]) % 4 * 16]
    else if |d| == 2 then [Num(d[0]) / 4, Num(d[0]) % 4 * 16 + Num(d[1]) / 16, Num(d[1]) % 16 * 4]
    else
      [Num(d[0]) / 4, Num(d[0]) % 4 * 16 + Num(d[1]) / 16, Num(d[1]) % 16 * 4 + Num(d[2]) / 64, Num(d[2]) % 64]
      + Sextets(d[3..])
  }

  /** The bytes of a list of sextets; bits left over at the end are dropped. */
  function Unpack(s: seq<Sextet>): (d: Bytes)
    requires |s| % 4 != 1
  {
    if |s| < 2 then []
    else if |s| == 2 then [First(s[0], s[1])]
    else if |s| == 3 then [First(s[0], s[1]), Second(s[1], s[2])]
    else [First(s[0], s[1]), Second(s[1], s[2]), Third(s[2], s[3])] + Unpack(s[4..])
  }

  function First(a: Sextet, b: Sextet): Byte {
    var x: int, y: int := a, b;
    x * 4 + y / 16
  }

  function Second(b: Sextet, c: Sextet): Byte {
    var x: int, y: int := b, c;
    x % 16 * 16 + y / 4
  }

  function Third(c: Sextet, d: Sextet): Byte {
    var x: int, y: int := c, d;
    x % 4 * 64 + y
  }

  function Characters(s: seq<Sextet>): (t: Text)
    ensures |t| == |s|
  {
    seq(|s|, i requires 0 <= i < |s| => Char(s[i]))
  }

  /** `_b64encode`. */
  function Encode64(d: Bytes): (t: Text)
    ensures d == [] <==> t == []
  {
    Characters(Sextets(d))
  }

  datatype PathError = CanonicalJSONError

  function Values(t: Text): (r: Option<seq<Sextet>>)
    ensures r.Some? ==> |r.value| == |t|
  {
    if t == [] then Some([])
    else
      match Value(t[0])
      case None => None
      case Some(n) =>
        match Values(t[1..])
        case None => None
        case Some(rest) => Some([n] + rest)
  }

  /** `_b64decode`: decode leniently, then insist that encoding gives the text back. */
  function Decode64(t: Text): (r: Result<Bytes, PathError>)
    ensures r.Ok? ==> t != []
  {
    if t == [] || 61 in t then Err(CanonicalJSONError)
    else
      match Values(t)
      case None => Err(CanonicalJSONError)
      case Some(s) =>
        if |s| % 4 == 1 then Err(CanonicalJSONError)
        else if Encode64(Unpack(s)) != t then Err(CanonicalJSONError)
        else Ok(Unpack(s))
  }

  lemma {:induction false} ByteOfSextets(a: Byte, b: Byte, c: Byte)
    ensures First(Num(a) / 4, Num(a) % 4 * 16 + Num(b) / 16) == a
    ensures Second(Num(a) % 4 * 16 + Num(b) / 16, Num(b) % 16 * 4 + Num(c) / 64) == b
    ensures Third(Num(b) % 16 * 4 + Num(c) / 64, Num(c) % 64) == c
    ensures First(Num(a) / 4, Num(a) % 4 * 16) == a
    ensures Second(Num(a) % 4 * 16 + Num(b) / 16, Num(b) % 16 * 4) == b
  {
  }

  /** The alphabet: capital and small letters, digits, minus and underscore, in this order. */
  lemma {:induction false} Alphabet(n: Sextet)
    ensures Char(n) ==
      if n < 26 then 'A' as int + n
      else if n < 52 then 'a' as int + (n - 26)
      else if n < 62 then '0' as int + (n - 52)
      else if n == 62 then '-' as int else '_' as int
  {
  }

  function Six(n: Sextet): int {
    n
  }

  /** Three bytes and their four sextets are the same number, most significant first; after the last
      whole group the missing bits are zeros. */
  lemma {:induction false} GroupBits(d: Bytes)
    requires d != []
    ensures var s := Sextets(d);
      match |d|
      case 1 => |s| == 2 && Six(s[0]) * 64 + Six(s[1]) == Num(d[0]) * 16
      case 2 => |s| == 3 && (Six(s[0]) * 64 + Six(s[1])) * 64 + Six(s[2]) == (Num(d[0]) * 256 + Num(d[1])) * 4
      case _ =>
        (|s| >= 4 && s[4..] == Sextets(d[3..])
         && ((Six(s[0]) * 64 + Six(s[1])) * 64 + Six(s[2])) * 64 + Six(s[3])
              == (Num(d[0]) * 256 + Num(d[1])) * 256 + Num(d[2]))
  {
    if |d| >= 3 {
      var a: int, b: int, c: int := d[0], d[1], d[2];
      assert a == a / 4 * 4 + a % 4 && b == b / 16 * 16 + b % 16 && c == c / 64 * 64 + c % 64;
    }
  }

  lemma {:induction false} UnpackGroup(a: Sextet, b: Sextet, c: Sextet, d: Sextet, rest: seq<Sextet>)
    requires |rest| % 4 != 1
    ensures Unpack([a, b, c, d] + rest) == [First(a, b), Second(b, c), Third(c, d)] + Unpack(rest)
  {
    hide First, Second, Third;
    assert ([a, b, c, d] + rest)[4..] == rest;
  }

  lemma {:induction false} UnpackSextets(d: Bytes)
    ensures Unpack(Sextets(d)) == d
  {
    hide First, Second, Third, Num;
    if d == [] {
    } else if |d| == 1 {
      ByteOfSextets(d[0], 0, 0);
    } else if |d| == 2 {
      ByteOfSextets(d[0], d[1], 0);
    } else {
      hide Unpack;
      ByteOfSextets(d[0], d[1], d[2]);
      UnpackSextets(d[3..]);
      UnpackGroup(Num(d[0]) / 4, Num(d[0]) % 4 * 16 + Num(d[1]) / 16, Num(d[1]) % 16 * 4 + Num(d[2]) / 64, Num(d[2]) % 64,
                  Sextets(d[3..]));
      assert d == [d[0], d[1], d[2]] + d[3..];
    }
  }

  lemma {:induction false} ValueOfChar(n: Sextet)
    ensures Value(Char(n)) == Some(n)
  {
  }

  lemma {:induction false} ValuesOfCharacters(s: seq<Sextet>)
    ensures Values(Characters(s)) == Some(s)
  {
    if s != [] {
      ValueOfChar(s[0]);
      assert Characters(s)[1..] == Characters(s[1..]);
      ValuesOfCharacters(s[1..]);
      assert s == [s[0]] + s[1..];
    }
  }

  /** Decoding accepts exactly the encodings of nonempty byte strings, and gives the bytes back. */
  lemma {:induction false} Decode64Inverse(t: Text, d: Bytes)
    ensures Decode64(t) == Ok(d) <==> d != [] && t == Encode64(d)
  {
    hide Char, Value, Sextets, Unpack, Values;
    if d != [] && t == Encode64(d) {
      ValuesOfCharacters(Sextets(d));
      UnpackSextets(d);
    }
  }
}
