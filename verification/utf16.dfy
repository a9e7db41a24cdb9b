/** Strict UTF-16LE (section 3.10 of the Unicode Standard, D91 and D97): Unicode scalar values to
    code units and bytes, and back. */
module Utf16 {
  import opened Orders
  import opened Utf8

  type Unit = u: int | 0 <= u < 0x10000

  function EncodePoint16(c: CodePoint): seq<Unit> {
    var n: int := c;
    if n < 0x10000 then [n] else [0xD800 + (n - 0x10000) / 0x400, 0xDC00 + (n - 0x10000) % 0x400]
  }

  function EncodeUnits(s: Text): seq<Unit> {
    if s == [] then [] else EncodePoint16(s[0]) + EncodeUnits(s[1..])
  }

  /** The scalar values; a surrogate that is not one half of a pair is refused. */
  function DecodeUnits(us: seq<Unit>): Option<Text> {
    if us == [] then Some([])
    else
      var n: int := us[0];
      if n < 0xD800 || 0xE000 <= n then
        match DecodeUnits(us[1..])
        case None => None
        case Some(rest) => Some([n] + rest)
      else if n < 0xDC00 && |us| >= 2 && 0xDC00 <= us[1] < 0xE000 then
        match DecodeUnits(us[2..])
        case None => None
        case Some(rest) => Some([Paired(n, us[1])] + rest)
      else None
  }

  function Paired(high: int, low: int): CodePoint
    requires 0xD800 <= high < 0xDC00 && 0xDC00 <= low < 0xE000
  {
    0x10000 + (high - 0xD800) * 0x400 + (low - 0xDC00)
  }

  /** Two bytes, least significant first. */
  function UnitAt(low: Byte, high: Byte): Unit {
    var l: int, h: int := low, high;
    l + 256 * h
  }

  function LowByte(u: Unit): Byte {
    var n: int := u;
    n % 256
  }

  function HighByte(u: Unit): Byte {
    var n: int := u;
    n / 256
  }

  /** The code units of an even number of bytes. */
  function UnitsOf(d: Bytes): (us: seq<Unit>)
    requires |d| % 2 == 0
    ensures |us| * 2 == |d|
  {
    if d == [] then [] else [UnitAt(d[0], d[1])] + UnitsOf(d[2..])
  }

  function BytesOf(us: seq<Unit>): (d: Bytes)
    ensures |d| == 2 * |us|
  {
    if us == [] then [] else [LowByte(us[0]), HighByte(us[0])] + BytesOf(us[1..])
  }

  /** `text.encode("utf-16le")`. */
  function Encode16(s: Text): (d: Bytes)
    ensures |d| % 2 == 0
  {
    BytesOf(EncodeUnits(s))
  }

  /** `raw.decode("utf-16le", errors="strict")`. */
  function Decode16(d: Bytes): Option<Text> {
    if |d| % 2 != 0 then None else DecodeUnits(UnitsOf(d))
  }

  /** One scalar value: two bytes with the least significant first, or a high and a low surrogate. */
  lemma {:induction false} PointLayout16(c: CodePoint)
    ensures var d := Encode16([c]);
      if c < 0x10000 then |d| == 2 && c == Num(d[0]) + 0x100 * Num(d[1])
      else
        && |d| == 4 && 0xD8 <= d[1] < 0xDC && 0xDC <= d[3] < 0xE0
        && c == 0x10000 + (Num(d[0]) + 0x100 * Num(d[1]) - 0xD800) * 0x400 + (Num(d[2]) + 0x100 * Num(d[3]) - 0xDC00)
  {
    assert [c][1..] == [];
    var us := EncodePoint16(c);
    assert EncodeUnits([c]) == us + [];
    assert us + [] == us;
    if c < 0x10000 {
      assert us[1..] == [];
    } else {
      assert us[1..][1..] == [];
      var n: int := c;
      var high, low := (n - 0x10000) / 0x400, (n - 0x10000) % 0x400;
      assert n - 0x10000 == high * 0x400 + low;
      UnitWritten(us[0]);
      UnitWritten(us[1]);
      assert BytesOf(us) == [LowByte(us[0]), HighByte(us[0]), LowByte(us[1]), HighByte(us[1])];
    }
  }

  lemma {:induction false} UnitWritten(u: Unit)
    ensures u == Num(LowByte(u)) + 0x100 * Num(HighByte(u))
  {
  }

  lemma {:induction false} DecodeEncodedUnits(s: Text)
    ensures DecodeUnits(EncodeUnits(s)) == Some(s)
  {
    if s != [] {
      DecodeEncodedUnits(s[1..]);
      var us, rest := EncodeUnits(s), EncodeUnits(s[1..]);
      assert s == [s[0]] + s[1..];
      if s[0] < 0x10000 {
        assert us[1..] == rest;
      } else {
        assert us[2..] == rest;
        assert Paired(us[0], us[1]) == s[0];
      }
    }
  }

  lemma {:induction false} EncodeDecodedUnits(us: seq<Unit>)
    requires DecodeUnits(us).Some?
    ensures EncodeUnits(DecodeUnits(us).value) == us
  {
    if us != [] {
      var s := DecodeUnits(us).value;
      if us[0] < 0xD800 || 0xE000 <= us[0] {
        EncodeDecodedUnits(us[1..]);
        assert s[1..] == DecodeUnits(us[1..]).value;
        assert us == [us[0]] + us[1..];
      } else {
        EncodeDecodedUnits(us[2..]);
        assert s[1..] == DecodeUnits(us[2..]).value;
        PairSplit(us[0], us[1]);
        assert us == [us[0], us[1]] + us[2..];
      }
    }
  }

  lemma {:induction false} PairSplit(high: Unit, low: Unit)
    requires 0xD800 <= high < 0xDC00 && 0xDC00 <= low < 0xE000
    ensures EncodePoint16(Paired(high, low)) == [high, low]
  {
    var h: int, l: int := high, low;
    var n := (h - 0xD800) * 0x400 + (l - 0xDC00);
    assert n / 0x400 == h - 0xD800 && n % 0x400 == l - 0xDC00;
  }

  lemma {:induction false} UnitsOfBytes(us: seq<Unit>)
    ensures UnitsOf(BytesOf(us)) == us
  {
    if us != [] {
      UnitsOfBytes(us[1..]);
      assert BytesOf(us)[2..] == BytesOf(us[1..]);
      assert us == [us[0]] + us[1..];
    }
  }

  lemma {:induction false} BytesOfUnits(d: Bytes)
    requires |d| % 2 == 0
    ensures BytesOf(UnitsOf(d)) == d
  {
    if d != [] {
      BytesOfUnits(d[2..]);
      assert UnitsOf(d)[1..] == UnitsOf(d[2..]);
      assert d == [d[0], d[1]] + d[2..];
    }
  }

  lemma {:induction false} UnitBytes(low: Byte, high: Byte)
    ensures LowByte(UnitAt(low, high)) == low && HighByte(UnitAt(low, high)) == high
  {
  }

  lemma {:induction false} UnitsAt(d: Bytes, i: nat)
    requires |d| % 2 == 0 && 2 * i < |d|
    ensures i < |UnitsOf(d)| && UnitsOf(d)[i] == UnitAt(d[2 * i], d[2 * i + 1])
  {
    if i > 0 {
      UnitsAt(d[2..], i - 1);
    }
  }

  lemma {:induction false} BytesSnoc(us: seq<Unit>, u: Unit)
    ensures BytesOf(us + [u]) == BytesOf(us) + [LowByte(u), HighByte(u)]
  {
    if us == [] {
      assert (us + [u])[1..] == [];
    } else {
      BytesSnoc(us[1..], u);
      assert (us + [u])[1..] == us[1..] + [u];
    }
  }

  lemma {:induction false} BytesAt(us: seq<Unit>, i: nat)
    requires i < |us|
    ensures BytesOf(us)[2 * i] == LowByte(us[i]) && BytesOf(us)[2 * i + 1] == HighByte(us[i])
  {
    if i > 0 {
      BytesAt(us[1..], i - 1);
    }
  }

  /** A run of units is a run of the bytes. */
  lemma {:induction false} BytesSlice(d: Bytes, a: nat, b: nat)
    requires |d| % 2 == 0 && a <= b && 2 * b <= |d|
    ensures BytesOf(UnitsOf(d)[a..b]) == d[2 * a..2 * b]
  {
    hide BytesOf, UnitsOf, LowByte, HighByte;
    var us, r := UnitsOf(d)[a..b], BytesOf(UnitsOf(d)[a..b]);
    BytesOfUnits(d);
    forall i | 0 <= i < |r| ensures r[i] == d[2 * a + i] {
      BytesAt(us, i / 2);
      BytesAt(UnitsOf(d), a + i / 2);
    }
  }

  /** Decoding undoes encoding, and accepts nothing but encodings. */
  lemma {:induction false} Decode16Inverse(d: Bytes, s: Text)
    ensures Decode16(d) == Some(s) <==> d == Encode16(s)
  {
    hide DecodeUnits, EncodeUnits, UnitsOf, BytesOf;
    if d == Encode16(s) {
      UnitsOfBytes(EncodeUnits(s));
      DecodeEncodedUnits(s);
    }
    if Decode16(d) == Some(s) {
      EncodeDecodedUnits(UnitsOf(d));
      BytesOfUnits(d);
    }
  }
}
