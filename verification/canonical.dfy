/** CanonicalJSON/v1 (kernel/canonical.py): normalisation, the one canonical printing, and the
    strict loader (JSON grammar: sections 2 to 7 of RFC 8259). */
module Canonical {
  import opened Orders
  import opened Utf8

  /** A Python JSON value. An object lists its members in insertion order; Float stands for
      any number with a fraction or an exponent. */
  datatype Json =
    | Null
    | Boolean(b: bool)
    | Integer(i: int)
    | Float(text: Text)
    | Str(s: Text)
    | Arr(items: seq<Json>)
    | Obj(members: seq<Member>)
  datatype Member = Member(key: Text, value: Json)

  datatype JsonError =
    | ControlCharacter | FloatingPoint | KeyCollision
    | BadUtf8 | Syntax | NonFinite | DuplicateKey | NotObject | NotCanonical

  type Parsed<T> = Result<(T, Text), JsonError>

  // ----- Unicode NFC, an unspecified function with the two properties relied on -----

  predicate NoControl(s: Text) {
    forall i :: 0 <= i < |s| ==> s[i] >= 0x20
  }

  ghost predicate NfcLaws(nfc: Text -> Text) {
    && (forall s :: nfc(nfc(s)) == nfc(s))
    && (forall s :: NoControl(s) ==> NoControl(nfc(s)))
  }

  // ----- normalisation -----

  function NormalizeString(nfc: Text -> Text, s: Text): Result<Text, JsonError> {
    if NoControl(s) then Ok(nfc(s)) else Err(ControlCharacter)
  }

  predicate HasKey(ms: seq<Member>, key: Text) {
    exists i :: 0 <= i < |ms| && ms[i].key == key
  }

  /** `_normalize`; lists and dictionaries are filled from left to right. */
  function Normalize(nfc: Text -> Text, v: Json): Result<Json, JsonError>
    decreases v, 1
  {
    match v
    case Null => Ok(v)
    case Boolean(_) => Ok(v)
    case Integer(_) => Ok(v)
    case Float(_) => Err(FloatingPoint)
    case Str(s) =>
      (match NormalizeString(nfc, s)
       case Ok(t) => Ok(Str(t))
       case Err(e) => Err(e))
    case Arr(items) =>
      (match NormalizeItems(nfc, items)
       case Ok(ns) => Ok(Arr(ns))
       case Err(e) => Err(e))
    case Obj(members) =>
      (match NormalizeMembers(nfc, members)
       case Ok(ns) => Ok(Obj(ns))
       case Err(e) => Err(e))
  }

  function NormalizeItems(nfc: Text -> Text, items: seq<Json>): (r: Result<seq<Json>, JsonError>)
    ensures r.Ok? ==> |r.value| == |items|
    decreases items, 0
  {
    if items == [] then Ok([])
    else
      var n := |items| - 1;
      match NormalizeItems(nfc, items[..n])
      case Err(e) => Err(e)
      case Ok(before) =>
        match Normalize(nfc, items[n])
        case Err(e) => Err(e)
        case Ok(item) => Ok(before + [item])
  }

  function NormalizeMembers(nfc: Text -> Text, members: seq<Member>): (r: Result<seq<Member>, JsonError>)
    ensures r.Ok? ==> |r.value| == |members|
    decreases members, 0
  {
    if members == [] then Ok([])
    else
      var n := |members| - 1;
      match NormalizeMembers(nfc, members[..n])
      case Err(e) => Err(e)
      case Ok(before) =>
        match NormalizeString(nfc, members[n].key)
        case Err(e) => Err(e)
        case Ok(key) =>
          if HasKey(before, key) then Err(KeyCollision)
          else
            match Normalize(nfc, members[n].value)
            case Err(e) => Err(e)
            case Ok(value) => Ok(before + [Member(key, value)])
  }

  // ----- printing -----

  function InsertMember(m: Member, ms: seq<Member>): (r: seq<Member>)
    ensures |r| == |ms| + 1
  {
    if ms == [] || LexLe(m.key, ms[0].key) then [m] + ms
    else [ms[0]] + InsertMember(m, ms[1..])
  }

  function SortMembers(ms: seq<Member>): (r: seq<Member>)
    ensures |r| == |ms|
  {
    if ms == [] then [] else InsertMember(ms[0], SortMembers(ms[1..]))
  }

  /** The value with the members of every object in key order, as `sort_keys` prints it. */
  function SortKeys(v: Json): Json
    decreases v, 1
  {
    match v
    case Arr(items) => Arr(SortItems(items))
    case Obj(members) => Obj(SortMembers(SortValues(members)))
    case _ => v
  }

  function SortItems(items: seq<Json>): (r: seq<Json>)
    ensures |r| == |items|
    decreases items, 0
  {
    if items == [] then [] else [SortKeys(items[0])] + SortItems(items[1..])
  }

  function SortValues(members: seq<Member>): (r: seq<Member>)
    ensures |r| == |members|
    ensures forall i :: 0 <= i < |r| ==> r[i].key == members[i].key
    decreases members, 0
  {
    if members == [] then []
    else [Member(members[0].key, SortKeys(members[0].value))] + SortValues(members[1..])
  }

  function Digits(n: nat): (r: Text)
    ensures r != []
  {
    if n < 10 then [48 + n] else Digits(n / 10) + [48 + n % 10]
  }

  function IntegerText(i: int): (r: Text)
    ensures r != []
  {
    if i < 0 then [45] + Digits(-i) else Digits(i)
  }

  /** The body of a string literal: only the quote and the backslash need escaping, because
      a normalised string has no control characters. */
  function Escaped(s: Text): Text {
    if s == [] then []
    else (if s[0] == 34 || s[0] == 92 then [92, s[0]] else [s[0]]) + Escaped(s[1..])
  }

  function Quoted(s: Text): Text {
    [34] + Escaped(s) + [34]
  }

  const NULL_TEXT: Text := [110, 117, 108, 108]
  const TRUE_TEXT: Text := [116, 114, 117, 101]
  const FALSE_TEXT: Text := [102, 97, 108, 115, 101]

  function Dump(v: Json): Text
    decreases v, 1
  {
    match v
    case Null => NULL_TEXT
    case Boolean(b) => if b then TRUE_TEXT else FALSE_TEXT
    case Integer(i) => IntegerText(i)
    case Float(text) => text
    case Str(s) => Quoted(s)
    case Arr(items) => [91] + DumpItems(items) + [93]
    case Obj(members) => [123] + DumpMembers(members) + [125]
  }

  function DumpItems(items: seq<Json>): Text
    decreases items, 0
  {
    if items == [] then []
    else if |items| == 1 then Dump(items[0])
    else Dump(items[0]) + [44] + DumpItems(items[1..])
  }

  function DumpMember(m: Member): Text
    decreases m, 2
  {
    Quoted(m.key) + [58] + Dump(m.value)
  }

  function DumpMembers(members: seq<Member>): Text
    decreases members, 0
  {
    if members == [] then []
    else if |members| == 1 then DumpMember(members[0])
    else DumpMember(members[0]) + [44] + DumpMembers(members[1..])
  }

  /** `canonical_bytes`. */
  function CanonicalBytes(nfc: Text -> Text, v: Json): Result<Bytes, JsonError> {
    match Normalize(nfc, v)
    case Err(e) => Err(e)
    case Ok(n) => Ok(Encode(Dump(SortKeys(n))))
  }

  // ----- parsing -----

  predicate IsDigit(c: int) { 48 <= c < 58 }

  predicate IsSpace(c: int) { c == 32 || c == 9 || c == 10 || c == 13 }

  function SkipSpace(s: Text): (r: Text)
    ensures |r| <= |s|
  {
    if s != [] && IsSpace(s[0]) then SkipSpace(s[1..]) else s
  }

  predicate StartsWith(s: Text, p: Text) {
    |p| <= |s| && s[..|p|] == p
  }

  /** How many digits a text starts with. */
  function DigitSpan(s: Text): (n: nat)
    ensures n <= |s|
  {
    if s != [] && IsDigit(s[0]) then 1 + DigitSpan(s[1..]) else 0
  }

  function Value(ds: Text): int {
    if ds == [] then 0 else Value(ds[..|ds| - 1]) * 10 + Above(ds[|ds| - 1])
  }

  function Above(c: CodePoint): int {
    var value: int := c;
    value - 48
  }

  /** Length of a fraction part, or 0. */
  function FractionSpan(s: Text): (n: nat)
    ensures n <= |s|
  {
    if s != [] && s[0] == 46 && DigitSpan(s[1..]) > 0 then 1 + DigitSpan(s[1..]) else 0
  }

  /** Length of an exponent part, or 0. */
  function ExponentSpan(s: Text): (n: nat)
    ensures n <= |s|
  {
    if s != [] && (s[0] == 101 || s[0] == 69) then
      var sign := if |s| > 1 && (s[1] == 43 || s[1] == 45) then 1 else 0;
      if DigitSpan(s[1 + sign..]) > 0 then 1 + sign + DigitSpan(s[1 + sign..]) else 0
    else 0
  }

  /** The integer part: an optional sign, then a zero or digits not starting with zero. */
  function IntegerSpan(s: Text): (n: nat)
    ensures n <= |s|
  {
    var sign := if s != [] && s[0] == 45 then 1 else 0;
    var digits := s[sign..];
    if digits == [] || !IsDigit(digits[0]) then 0
    else if digits[0] == 48 then sign + 1
    else sign + DigitSpan(digits)
  }

  function IntegerValue(s: Text): int {
    if s != [] && s[0] == 45 then -Value(s[1..]) else Value(s)
  }

  function ParseNumber(s: Text): (r: Parsed<Json>)
    ensures r.Ok? ==> |r.value.1| < |s|
  {
    var n := IntegerSpan(s);
    if n == 0 then Err(Syntax)
    else
      var f := FractionSpan(s[n..]);
      var e := ExponentSpan(s[n + f..]);
      if f + e == 0 then Ok((Integer(IntegerValue(s[..n])), s[n..]))
      else Ok((Float(s[..n + f + e]), s[n + f + e..]))
  }

  function HexDigit(c: int): Option<int> {
    if 48 <= c < 58 then Some(c - 48)
    else if 97 <= c < 103 then Some(c - 87)
    else if 65 <= c < 71 then Some(c - 55)
    else None
  }

  /** Four hexadecimal digits. */
  function Hex4(s: Text): (r: Option<int>)
    ensures r.Some? ==> |s| >= 4 && 0 <= r.value < 0x10000
  {
    if |s| < 4 then None
    else
      match (HexDigit(s[0]), HexDigit(s[1]), HexDigit(s[2]), HexDigit(s[3]))
      case (Some(a), Some(b), Some(c), Some(d)) => Some(a * 4096 + b * 256 + c * 16 + d)
      case _ => None
  }

  /** What follows a backslash: the character meant and the length of the escape. Lone
      surrogates have no canonical form and are refused here. */
  function ParseEscape(s: Text): (r: Option<(CodePoint, nat)>)
    ensures r.Some? ==> 0 < r.value.1 <= |s|
  {
    if s == [] then None
    else if s[0] == 34 || s[0] == 92 || s[0] == 47 then Some((s[0], 1))
    else if s[0] == 98 then Some((8, 1))
    else if s[0] == 102 then Some((12, 1))
    else if s[0] == 110 then Some((10, 1))
    else if s[0] == 114 then Some((13, 1))
    else if s[0] == 116 then Some((9, 1))
    else if s[0] == 117 then
      match Hex4(s[1..])
      case None => None
      case Some(high) =>
        if !(0xD800 <= high < 0xE000) then Some((high, 5))
        else if high < 0xDC00 && StartsWith(s[5..], [92, 117]) then
          match Hex4(s[7..])
          case None => None
          case Some(low) =>
            if 0xDC00 <= low < 0xE000 then Some((0x10000 + (high - 0xD800) * 1024 + (low - 0xDC00), 11)) else None
        else None
    else None
  }

  /** The rest of a string literal after its opening quote. */
  function ParseString(s: Text): (r: Parsed<Text>)
    ensures r.Ok? ==> |r.value.1| < |s|
    decreases |s|
  {
    if s == [] || s[0] < 0x20 then Err(Syntax)
    else if s[0] == 34 then Ok(([], s[1..]))
    else if s[0] == 92 then
      match ParseEscape(s[1..])
      case None => Err(Syntax)
      case Some((c, n)) =>
        (match ParseString(s[1 + n..])
         case Err(e) => Err(e)
         case Ok((t, rest)) => Ok(([c] + t, rest)))
    else
      match ParseString(s[1..])
      case Err(e) => Err(e)
      case Ok((t, rest)) => Ok(([s[0]] + t, rest))
  }

  /** `_unique_object`. */
  predicate UniqueKeys(ms: seq<Member>) {
    forall i, j :: 0 <= i < j < |ms| ==> ms[i].key != ms[j].key
  }

  function ParseValue(s: Text): (r: Parsed<Json>)
    ensures r.Ok? ==> |r.value.1| < |s|
    decreases |s|, 0
  {
    if s == [] then Err(Syntax)
    else if s[0] == 34 then
      match ParseString(s[1..])
      case Err(e) => Err(e)
      case Ok((t, rest)) => Ok((Str(t), rest))
    else if s[0] == 123 then
      var body := SkipSpace(s[1..]);
      if body != [] && body[0] == 125 then Ok((Obj([]), body[1..]))
      else
        match ParseMembers(body)
        case Err(e) => Err(e)
        case Ok((ms, rest)) => if UniqueKeys(ms) then Ok((Obj(ms), rest)) else Err(DuplicateKey)
    else if s[0] == 91 then
      var body := SkipSpace(s[1..]);
      if body != [] && body[0] == 93 then Ok((Arr([]), body[1..]))
      else
        match ParseItems(body)
        case Err(e) => Err(e)
        case Ok((items, rest)) => Ok((Arr(items), rest))
    else if StartsWith(s, NULL_TEXT) then Ok((Null, s[4..]))
    else if StartsWith(s, TRUE_TEXT) then Ok((Boolean(true), s[4..]))
    else if StartsWith(s, FALSE_TEXT) then Ok((Boolean(false), s[5..]))
    else if StartsWith(s, [78, 97, 78])
         || StartsWith(s, [73, 110, 102, 105, 110, 105, 116, 121])
         || StartsWith(s, [45, 73, 110, 102, 105, 110, 105, 116, 121]) then Err(NonFinite)
    else ParseNumber(s)
  }

  /** The items of an array from the first one to the closing bracket. */
  function ParseItems(s: Text): (r: Parsed<seq<Json>>)
    ensures r.Ok? ==> |r.value.1| < |s|
    decreases |s|, 1
  {
    match ParseValue(s)
    case Err(e) => Err(e)
    case Ok((item, after)) =>
      var next := SkipSpace(after);
      if next != [] && next[0] == 93 then Ok(([item], next[1..]))
      else if next != [] && next[0] == 44 then
        match ParseItems(SkipSpace(next[1..]))
        case Err(e) => Err(e)
        case Ok((items, rest)) => Ok(([item] + items, rest))
      else Err(Syntax)
  }

  /** One member: a key, a colon, a value. */
  function ParseMember(s: Text): (r: Parsed<Member>)
    ensures r.Ok? ==> |r.value.1| < |s|
    decreases |s|, 1
  {
    if s == [] || s[0] != 34 then Err(Syntax)
    else
      match ParseString(s[1..])
      case Err(e) => Err(e)
      case Ok((key, after)) =>
        var colon := SkipSpace(after);
        if colon == [] || colon[0] != 58 then Err(Syntax)
        else
          match ParseValue(SkipSpace(colon[1..]))
          case Err(e) => Err(e)
          case Ok((value, rest)) => Ok((Member(key, value), rest))
  }

  /** The members of an object from the first one to the closing brace. */
  function ParseMembers(s: Text): (r: Parsed<seq<Member>>)
    ensures r.Ok? ==> |r.value.1| < |s|
    decreases |s|, 2
  {
    match ParseMember(s)
    case Err(e) => Err(e)
    case Ok((member, after)) =>
      var next := SkipSpace(after);
      if next != [] && next[0] == 125 then Ok(([member], next[1..]))
      else if next != [] && next[0] == 44 then
        match ParseMembers(SkipSpace(next[1..]))
        case Err(e) => Err(e)
        case Ok((members, rest)) => Ok(([member] + members, rest))
      else Err(Syntax)
  }

  /** `json.loads` with the two hooks: one value with nothing but space around it. */
  function ParseDocument(s: Text): Result<Json, JsonError> {
    match ParseValue(SkipSpace(s))
    case Err(e) => Err(e)
    case Ok((v, rest)) => if SkipSpace(rest) == [] then Ok(v) else Err(Syntax)
  }

  /** `canonical_loads`. */
  function CanonicalLoads(nfc: Text -> Text, data: Bytes): Result<Json, JsonError> {
    match Decode(data)
    case None => Err(BadUtf8)
    case Some(text) =>
      match ParseDocument(text)
      case Err(e) => Err(e)
      case Ok(loaded) =>
        if !loaded.Obj? then Err(NotObject)
        else
          match Normalize(nfc, loaded)
          case Err(e) => Err(e)
          case Ok(normalized) =>
            if CanonicalBytes(nfc, normalized) != Ok(data) then Err(NotCanonical) else Ok(normalized)
  }
}
