/** The laws of CanonicalJSON/v1: normalisation is idempotent, printing then loading gives the
    normalised value back, and so the printing is unique. */
module RoundTrip {
  import opened Orders
  import opened Utf8
  import opened Canonical

  ghost predicate NormalText(nfc: Text -> Text, s: Text) {
    NoControl(s) && nfc(s) == s
  }

  /** What `_normalize` produces: normalised strings, no floats, distinct keys. */
  ghost predicate Clean(nfc: Text -> Text, v: Json)
    decreases v
  {
    match v
    case Float(_) => false
    case Str(s) => NormalText(nfc, s)
    case Arr(items) => forall i :: 0 <= i < |items| ==> Clean(nfc, items[i])
    case Obj(ms) =>
      UniqueKeys(ms) && forall i :: 0 <= i < |ms| ==> NormalText(nfc, ms[i].key) && Clean(nfc, ms[i].value)
    case _ => true
  }

  ghost predicate CleanItems(nfc: Text -> Text, items: seq<Json>) {
    forall i :: 0 <= i < |items| ==> Clean(nfc, items[i])
  }

  ghost predicate CleanMembers(nfc: Text -> Text, ms: seq<Member>) {
    UniqueKeys(ms) && forall i :: 0 <= i < |ms| ==> NormalText(nfc, ms[i].key) && Clean(nfc, ms[i].value)
  }

  ghost predicate StrictKeys(ms: seq<Member>) {
    forall i, j :: 0 <= i < j < |ms| ==> LexLt(ms[i].key, ms[j].key)
  }

  /** A clean value whose objects list their members in key order. */
  ghost predicate Normal(nfc: Text -> Text, v: Json)
    decreases v
  {
    match v
    case Float(_) => false
    case Str(s) => NormalText(nfc, s)
    case Arr(items) => forall i :: 0 <= i < |items| ==> Normal(nfc, items[i])
    case Obj(ms) =>
      StrictKeys(ms) && forall i :: 0 <= i < |ms| ==> NormalText(nfc, ms[i].key) && Normal(nfc, ms[i].value)
    case _ => true
  }

  // ----- normalisation is idempotent -----

  lemma {:induction false} NormalizeClean(nfc: Text -> Text, v: Json)
    requires NfcLaws(nfc) && Normalize(nfc, v).Ok?
    ensures Clean(nfc, Normalize(nfc, v).value)
    decreases v, 1
  {
    match v
    case Arr(items) => NormalizeItemsClean(nfc, items);
    case Obj(members) => NormalizeMembersClean(nfc, members);
    case _ =>
  }

  lemma {:induction false} NormalizeItemsClean(nfc: Text -> Text, items: seq<Json>)
    requires NfcLaws(nfc) && NormalizeItems(nfc, items).Ok?
    ensures CleanItems(nfc, NormalizeItems(nfc, items).value)
    decreases items, 0
  {
    if items != [] {
      NormalizeItemsClean(nfc, items[..|items| - 1]);
      NormalizeClean(nfc, items[|items| - 1]);
    }
  }

  lemma {:induction false} NormalizeMembersClean(nfc: Text -> Text, members: seq<Member>)
    requires NfcLaws(nfc) && NormalizeMembers(nfc, members).Ok?
    ensures CleanMembers(nfc, NormalizeMembers(nfc, members).value)
    decreases members, 0
  {
    if members != [] {
      NormalizeMembersClean(nfc, members[..|members| - 1]);
      NormalizeClean(nfc, members[|members| - 1].value);
    }
  }

  lemma {:induction false} CleanFixed(nfc: Text -> Text, v: Json)
    requires Clean(nfc, v)
    ensures Normalize(nfc, v) == Ok(v)
    decreases v, 1
  {
    match v
    case Arr(items) => CleanItemsFixed(nfc, items);
    case Obj(members) => CleanMembersFixed(nfc, members);
    case _ =>
  }

  lemma {:induction false} CleanItemsFixed(nfc: Text -> Text, items: seq<Json>)
    requires CleanItems(nfc, items)
    ensures NormalizeItems(nfc, items) == Ok(items)
    decreases items, 0
  {
    hide Clean, Normalize;
    if items != [] {
      var n := |items| - 1;
      CleanItemsFixed(nfc, items[..n]);
      CleanFixed(nfc, items[n]);
      assert items == items[..n] + [items[n]];
    }
  }

  lemma {:induction false} CleanMembersFixed(nfc: Text -> Text, members: seq<Member>)
    requires CleanMembers(nfc, members)
    ensures NormalizeMembers(nfc, members) == Ok(members)
    decreases members, 0
  {
    if members != [] {
      var n := |members| - 1;
      CleanMembersFixed(nfc, members[..n]);
      CleanFixed(nfc, members[n].value);
      assert members == members[..n] + [members[n]];
    }
  }

  lemma {:induction false} NormalizeIdempotent(nfc: Text -> Text, v: Json)
    requires NfcLaws(nfc) && Normalize(nfc, v).Ok?
    ensures Normalize(nfc, Normalize(nfc, v).value) == Normalize(nfc, v)
  {
    NormalizeClean(nfc, v);
    CleanFixed(nfc, Normalize(nfc, v).value);
  }

  // ----- sorting keys -----

  lemma {:induction false} InsertMemberStrict(m: Member, ms: seq<Member>)
    requires StrictKeys(ms) && forall i :: 0 <= i < |ms| ==> ms[i].key != m.key
    ensures StrictKeys(InsertMember(m, ms))
    ensures forall x :: x in InsertMember(m, ms) <==> x == m || x in ms
  {
    hide LexLe;
    var r := InsertMember(m, ms);
    if ms == [] {
    } else if LexLe(m.key, ms[0].key) {
      forall j | 1 <= j < |r| ensures LexLt(m.key, r[j].key) {
        if j > 1 { LexLtTransitive(m.key, ms[0].key, ms[j - 1].key); }
      }
    } else {
      LexTotal(m.key, ms[0].key);
      InsertMemberStrict(m, ms[1..]);
      var t := InsertMember(m, ms[1..]);
      assert ms == [ms[0]] + ms[1..];
      forall j | 0 <= j < |t| ensures LexLt(ms[0].key, t[j].key) {
        assert t[j] in t;
        if t[j] != m { var i :| 0 <= i < |ms[1..]| && ms[1..][i] == t[j]; }
      }
    }
  }

  lemma {:induction false} SortMembersStrict(ms: seq<Member>)
    requires UniqueKeys(ms)
    ensures StrictKeys(SortMembers(ms))
    ensures forall x :: x in SortMembers(ms) <==> x in ms
  {
    if ms != [] {
      SortMembersStrict(ms[1..]);
      var t := SortMembers(ms[1..]);
      assert ms == [ms[0]] + ms[1..];
      forall i | 0 <= i < |t| ensures t[i].key != ms[0].key {
        assert t[i] in ms[1..];
      }
      InsertMemberStrict(ms[0], t);
    }
  }

  lemma {:induction false} SortMembersFixed(ms: seq<Member>)
    requires StrictKeys(ms)
    ensures SortMembers(ms) == ms
  {
    if ms != [] {
      SortMembersFixed(ms[1..]);
      assert ms == [ms[0]] + ms[1..];
      if |ms| > 1 { assert LexLt(ms[0].key, ms[1].key); }
    }
  }

  lemma {:induction false} SortNormal(nfc: Text -> Text, v: Json)
    requires Clean(nfc, v)
    ensures Normal(nfc, SortKeys(v))
    decreases v, 1
  {
    match v
    case Arr(items) => SortItemsNormal(nfc, items);
    case Obj(members) =>
      SortValuesNormal(nfc, members);
      var vs := SortValues(members);
      SortMembersStrict(vs);
      var r := SortMembers(vs);
      forall i | 0 <= i < |r| ensures NormalText(nfc, r[i].key) && Normal(nfc, r[i].value) {
        assert r[i] in vs;
      }
    case _ =>
  }

  lemma {:induction false} SortItemsNormal(nfc: Text -> Text, items: seq<Json>)
    requires CleanItems(nfc, items)
    ensures forall i :: 0 <= i < |items| ==> Normal(nfc, SortItems(items)[i])
    decreases items, 0
  {
    if items != [] {
      SortNormal(nfc, items[0]);
      SortItemsNormal(nfc, items[1..]);
    }
  }

  lemma {:induction false} SortValuesNormal(nfc: Text -> Text, ms: seq<Member>)
    requires forall i :: 0 <= i < |ms| ==> Clean(nfc, ms[i].value)
    ensures forall i :: 0 <= i < |ms| ==> Normal(nfc, SortValues(ms)[i].value)
    decreases ms, 0
  {
    if ms != [] {
      SortNormal(nfc, ms[0].value);
      SortValuesNormal(nfc, ms[1..]);
    }
  }

  lemma {:induction false} NormalIsClean(nfc: Text -> Text, v: Json)
    requires Normal(nfc, v)
    ensures Clean(nfc, v)
    decreases v
  {
    match v
    case Arr(items) =>
      forall i | 0 <= i < |items| ensures Clean(nfc, items[i]) { NormalIsClean(nfc, items[i]); }
    case Obj(ms) =>
      forall i | 0 <= i < |ms| ensures Clean(nfc, ms[i].value) { NormalIsClean(nfc, ms[i].value); }
    case _ =>
  }

  lemma {:induction false} SortFixed(nfc: Text -> Text, v: Json)
    requires Normal(nfc, v)
    ensures SortKeys(v) == v
    decreases v, 1
  {
    match v
    case Arr(items) => SortItemsFixed(nfc, items);
    case Obj(members) =>
      SortValuesFixed(nfc, members);
      SortMembersFixed(members);
    case _ =>
  }

  lemma {:induction false} SortItemsFixed(nfc: Text -> Text, items: seq<Json>)
    requires forall i :: 0 <= i < |items| ==> Normal(nfc, items[i])
    ensures SortItems(items) == items
    decreases items, 0
  {
    if items != [] {
      SortFixed(nfc, items[0]);
      SortItemsFixed(nfc, items[1..]);
    }
  }

  lemma {:induction false} SortValuesFixed(nfc: Text -> Text, ms: seq<Member>)
    requires forall i :: 0 <= i < |ms| ==> Normal(nfc, ms[i].value)
    ensures SortValues(ms) == ms
    decreases ms, 0
  {
    if ms != [] {
      SortFixed(nfc, ms[0].value);
      SortValuesFixed(nfc, ms[1..]);
    }
  }

  // ----- parsing what was printed: numbers and strings -----

  /** A text that cannot continue a number. */
  predicate Stops(s: Text) {
    s == [] || (!IsDigit(s[0]) && s[0] != 46 && s[0] != 101 && s[0] != 69)
  }

  lemma {:induction false} DigitsShape(n: nat)
    ensures forall i :: 0 <= i < |Digits(n)| ==> IsDigit(Digits(n)[i])
    ensures Digits(n)[0] == 48 <==> n == 0
    ensures n == 0 ==> |Digits(n)| == 1
    ensures Value(Digits(n)) == n
  {
    if n < 10 {
      assert Digits(n)[..0] == [];
    } else {
      DigitsShape(n / 10);
      var d := Digits(n / 10);
      assert Digits(n)[..|d|] == d;
    }
  }

  lemma {:induction false} DigitSpanStops(ds: Text, rest: Text)
    requires forall i :: 0 <= i < |ds| ==> IsDigit(ds[i])
    requires rest == [] || !IsDigit(rest[0])
    ensures DigitSpan(ds + rest) == |ds|
  {
    if ds == [] {
      assert ds + rest == rest;
    } else {
      assert (ds + rest)[1..] == ds[1..] + rest;
      DigitSpanStops(ds[1..], rest);
    }
  }

  lemma {:induction false} IntegerTextSpan(i: int, rest: Text)
    requires Stops(rest)
    ensures IntegerSpan(IntegerText(i) + rest) == |IntegerText(i)|
    ensures IntegerValue(IntegerText(i)) == i
    ensures var c := IntegerText(i)[0]; IsDigit(c) || (c == 45 && |IntegerText(i)| > 1 && IsDigit(IntegerText(i)[1]))
  {
    hide Value, DigitSpan, Digits;
    var ds := Digits(if i < 0 then -i else i);
    var s := IntegerText(i) + rest;
    DigitsShape(if i < 0 then -i else i);
    DigitSpanStops(ds, rest);
    if i < 0 {
      assert s[1..] == ds + rest;
      assert IntegerText(i)[1..] == ds;
    } else {
      assert s[0..] == ds + rest;
    }
  }

  lemma {:induction false} ParseInteger(i: int, rest: Text)
    requires Stops(rest)
    ensures ParseValue(IntegerText(i) + rest) == Ok((Integer(i), rest))
  {
    hide Value, DigitSpan, Digits, IntegerText, IntegerSpan, IntegerValue, ParseString, ParseMembers, ParseItems;
    var t := IntegerText(i);
    var s := t + rest;
    IntegerTextSpan(i, rest);
    assert s[..|t|] == t && s[|t|..] == rest && s[|t| + 0..] == rest;
    assert ParseNumber(s) == Ok((Integer(i), rest));
    assert |t| > 1 ==> s[1] == t[1];
  }

  lemma {:induction false} ParseQuoted(s: Text, rest: Text)
    requires NoControl(s)
    ensures ParseString(Escaped(s) + [34] + rest) == Ok((s, rest))
  {
    var t := Escaped(s) + [34] + rest;
    if s == [] {
      assert t == [34] + rest;
    } else {
      ParseQuoted(s[1..], rest);
      var tail := Escaped(s[1..]) + [34] + rest;
      assert s == [s[0]] + s[1..];
      if s[0] == 34 || s[0] == 92 {
        assert t == [92, s[0]] + tail;
        assert t[1..] == [s[0]] + tail;
        assert t[1 + 1..] == tail;
      } else {
        assert t == [s[0]] + tail;
        assert t[1..] == tail;
      }
    }
  }

  // ----- parsing what was printed: whole values -----

  /** A printed value starts with none of the characters the parser treats as space or as the
      end of a list. */
  predicate StartsValue(s: Text) {
    s != [] && !IsSpace(s[0]) && s[0] != 93 && s[0] != 125
  }

  lemma {:induction false} DumpStarts(nfc: Text -> Text, v: Json, rest: Text)
    requires Normal(nfc, v)
    ensures StartsValue(Dump(v) + rest)
  {
    hide Digits, Escaped, DumpItems, DumpMembers, Stops;
    match v
    case Integer(i) =>
      DigitsShape(if i < 0 then -i else i);
    case _ =>
  }

  lemma {:induction false} ParseLiteral(rest: Text)
    ensures ParseValue(NULL_TEXT + rest) == Ok((Null, rest))
    ensures ParseValue(TRUE_TEXT + rest) == Ok((Boolean(true), rest))
    ensures ParseValue(FALSE_TEXT + rest) == Ok((Boolean(false), rest))
  {
    hide ParseString, ParseMembers, ParseItems, ParseNumber;
    var n, t, f := NULL_TEXT + rest, TRUE_TEXT + rest, FALSE_TEXT + rest;
    assert n[..4] == NULL_TEXT && n[4..] == rest;
    assert t[..4] == TRUE_TEXT && t[4..] == rest;
    assert f[..5] == FALSE_TEXT && f[5..] == rest;
    assert n[0] == 110 && t[0] == 116 && f[0] == 102;
  }

  lemma {:induction false} ParseDump(nfc: Text -> Text, v: Json, rest: Text)
    requires Normal(nfc, v) && Stops(rest)
    ensures ParseValue(Dump(v) + rest) == Ok((v, rest))
    decreases v, 1
  {
    hide ParseNumber, ParseItems, ParseMembers, ParseString, Escaped, Digits, Stops, IntegerText;
    match v
    case Null => ParseLiteral(rest);
    case Boolean(_) => ParseLiteral(rest);
    case Integer(i) => ParseInteger(i, rest);
    case Str(s) =>
      ParseQuoted(s, rest);
      var t := Quoted(s) + rest;
      assert t[1..] == Escaped(s) + [34] + rest;
    case Arr(items) => ParseArray(nfc, items, rest);
    case Obj(members) => ParseObject(nfc, members, rest);
  }

  lemma {:induction false} ParseArray(nfc: Text -> Text, items: seq<Json>, rest: Text)
    requires forall i :: 0 <= i < |items| ==> Normal(nfc, items[i])
    ensures ParseValue([91] + DumpItems(items) + [93] + rest) == Ok((Arr(items), rest))
    decreases items, 0, 1
  {
    hide ParseNumber, ParseMembers, ParseString, Dump;
    var t := [91] + DumpItems(items) + [93] + rest;
    var body := DumpItems(items) + [93] + rest;
    assert t[1..] == body;
    if items == [] {
      assert body == [93] + rest;
      assert SkipSpace(body) == body && body[1..] == rest;
    } else {
      ItemsStart(nfc, items, [93] + rest);
      assert body == DumpItems(items) + ([93] + rest);
      ParseDumpItems(nfc, items, rest);
      assert SkipSpace(body) == body;
    }
  }

  lemma {:induction false} ItemsStart(nfc: Text -> Text, items: seq<Json>, rest: Text)
    requires items != [] && Normal(nfc, items[0])
    ensures StartsValue(DumpItems(items) + rest)
  {
    hide Dump;
    if |items| == 1 {
      DumpStarts(nfc, items[0], rest);
    } else {
      DumpStarts(nfc, items[0], [44] + DumpItems(items[1..]) + rest);
      assert DumpItems(items) + rest == Dump(items[0]) + ([44] + DumpItems(items[1..]) + rest);
    }
  }

  lemma {:induction false} NoSpace(c: CodePoint, rest: Text)
    requires c == 44 || c == 93 || c == 125
    ensures SkipSpace([c] + rest) == [c] + rest && ([c] + rest)[1..] == rest && Stops([c] + rest)
  {
  }

  lemma {:induction false} NoSpaceBefore(s: Text)
    requires StartsValue(s)
    ensures SkipSpace(s) == s
  {
  }

  lemma {:induction false} LastItem(t: Text, v: Json, rest: Text)
    requires ParseValue(t) == Ok((v, [93] + rest))
    ensures ParseItems(t) == Ok(([v], rest))
  {
    hide ParseValue, SkipSpace;
    NoSpace(93, rest);
  }

  lemma {:induction false} MoreItems(t: Text, v: Json, tail: Text, vs: seq<Json>, rest: Text)
    requires ParseValue(t) == Ok((v, [44] + tail)) && StartsValue(tail)
    requires ParseItems(tail) == Ok((vs, rest))
    ensures ParseItems(t) == Ok(([v] + vs, rest))
  {
    hide ParseValue, SkipSpace;
    NoSpace(44, tail);
    NoSpaceBefore(tail);
  }

  lemma {:induction false} ParseDumpItems(nfc: Text -> Text, items: seq<Json>, rest: Text)
    requires items != [] && forall i :: 0 <= i < |items| ==> Normal(nfc, items[i])
    ensures ParseItems(DumpItems(items) + [93] + rest) == Ok((items, rest))
    decreases items, 0, 0
  {
    hide ParseItems, Dump, ParseValue, Normal, SkipSpace, Stops, StartsValue;
    var t := DumpItems(items) + [93] + rest;
    if |items| == 1 {
      NoSpace(93, rest);
      ParseDump(nfc, items[0], [93] + rest);
      assert t == Dump(items[0]) + ([93] + rest);
      LastItem(t, items[0], rest);
      assert items == [items[0]];
    } else {
      var tail := DumpItems(items[1..]) + [93] + rest;
      NoSpace(44, tail);
      ParseDump(nfc, items[0], [44] + tail);
      assert t == Dump(items[0]) + ([44] + tail);
      ItemsStart(nfc, items[1..], [93] + rest);
      assert tail == DumpItems(items[1..]) + ([93] + rest);
      ParseDumpItems(nfc, items[1..], rest);
      MoreItems(t, items[0], tail, items[1..], rest);
      assert items == [items[0]] + items[1..];
    }
  }

  lemma {:induction false} ParseDumpMember(nfc: Text -> Text, m: Member, rest: Text)
    requires NoControl(m.key) && Normal(nfc, m.value) && Stops(rest)
    ensures ParseMember(DumpMember(m) + rest) == Ok((m, rest))
    decreases m, 2
  {
    hide ParseNumber, ParseItems, ParseMembers, ParseValue, Dump, Escaped, ParseString, Normal;
    var t := DumpMember(m) + rest;
    var value := Dump(m.value) + rest;
    assert t == [34] + (Escaped(m.key) + [34] + ([58] + value));
    assert t[1..] == Escaped(m.key) + [34] + ([58] + value);
    ParseQuoted(m.key, [58] + value);
    assert SkipSpace([58] + value) == [58] + value && ([58] + value)[1..] == value;
    DumpStarts(nfc, m.value, rest);
    assert SkipSpace(value) == value;
    ParseDump(nfc, m.value, rest);
  }

  lemma {:induction false} LastMember(t: Text, m: Member, rest: Text)
    requires ParseMember(t) == Ok((m, [125] + rest))
    ensures ParseMembers(t) == Ok(([m], rest))
  {
    hide ParseMember, SkipSpace;
    NoSpace(125, rest);
  }

  lemma {:induction false} MoreMembers(t: Text, m: Member, tail: Text, ms: seq<Member>, rest: Text)
    requires ParseMember(t) == Ok((m, [44] + tail)) && StartsValue(tail)
    requires ParseMembers(tail) == Ok((ms, rest))
    ensures ParseMembers(t) == Ok(([m] + ms, rest))
  {
    hide ParseMember, SkipSpace;
    NoSpace(44, tail);
    NoSpaceBefore(tail);
  }

  lemma {:induction false} JoinedMembers(ms: seq<Member>, rest: Text)
    requires |ms| > 1
    ensures DumpMembers(ms) + [125] + rest == DumpMember(ms[0]) + ([44] + (DumpMembers(ms[1..]) + [125] + rest))
  {
    hide DumpMember;
    assert DumpMembers(ms) == DumpMember(ms[0]) + [44] + DumpMembers(ms[1..]);
  }

  ghost predicate Printable(nfc: Text -> Text, ms: seq<Member>) {
    forall i :: 0 <= i < |ms| ==> NoControl(ms[i].key) && Normal(nfc, ms[i].value)
  }

  lemma {:induction false} PrintableParts(nfc: Text -> Text, ms: seq<Member>)
    requires Printable(nfc, ms) && ms != []
    ensures NoControl(ms[0].key) && Normal(nfc, ms[0].value) && Printable(nfc, ms[1..])
  {
    hide NoControl, Normal;
  }

  lemma {:induction false} ParseDumpMembers(nfc: Text -> Text, ms: seq<Member>, rest: Text)
    requires ms != [] && Printable(nfc, ms)
    ensures ParseMembers(DumpMembers(ms) + [125] + rest) == Ok((ms, rest))
    decreases ms, 0, 0
  {
    hide ParseMembers, DumpMember, ParseMember, Normal, NoControl, SkipSpace, Stops, StartsValue, Printable;
    PrintableParts(nfc, ms);
    if |ms| == 1 {
      NoSpace(125, rest);
      ParseDumpMember(nfc, ms[0], [125] + rest);
      assert DumpMembers(ms) + [125] + rest == DumpMember(ms[0]) + ([125] + rest);
      LastMember(DumpMembers(ms) + [125] + rest, ms[0], rest);
      assert ms == [ms[0]];
    } else {
      var tail := DumpMembers(ms[1..]) + [125] + rest;
      NoSpace(44, tail);
      ParseDumpMember(nfc, ms[0], [44] + tail);
      JoinedMembers(ms, rest);
      MembersStart(ms[1..], [125] + rest);
      assert tail == DumpMembers(ms[1..]) + ([125] + rest);
      ParseDumpMembers(nfc, ms[1..], rest);
      MoreMembers(DumpMember(ms[0]) + ([44] + tail), ms[0], tail, ms[1..], rest);
      assert ms == [ms[0]] + ms[1..];
    }
  }

  lemma {:induction false} MembersStart(ms: seq<Member>, rest: Text)
    requires ms != []
    ensures StartsValue(DumpMembers(ms) + rest) && (DumpMembers(ms) + rest)[0] == 34
  {
    hide Dump, Escaped;
    assert DumpMember(ms[0])[0] == 34;
    if |ms| > 1 {
      assert DumpMembers(ms) == DumpMember(ms[0]) + ([44] + DumpMembers(ms[1..]));
    }
  }

  lemma {:induction false} ParseObject(nfc: Text -> Text, ms: seq<Member>, rest: Text)
    requires StrictKeys(ms) && forall i :: 0 <= i < |ms| ==> NormalText(nfc, ms[i].key) && Normal(nfc, ms[i].value)
    ensures ParseValue([123] + DumpMembers(ms) + [125] + rest) == Ok((Obj(ms), rest))
    decreases ms, 0, 1
  {
    hide ParseNumber, ParseItems, ParseString, Dump;
    var t := [123] + DumpMembers(ms) + [125] + rest;
    var body := DumpMembers(ms) + [125] + rest;
    assert t[1..] == body;
    if ms == [] {
      assert body == [125] + rest;
      assert SkipSpace(body) == body && body[1..] == rest;
    } else {
      MembersStart(ms, [125] + rest);
      assert body == DumpMembers(ms) + ([125] + rest);
      assert SkipSpace(body) == body;
      ParseDumpMembers(nfc, ms, rest);
      assert UniqueKeys(ms);
    }
  }

  // ----- the laws -----

  /** The normalised value with keys in order: what printing and loading agree on. */
  function Canon(nfc: Text -> Text, v: Json): Result<Json, JsonError> {
    match Normalize(nfc, v)
    case Err(e) => Err(e)
    case Ok(n) => Ok(SortKeys(n))
  }

  lemma {:induction false} CanonNormal(nfc: Text -> Text, v: Json)
    requires NfcLaws(nfc) && Canon(nfc, v).Ok?
    ensures Normal(nfc, Canon(nfc, v).value)
  {
    NormalizeClean(nfc, v);
    SortNormal(nfc, Normalize(nfc, v).value);
  }

  lemma {:induction false} NormalFixed(nfc: Text -> Text, w: Json)
    requires Normal(nfc, w)
    ensures Normalize(nfc, w) == Ok(w) && SortKeys(w) == w && Canon(nfc, w) == Ok(w)
    ensures CanonicalBytes(nfc, w) == Ok(Encode(Dump(w)))
  {
    NormalIsClean(nfc, w);
    CleanFixed(nfc, w);
    SortFixed(nfc, w);
  }

  lemma {:induction false} LoadsOfDump(nfc: Text -> Text, w: Json)
    requires NfcLaws(nfc) && Normal(nfc, w)
    ensures ParseDocument(Dump(w)) == Ok(w)
    ensures CanonicalLoads(nfc, Encode(Dump(w))) == if w.Obj? then Ok(w) else Err(NotObject)
  {
    hide Dump, ParseValue, Encode, Decode, Normalize, SortKeys, Normal;
    var text := Dump(w);
    DecodeEncode(text);
    DumpStarts(nfc, w, []);
    assert text + [] == text;
    assert SkipSpace(text) == text;
    ParseDump(nfc, w, []);
    NormalFixed(nfc, w);
  }

  /** Loading the canonical bytes of an object gives back its normalised value. */
  lemma {:induction false} LoadsAfterBytes(nfc: Text -> Text, v: Json)
    requires NfcLaws(nfc) && v.Obj? && CanonicalBytes(nfc, v).Ok?
    ensures CanonicalLoads(nfc, CanonicalBytes(nfc, v).value) == Canon(nfc, v)
  {
    hide Dump, Encode, CanonicalLoads, Normal;
    CanonNormal(nfc, v);
    LoadsOfDump(nfc, Canon(nfc, v).value);
  }

  /** The loader accepts exactly the canonical printings of objects: bytes it accepts are the
      print of the normal object it returns, and every such print is accepted. */
  lemma {:induction false} LoaderImage(nfc: Text -> Text, data: Bytes, w: Json)
    requires NfcLaws(nfc)
    ensures CanonicalLoads(nfc, data) == Ok(w) <==> w.Obj? && Normal(nfc, w) && data == Encode(Dump(w))
  {
    hide Dump, Encode, Decode, ParseDocument, Normal;
    if CanonicalLoads(nfc, data) == Ok(w) {
      NormalizedObject(nfc, data, w);
      LoadsAfterBytes(nfc, w);
      CanonNormal(nfc, w);
      NormalFixed(nfc, w);
    }
    if w.Obj? && Normal(nfc, w) && data == Encode(Dump(w)) {
      LoadsOfDump(nfc, w);
    }
  }

  lemma {:induction false} NormalizedObject(nfc: Text -> Text, data: Bytes, w: Json)
    requires CanonicalLoads(nfc, data) == Ok(w)
    ensures w.Obj? && CanonicalBytes(nfc, w) == Ok(data)
  {
    hide Dump, Encode, Decode, ParseDocument;
  }

  /** Equal canonical bytes mean equal normalised values, whatever the two values were. */
  lemma {:induction false} BytesInjective(nfc: Text -> Text, v: Json, w: Json)
    requires NfcLaws(nfc) && CanonicalBytes(nfc, v).Ok? && CanonicalBytes(nfc, w).Ok?
    ensures CanonicalBytes(nfc, v) == CanonicalBytes(nfc, w) <==> Canon(nfc, v) == Canon(nfc, w)
  {
    hide Dump, Encode, ParseDocument, Normal;
    CanonNormal(nfc, v);
    CanonNormal(nfc, w);
    LoadsOfDump(nfc, Canon(nfc, v).value);
    LoadsOfDump(nfc, Canon(nfc, w).value);
    if CanonicalBytes(nfc, v) == CanonicalBytes(nfc, w) {
      EncodeInjective(Dump(Canon(nfc, v).value), Dump(Canon(nfc, w).value));
    }
  }
}
