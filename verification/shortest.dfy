/** The canonical print is the shortest text (kernel/canonical.py): the strict loader reads many
    texts as one value, and the print is the only one of the least length. */
module Shortest {
  import opened Orders
  import opened Utf8
  import opened Canonical
  import opened RoundTrip

  /** Reading s down to rest took at least as many characters as d has, and as few only if it
      was d that was read. */
  ghost predicate Takes(s: Text, rest: Text, d: Text) {
    |s| >= |d| + |rest| && (|s| == |d| + |rest| ==> s == d + rest)
  }

  lemma {:induction false} Then(s: Text, middle: Text, rest: Text, d: Text, e: Text)
    requires Takes(s, middle, d) && Takes(middle, rest, e)
    ensures Takes(s, rest, d + e)
  {
    if |s| == |d + e| + |rest| {
      assert d + e + rest == d + (e + rest);
    }
  }

  lemma {:induction false} One(s: Text)
    requires s != []
    ensures Takes(s, s[1..], [s[0]])
  {
  }

  lemma {:induction false} Space(s: Text)
    ensures Takes(s, SkipSpace(s), [])
  {
    if s != [] && IsSpace(s[0]) {
      Space(s[1..]);
    }
  }

  /** Space, one character, and space again. */
  lemma {:induction false} Separator(s: Text)
    requires SkipSpace(s) != []
    ensures var next := SkipSpace(s);
      Takes(s, next[1..], [next[0]]) && Takes(s, SkipSpace(next[1..]), [next[0]])
  {
    hide SkipSpace, Takes;
    var next := SkipSpace(s);
    Space(s);
    One(next);
    Then(s, next, next[1..], [], [next[0]]);
    assert [] + [next[0]] == [next[0]];
    Space(next[1..]);
    Then(s, next[1..], SkipSpace(next[1..]), [next[0]], []);
    assert [next[0]] + [] == [next[0]];
  }

  // ----- strings -----

  function EscapedOne(c: CodePoint): Text {
    Escaped([c])
  }

  lemma {:induction false} EscapedCons(c: CodePoint, t: Text)
    ensures Escaped([c] + t) == EscapedOne(c) + Escaped(t)
    ensures |EscapedOne(c)| <= 2
    ensures |EscapedOne(c)| == 2 ==> c == 34 || c == 92
  {
    assert ([c] + t)[1..] == t;
    assert [c][1..] == [];
    assert Escaped([]) == [];
  }

  lemma {:induction false} OneEscape(s: Text)
    requires s != [] && s[0] == 92 && ParseEscape(s[1..]).Some?
    ensures var (c, n) := ParseEscape(s[1..]).value;
      Takes(s, s[1 + n..], EscapedOne(c))
  {
    hide Hex4;
    var (c, n) := ParseEscape(s[1..]).value;
    EscapedCons(c, []);
    assert [c] + [] == [c];
    if |s| == |EscapedOne(c)| + |s[1 + n..]| {
      assert n == 1;
      assert c == 34 || c == 92;
      assert s[1..][0] == c;
      assert [c][1..] == [];
      assert EscapedOne(c) == [92, c];
    }
  }

  lemma {:induction false} StringTakes(s: Text)
    requires ParseString(s).Ok?
    ensures var (t, rest) := ParseString(s).value; Takes(s, rest, Escaped(t) + [34])
    decreases |s|
  {
    hide Escaped, ParseEscape, Takes;
    var (t, rest) := ParseString(s).value;
    if s[0] == 34 {
      One(s);
      assert Escaped([]) + [34] == [34] by { EscapedNone(); }
    } else if s[0] == 92 {
      var (c, n) := ParseEscape(s[1..]).value;
      var (u, _) := ParseString(s[1 + n..]).value;
      StringTakes(s[1 + n..]);
      OneEscape(s);
      Then(s, s[1 + n..], rest, EscapedOne(c), Escaped(u) + [34]);
      EscapedCons(c, u);
      assert EscapedOne(c) + (Escaped(u) + [34]) == Escaped(t) + [34];
    } else {
      var c := s[0];
      var (u, _) := ParseString(s[1..]).value;
      StringTakes(s[1..]);
      One(s);
      PlainOne(c);
      Then(s, s[1..], rest, [c], Escaped(u) + [34]);
      EscapedCons(c, u);
      assert [c] + (Escaped(u) + [34]) == Escaped(t) + [34];
    }
  }

  lemma {:induction false} EscapedNone()
    ensures Escaped([]) == []
  {
  }

  lemma {:induction false} PlainOne(c: CodePoint)
    requires c != 34 && c != 92
    ensures EscapedOne(c) == [c]
  {
    EscapedNone();
    assert [c][1..] == [];
  }

  lemma {:induction false} QuotedTakes(s: Text)
    requires s != [] && s[0] == 34 && ParseString(s[1..]).Ok?
    ensures var (t, rest) := ParseString(s[1..]).value; Takes(s, rest, Quoted(t))
  {
    hide Escaped, Takes;
    var (t, rest) := ParseString(s[1..]).value;
    One(s);
    StringTakes(s[1..]);
    Then(s, s[1..], rest, [34], Escaped(t) + [34]);
    assert [34] + (Escaped(t) + [34]) == Quoted(t);
  }

  // ----- numbers -----

  lemma {:induction false} ValueAtLeast(ds: Text)
    requires ds != [] && (forall i :: 0 <= i < |ds| ==> IsDigit(ds[i])) && ds[0] != 48
    ensures Value(ds) >= 1
  {
    if |ds| > 1 {
      ValueAtLeast(ds[..|ds| - 1]);
    }
  }

  /** Digits without a leading zero are the print of their value. */
  lemma {:induction false} DigitsOfValue(ds: Text)
    requires ds != [] && (forall i :: 0 <= i < |ds| ==> IsDigit(ds[i])) && (ds[0] == 48 ==> |ds| == 1)
    ensures Value(ds) >= 0 && Digits(Value(ds)) == ds
  {
    var n := |ds| - 1;
    var d := Canonical.Above(ds[n]);
    if n == 0 {
      assert ds[..0] == [];
      assert Value(ds) == d;
      assert ds == [48 + d];
    } else {
      DigitsOfValue(ds[..n]);
      ValueAtLeast(ds[..n]);
      var v := Value(ds[..n]);
      assert (v * 10 + d) / 10 == v && (v * 10 + d) % 10 == d;
      assert ds == ds[..n] + [48 + d];
    }
  }

  lemma {:induction false} SpanDigits(s: Text)
    ensures forall i :: 0 <= i < DigitSpan(s) ==> IsDigit(s[i])
  {
    if s != [] && IsDigit(s[0]) {
      SpanDigits(s[1..]);
      assert forall i :: 1 <= i < |s| ==> s[i] == s[1..][i - 1];
    }
  }

  lemma {:induction false} IntegerTakes(s: Text)
    requires IntegerSpan(s) > 0
    ensures var n := IntegerSpan(s); Takes(s, s[n..], IntegerText(IntegerValue(s[..n])))
  {
    hide Value, Digits, DigitSpan;
    var n := IntegerSpan(s);
    var sign := if s[0] == 45 then 1 else 0;
    var ds := s[sign..n];
    SpanDigits(s[sign..]);
    SpanPositive(s[sign..]);
    assert forall i :: 0 <= i < |ds| ==> ds[i] == s[sign..][i];
    assert s[..n][sign..] == ds;
    assert s[..n] == s[..sign] + ds;
    DigitsOfValue(ds);
    if sign == 1 {
      assert s[..n][1..] == ds;
      assert s[..n] == [45] + ds;
      if ds == [48] { ZeroText(); }
      else { ValueAtLeast(ds); }
    } else {
      assert s[..n] == ds;
    }
    assert s == s[..n] + s[n..];
  }

  lemma {:induction false} SpanPositive(s: Text)
    requires s != [] && IsDigit(s[0])
    ensures DigitSpan(s) >= 1
  {
  }

  lemma {:induction false} ZeroText()
    ensures Value([48]) == 0 && Digits(0) == [48]
  {
    assert [48][..0] == [];
  }

  lemma {:induction false} NumberTakes(s: Text)
    requires ParseNumber(s).Ok?
    ensures var (v, rest) := ParseNumber(s).value; Takes(s, rest, Dump(v))
  {
    hide Value, Digits, DigitSpan, IntegerSpan, FractionSpan, ExponentSpan, IntegerText, IntegerValue;
    var n := IntegerSpan(s);
    IntegerTakes(s);
    var f := FractionSpan(s[n..]);
    var e := ExponentSpan(s[n + f..]);
    assert s == s[..n + f + e] + s[n + f + e..];
  }

  // ----- whole values -----

  lemma {:induction false} LiteralTakes(s: Text, word: Text)
    requires StartsWith(s, word)
    ensures Takes(s, s[|word|..], word)
  {
  }

  lemma {:induction false} ValueTakes(s: Text)
    requires ParseValue(s).Ok?
    ensures var (v, rest) := ParseValue(s).value; Takes(s, rest, Dump(v))
    decreases |s|, 0
  {
    hide Takes, ParseString, ParseNumber, ParseMembers, ParseItems, SkipSpace, DumpItems, DumpMembers, Quoted, UniqueKeys;
    var (v, rest) := ParseValue(s).value;
    if s[0] == 34 {
      QuotedTakes(s);
    } else if s[0] == 123 {
      ObjectTakes(s);
    } else if s[0] == 91 {
      ArrayTakes(s);
    } else if StartsWith(s, NULL_TEXT) {
      LiteralTakes(s, NULL_TEXT);
    } else if StartsWith(s, TRUE_TEXT) {
      LiteralTakes(s, TRUE_TEXT);
    } else if StartsWith(s, FALSE_TEXT) {
      LiteralTakes(s, FALSE_TEXT);
    } else {
      NumberTakes(s);
    }
  }

  lemma {:induction false} Opened(s: Text)
    requires s != []
    ensures Takes(s, SkipSpace(s[1..]), [s[0]])
  {
    hide Takes, SkipSpace;
    One(s);
    Space(s[1..]);
    Then(s, s[1..], SkipSpace(s[1..]), [s[0]], []);
    assert [s[0]] + [] == [s[0]];
  }

  lemma {:induction false} ArrayTakes(s: Text)
    requires s != [] && s[0] == 91 && ParseValue(s).Ok?
    ensures var (v, rest) := ParseValue(s).value; Takes(s, rest, Dump(v))
    decreases |s|, 0, 0
  {
    hide Takes, ParseItems, SkipSpace, DumpItems;
    var (v, rest) := ParseValue(s).value;
    var body := SkipSpace(s[1..]);
    Opened(s);
    if body != [] && body[0] == 93 {
      One(body);
      Then(s, body, rest, [91], [93]);
      NothingToPrint();
      assert [91] + [] + [93] == [91] + [93];
    } else {
      var (items, _) := ParseItems(body).value;
      ItemsTake(body);
      Then(s, body, rest, [91], DumpItems(items) + [93]);
      assert [91] + (DumpItems(items) + [93]) == Dump(v);
    }
  }

  lemma {:induction false} ObjectTakes(s: Text)
    requires s != [] && s[0] == 123 && ParseValue(s).Ok?
    ensures var (v, rest) := ParseValue(s).value; Takes(s, rest, Dump(v))
    decreases |s|, 0, 0
  {
    hide Takes, ParseMembers, SkipSpace, DumpMembers, UniqueKeys;
    var (v, rest) := ParseValue(s).value;
    var body := SkipSpace(s[1..]);
    Opened(s);
    if body != [] && body[0] == 125 {
      One(body);
      Then(s, body, rest, [123], [125]);
      NothingToPrint();
      assert [123] + [] + [125] == [123] + [125];
    } else {
      var (members, _) := ParseMembers(body).value;
      MembersTake(body);
      Then(s, body, rest, [123], DumpMembers(members) + [125]);
      assert [123] + (DumpMembers(members) + [125]) == Dump(v);
    }
  }

  lemma {:induction false} NothingToPrint()
    ensures DumpItems([]) == [] && DumpMembers([]) == []
  {
  }

  lemma {:induction false} ItemsTake(s: Text)
    requires ParseItems(s).Ok?
    ensures var (items, rest) := ParseItems(s).value; Takes(s, rest, DumpItems(items) + [93])
    decreases |s|, 1
  {
    hide Takes, ParseValue, SkipSpace, Dump;
    var (items, rest) := ParseItems(s).value;
    var (item, after) := ParseValue(s).value;
    ValueTakes(s);
    Separator(after);
    var next := SkipSpace(after);
    if next[0] == 93 {
      Then(s, after, rest, Dump(item), [93]);
      assert DumpItems([item]) == Dump(item);
    } else {
      var tail := SkipSpace(next[1..]);
      var (others, _) := ParseItems(tail).value;
      ItemsTake(tail);
      Then(s, after, tail, Dump(item), [44]);
      Then(s, tail, rest, Dump(item) + [44], DumpItems(others) + [93]);
      assert others != [] by { SomeItem(tail); }
      assert items[1..] == others;
      assert DumpItems(items) + [93] == Dump(item) + [44] + (DumpItems(others) + [93]);
    }
  }

  lemma {:induction false} SomeItem(s: Text)
    requires ParseItems(s).Ok?
    ensures ParseItems(s).value.0 != []
  {
    hide ParseValue, SkipSpace;
  }

  lemma {:induction false} SomeMember(s: Text)
    requires ParseMembers(s).Ok?
    ensures ParseMembers(s).value.0 != []
  {
    hide ParseMember, SkipSpace;
  }

  lemma {:induction false} MemberTakes(s: Text)
    requires ParseMember(s).Ok?
    ensures var (m, rest) := ParseMember(s).value; Takes(s, rest, DumpMember(m))
    decreases |s|, 1
  {
    hide Takes, ParseValue, ParseString, SkipSpace, Dump, Quoted;
    var (m, rest) := ParseMember(s).value;
    var (key, after) := ParseString(s[1..]).value;
    QuotedTakes(s);
    Separator(after);
    var colon := SkipSpace(after);
    var value := SkipSpace(colon[1..]);
    ValueTakes(value);
    Then(s, after, value, Quoted(key), [58]);
    Then(s, value, rest, Quoted(key) + [58], Dump(m.value));
  }

  lemma {:induction false} MembersTake(s: Text)
    requires ParseMembers(s).Ok?
    ensures var (ms, rest) := ParseMembers(s).value; Takes(s, rest, DumpMembers(ms) + [125])
    decreases |s|, 2
  {
    hide Takes, ParseMember, SkipSpace, DumpMember;
    var (ms, rest) := ParseMembers(s).value;
    var (m, after) := ParseMember(s).value;
    MemberTakes(s);
    Separator(after);
    var next := SkipSpace(after);
    if next[0] == 125 {
      Then(s, after, rest, DumpMember(m), [125]);
      assert DumpMembers([m]) == DumpMember(m);
    } else {
      var tail := SkipSpace(next[1..]);
      var (others, _) := ParseMembers(tail).value;
      MembersTake(tail);
      Then(s, after, tail, DumpMember(m), [44]);
      Then(s, tail, rest, DumpMember(m) + [44], DumpMembers(others) + [125]);
      assert others != [] by { SomeMember(tail); }
      assert ms[1..] == others;
      assert DumpMembers(ms) + [125] == DumpMember(m) + [44] + (DumpMembers(others) + [125]);
    }
  }

  // ----- the law -----

  /** No text that the loader reads as v is shorter than the print of v, and no other is as short. */
  lemma {:induction false} PrintIsShortest(t: Text, v: Json)
    requires ParseDocument(t) == Ok(v)
    ensures |Dump(v)| <= |t| && (|Dump(v)| == |t| ==> t == Dump(v))
  {
    hide ParseValue, SkipSpace, Dump;
    var s := SkipSpace(t);
    var rest := ParseValue(s).value.1;
    Space(t);
    ValueTakes(s);
    Space(rest);
    Then(t, s, rest, [], Dump(v));
    assert [] + Dump(v) == Dump(v);
    Then(t, rest, [], Dump(v), []);
    assert Dump(v) + [] == Dump(v);
  }

  /** Of all texts that are read as a normal value the canonical print is the one of least
      length. */
  lemma {:induction false} ShortestExactly(nfc: Text -> Text, w: Json, t: Text)
    requires NfcLaws(nfc) && Normal(nfc, w)
    ensures CanonicalBytes(nfc, w) == Ok(Encode(t)) <==>
      ParseDocument(t) == Ok(w) && forall u :: ParseDocument(u) == Ok(w) ==> |t| <= |u|
  {
    hide ParseDocument, Dump, Encode, Normal;
    LoadsOfDump(nfc, w);
    NormalFixed(nfc, w);
    forall u | ParseDocument(u) == Ok(w) ensures |Dump(w)| <= |u| && (|Dump(w)| == |u| ==> u == Dump(w)) {
      PrintIsShortest(u, w);
    }
    if CanonicalBytes(nfc, w) == Ok(Encode(t)) {
      EncodeInjective(t, Dump(w));
    }
  }

  // ----- one print -----

  const EXAMPLE_ITEMS := [Null, Boolean(true), Integer(-10)]
  // x, slash, quote, backslash, y
  const EXAMPLE_TEXT: Text := [120, 47, 34, 92, 121]
  // "a":[null,true,-10]
  const FIRST_PRINT: Text := [34, 97, 34, 58, 91, 110, 117, 108, 108, 44, 116, 114, 117, 101, 44, 45, 49, 48, 93]
  // "b":"x/\"\\y"
  const SECOND_PRINT: Text := [34, 98, 34, 58, 34, 120, 47, 92, 34, 92, 92, 121, 34]
  // "c":false
  const THIRD_PRINT: Text := [34, 99, 34, 58, 102, 97, 108, 115, 101]

  /** Every kind of value and of punctuation once, and a slash, a quote and a backslash in a text. */
  lemma {:induction false} PrintedExample()
    ensures Dump(Obj([Member([97], Arr(EXAMPLE_ITEMS)), Member([98], Str(EXAMPLE_TEXT)), Member([99], Boolean(false))]))
      == [123] + FIRST_PRINT + [44] + SECOND_PRINT + [44] + THIRD_PRINT + [125]
  {
    hide DumpMember, Dump;
    var a, b := Member([97], Arr(EXAMPLE_ITEMS)), Member([98], Str(EXAMPLE_TEXT));
    var c := Member([99], Boolean(false));
    PrintedThree(a, b, c);
    PrintedFirst(a);
    PrintedOthers(b, c);
    Associated(FIRST_PRINT, SECOND_PRINT, THIRD_PRINT);
  }

  lemma {:induction false} Associated(a: Text, b: Text, c: Text)
    ensures [123] + (a + [44] + b + [44] + c) + [125] == [123] + a + [44] + b + [44] + c + [125]
  {
  }

  lemma {:induction false} PrintedFirst(a: Member)
    requires a == Member([97], Arr(EXAMPLE_ITEMS))
    ensures DumpMember(a) == FIRST_PRINT
  {
    hide Digits, DumpItems, Quoted;
    PrintedKeys();
    PrintedItems();
    assert Dump(a.value) == [91] + DumpItems(EXAMPLE_ITEMS) + [93];
  }

  lemma {:induction false} PrintedOthers(b: Member, c: Member)
    requires b == Member([98], Str(EXAMPLE_TEXT)) && c == Member([99], Boolean(false))
    ensures DumpMember(b) == SECOND_PRINT && DumpMember(c) == THIRD_PRINT
  {
    hide Quoted;
    PrintedKeys();
    PrintedText();
    assert Dump(b.value) == Quoted(EXAMPLE_TEXT) && Dump(c.value) == FALSE_TEXT;
  }

  lemma {:induction false} PrintedThree(a: Member, b: Member, c: Member)
    ensures Dump(Obj([a, b, c]))
      == [123] + (DumpMember(a) + [44] + DumpMember(b) + [44] + DumpMember(c)) + [125]
  {
    hide DumpMember;
    var ms := [a, b, c];
    assert ms[1..] == [b, c] && [b, c][1..] == [c];
    assert DumpMembers([c]) == DumpMember(c);
    assert DumpMembers([b, c]) == DumpMember(b) + [44] + DumpMember(c);
  }

  lemma {:induction false} PrintedItems()
    ensures DumpItems(EXAMPLE_ITEMS) == [110, 117, 108, 108, 44, 116, 114, 117, 101, 44, 45, 49, 48]
  {
    hide Digits;
    PrintedNumber();
    var items := EXAMPLE_ITEMS;
    assert items[1..] == [Boolean(true), Integer(-10)];
    assert items[1..][1..] == [Integer(-10)];
    assert DumpItems([Integer(-10)]) == Dump(Integer(-10));
    assert DumpItems(items[1..]) == TRUE_TEXT + [44] + [45, 49, 48];
  }

  lemma {:induction false} PrintedNumber()
    ensures Digits(10) == [49, 48]
  {
  }

  lemma {:induction false} PrintedKeys()
    ensures Quoted([97]) == [34, 97, 34] && Quoted([98]) == [34, 98, 34] && Quoted([99]) == [34, 99, 34]
  {
    PlainOne(97);
    PlainOne(98);
    PlainOne(99);
  }

  lemma {:induction false} PrintedText()
    ensures Quoted(EXAMPLE_TEXT) == [34, 120, 47, 92, 34, 92, 92, 121, 34]
  {
    var s := EXAMPLE_TEXT;
    assert s[1..] == [47, 34, 92, 121];
    assert s[1..][1..] == [34, 92, 121];
    assert s[1..][1..][1..] == [92, 121];
    assert s[1..][1..][1..][1..] == [121];
    EscapedNone();
  }
}
