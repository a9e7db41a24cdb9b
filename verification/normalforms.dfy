/** What CanonicalJSON/v1 (kernel/canonical.py) keeps of a value: which values have a canonical
    form, and that it is the one normal value equal to the given one up to NFC and member order. */
module NormalForms {
  import opened Orders
  import opened Utf8
  import opened Canonical
  import opened RoundTrip

  /** No floating point, no control characters, and no two keys of an object with one NFC. */
  ghost predicate Acceptable(nfc: Text -> Text, v: Json)
    decreases v
  {
    match v
    case Float(_) => false
    case Str(s) => NoControl(s)
    case Arr(items) => forall i :: 0 <= i < |items| ==> Acceptable(nfc, items[i])
    case Obj(ms) =>
      && (forall i :: 0 <= i < |ms| ==> NoControl(ms[i].key) && Acceptable(nfc, ms[i].value))
      && forall i, j :: 0 <= i < j < |ms| ==> nfc(ms[i].key) != nfc(ms[j].key)
    case _ => true
  }

  /** w is v with every text in NFC, items in their order, and members in any order. */
  ghost predicate FormOf(nfc: Text -> Text, v: Json, w: Json)
    decreases v, 0
  {
    match v
    case Str(s) => w == Str(nfc(s))
    case Arr(items) => w.Arr? && |w.items| == |items| && forall i :: 0 <= i < |items| ==> FormOf(nfc, items[i], w.items[i])
    case Obj(ms) =>
      && w.Obj? && |w.members| == |ms|
      && (forall i :: 0 <= i < |ms| ==> Among(nfc, ms[i], w.members))
      && (forall j :: 0 <= j < |w.members| ==> From(nfc, ms, w.members[j]))
    case _ => w == v
  }

  ghost predicate MemberForm(nfc: Text -> Text, m: Member, x: Member)
    decreases m, 1
  {
    x.key == nfc(m.key) && FormOf(nfc, m.value, x.value)
  }

  ghost predicate Among(nfc: Text -> Text, m: Member, ws: seq<Member>)
    decreases m, 2
  {
    exists j :: 0 <= j < |ws| && MemberForm(nfc, m, ws[j])
  }

  ghost predicate From(nfc: Text -> Text, ms: seq<Member>, w: Member)
    decreases ms, 0
  {
    exists i :: 0 <= i < |ms| && MemberForm(nfc, ms[i], w)
  }

  // ----- lists and objects, member by member -----

  lemma {:induction false} ItemsOneByOne(nfc: Text -> Text, items: seq<Json>)
    ensures NormalizeItems(nfc, items).Ok? <==> forall i :: 0 <= i < |items| ==> Normalize(nfc, items[i]).Ok?
    ensures NormalizeItems(nfc, items).Ok? ==>
      forall i :: 0 <= i < |items| ==> Normalize(nfc, items[i]) == Ok(NormalizeItems(nfc, items).value[i])
  {
    hide Normalize;
    if items != [] {
      var n := |items| - 1;
      ItemsOneByOne(nfc, items[..n]);
      assert items == items[..n] + [items[n]];
    }
  }

  ghost predicate KeysDiffer(nfc: Text -> Text, ms: seq<Member>) {
    forall i, j :: 0 <= i < j < |ms| ==> nfc(ms[i].key) != nfc(ms[j].key)
  }

  ghost predicate EachOk(nfc: Text -> Text, ms: seq<Member>) {
    forall i :: 0 <= i < |ms| ==> NoControl(ms[i].key) && Normalize(nfc, ms[i].value).Ok?
  }

  lemma {:induction false} MembersOneByOne(nfc: Text -> Text, ms: seq<Member>)
    ensures NormalizeMembers(nfc, ms).Ok? <==> EachOk(nfc, ms) && KeysDiffer(nfc, ms)
    ensures NormalizeMembers(nfc, ms).Ok? ==>
      forall i :: 0 <= i < |ms| ==>
        var x := NormalizeMembers(nfc, ms).value[i]; x.key == nfc(ms[i].key) && Normalize(nfc, ms[i].value) == Ok(x.value)
  {
    hide Normalize, NoControl;
    if ms != [] {
      var n := |ms| - 1;
      MembersOneByOne(nfc, ms[..n]);
      assert ms == ms[..n] + [ms[n]];
      var before := NormalizeMembers(nfc, ms[..n]);
      if before.Ok? {
        assert HasKey(before.value, nfc(ms[n].key)) <==> exists i :: 0 <= i < n && nfc(ms[i].key) == nfc(ms[n].key) by {
          forall i | 0 <= i < n ensures before.value[i].key == nfc(ms[i].key) {
            assert ms[..n][i] == ms[i];
          }
        }
      }
    }
  }

  lemma {:induction false} SortedValues(ms: seq<Member>)
    ensures forall i :: 0 <= i < |ms| ==> SortValues(ms)[i] == Member(ms[i].key, SortKeys(ms[i].value))
  {
    hide SortKeys;
    if ms != [] {
      SortedValues(ms[1..]);
      assert forall i :: 1 <= i < |ms| ==> ms[i] == ms[1..][i - 1];
    }
  }

  lemma {:induction false} SortedItems(items: seq<Json>)
    ensures forall i :: 0 <= i < |items| ==> SortItems(items)[i] == SortKeys(items[i])
  {
    hide SortKeys;
    if items != [] {
      SortedItems(items[1..]);
      assert forall i :: 1 <= i < |items| ==> items[i] == items[1..][i - 1];
    }
  }

  // ----- the form of a value -----

  lemma {:induction false} CanonForm(nfc: Text -> Text, v: Json)
    ensures Canon(nfc, v).Ok? <==> Acceptable(nfc, v)
    ensures Canon(nfc, v).Ok? ==> FormOf(nfc, v, Canon(nfc, v).value)
    decreases v
  {
    match v
    case Arr(items) =>
      ItemsOneByOne(nfc, items);
      forall i | 0 <= i < |items|
        ensures Canon(nfc, items[i]).Ok? <==> Acceptable(nfc, items[i])
        ensures Canon(nfc, items[i]).Ok? ==> FormOf(nfc, items[i], Canon(nfc, items[i]).value)
      {
        CanonForm(nfc, items[i]);
      }
      if Canon(nfc, v).Ok? {
        SortedItems(NormalizeItems(nfc, items).value);
      }
    case Obj(ms) =>
      forall i | 0 <= i < |ms|
        ensures Canon(nfc, ms[i].value).Ok? <==> Acceptable(nfc, ms[i].value)
        ensures Canon(nfc, ms[i].value).Ok? ==> FormOf(nfc, ms[i].value, Canon(nfc, ms[i].value).value)
      {
        CanonForm(nfc, ms[i].value);
      }
      ObjectForm(nfc, ms);
    case _ =>
  }

  lemma {:induction false} ObjectForm(nfc: Text -> Text, ms: seq<Member>)
    requires forall i :: 0 <= i < |ms| ==>
      && (Canon(nfc, ms[i].value).Ok? <==> Acceptable(nfc, ms[i].value))
      && (Canon(nfc, ms[i].value).Ok? ==> FormOf(nfc, ms[i].value, Canon(nfc, ms[i].value).value))
    ensures Canon(nfc, Obj(ms)).Ok? <==> Acceptable(nfc, Obj(ms))
    ensures Canon(nfc, Obj(ms)).Ok? ==> FormOf(nfc, Obj(ms), Canon(nfc, Obj(ms)).value)
  {
    hide NoControl, SortMembers, NormalizeMembers, SortValues;
    MembersOneByOne(nfc, ms);
    if Canon(nfc, Obj(ms)).Ok? {
      var ns := NormalizeMembers(nfc, ms).value;
      SortedValues(ns);
      var vs := SortValues(ns);
      assert UniqueKeys(vs);
      SortMembersStrict(vs);
      forall i | 0 <= i < |ms| ensures MemberForm(nfc, ms[i], vs[i]) {
        assert Canon(nfc, ms[i].value) == Ok(vs[i].value);
      }
      FormsAmong(nfc, ms, vs, SortMembers(vs));
    }
  }

  lemma {:induction false} FormsAmong(nfc: Text -> Text, ms: seq<Member>, vs: seq<Member>, ws: seq<Member>)
    requires |ms| == |vs| == |ws| && forall i :: 0 <= i < |ms| ==> MemberForm(nfc, ms[i], vs[i])
    requires forall x :: x in ws <==> x in vs
    ensures FormOf(nfc, Obj(ms), Obj(ws))
  {
    hide MemberForm;
    forall i | 0 <= i < |ms| ensures Among(nfc, ms[i], ws) {
      assert vs[i] in ws;
      var j :| 0 <= j < |ws| && ws[j] == vs[i];
    }
    forall j | 0 <= j < |ws| ensures From(nfc, ms, ws[j]) {
      assert ws[j] in vs;
      var i :| 0 <= i < |vs| && vs[i] == ws[j];
    }
  }

  // ----- there is only one -----

  lemma {:induction false} StrictOnce(a: seq<Member>, b: seq<Member>)
    requires StrictKeys(a) && StrictKeys(b) && forall x :: x in a <==> x in b
    ensures a == b
  {
    hide LexLe;
    assert b != [] ==> b[0] in b;
    if a != [] {
      SameFirst(a, b);
      StrictTail(a);
      StrictTail(b);
      StrictOnce(a[1..], b[1..]);
      assert a == [a[0]] + a[1..] && b == [b[0]] + b[1..];
    }
  }

  lemma {:induction false} StrictTail(a: seq<Member>)
    requires StrictKeys(a) && a != []
    ensures StrictKeys(a[1..]) && forall x :: x in a[1..] <==> x in a && x != a[0]
  {
    hide LexLe;
    forall x ensures x in a[1..] <==> x in a && x != a[0] {
      if x in a && x != a[0] {
        var i :| 0 <= i < |a| && a[i] == x;
        assert a[1..][i - 1] == x;
      }
      if x in a[1..] {
        var i :| 0 <= i < |a[1..]| && a[1..][i] == x;
        assert LexLt(a[0].key, a[i + 1].key);
      }
    }
  }

  lemma {:induction false} SameFirst(a: seq<Member>, b: seq<Member>)
    requires StrictKeys(a) && StrictKeys(b) && a != [] && forall x :: x in a <==> x in b
    ensures b != [] && a[0] == b[0]
  {
    hide LexLe;
    assert a[0] in a;
    assert b != [];
    assert b[0] in b;
    var i :| 0 <= i < |a| && a[i] == b[0];
    var j :| 0 <= j < |b| && b[j] == a[0];
    if i > 0 && j > 0 {
      LexAntisymmetric(a[0].key, b[0].key);
    }
  }

  lemma {:induction false} OneForm(nfc: Text -> Text, v: Json, w: Json, x: Json)
    requires FormOf(nfc, v, w) && FormOf(nfc, v, x) && Normal(nfc, w) && Normal(nfc, x)
    ensures w == x
    decreases v
  {
    match v
    case Arr(items) =>
      forall i | 0 <= i < |items| ensures w.items[i] == x.items[i] {
        OneForm(nfc, items[i], w.items[i], x.items[i]);
      }
    case Obj(ms) =>
      forall m | m in w.members ensures m in x.members {
        SameMember(nfc, ms, w.members, x.members, m);
      }
      forall m | m in x.members ensures m in w.members {
        SameMember(nfc, ms, x.members, w.members, m);
      }
      StrictOnce(w.members, x.members);
    case _ =>
  }

  lemma {:induction false} SameMember(nfc: Text -> Text, ms: seq<Member>, a: seq<Member>, b: seq<Member>, m: Member)
    requires FormOf(nfc, Obj(ms), Obj(a)) && FormOf(nfc, Obj(ms), Obj(b))
    requires Normal(nfc, Obj(a)) && Normal(nfc, Obj(b)) && m in a
    ensures m in b
    decreases ms
  {
    hide StrictKeys, NormalText;
    var k :| 0 <= k < |a| && a[k] == m;
    assert From(nfc, ms, a[k]);
    var i :| 0 <= i < |ms| && MemberForm(nfc, ms[i], m);
    assert Among(nfc, ms[i], b);
    var j :| 0 <= j < |b| && MemberForm(nfc, ms[i], b[j]);
    OneForm(nfc, ms[i].value, m.value, b[j].value);
  }

  /** A value has a canonical form exactly when it is acceptable, and the form is the one normal
      value that is the given one up to NFC and the order of members. */
  lemma {:induction false} CanonExactly(nfc: Text -> Text, v: Json, w: Json)
    requires NfcLaws(nfc)
    ensures Canon(nfc, v) == Ok(w) <==> Acceptable(nfc, v) && Normal(nfc, w) && FormOf(nfc, v, w)
  {
    hide Canon, Acceptable, FormOf, Normal;
    CanonForm(nfc, v);
    if Canon(nfc, v).Ok? {
      CanonNormal(nfc, v);
      if Normal(nfc, w) && FormOf(nfc, v, w) {
        OneForm(nfc, v, w, Canon(nfc, v).value);
      }
    }
  }
}
