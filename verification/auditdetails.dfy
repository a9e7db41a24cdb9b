/** The bounded public vocabulary of audit-event details (store/base.py). */
module AuditDetails {
  import opened Orders
  import opened Utf8
  import opened Canonical
  import opened RoundTrip
  import LogicalTime

  /** Every refusal is the same exception; its message is not modelled. */
  datatype DetailError = StoreValidationError

  const MAX_DEPTH := 8
  const MAX_ITEMS := 64

  datatype DetailKey = Count | DigestKey | Digests | Flag | Items | LogicalTimeKey | RecordIdKey | RecordIds | Sequence

  /** The key a text names, if it is in the vocabulary. */
  function Vocabulary(key: Text): Option<DetailKey> {
    if key == [99, 111, 117, 110, 116] then Some(Count)
    else if key == [100, 105, 103, 101, 115, 116] then Some(DigestKey)
    else if key == [100, 105, 103, 101, 115, 116, 115] then Some(Digests)
    else if key == [102, 108, 97, 103] then Some(Flag)
    else if key == [105, 116, 101, 109, 115] then Some(Items)
    else if key == [108, 111, 103, 105, 99, 97, 108, 95, 116, 105, 109, 101] then Some(LogicalTimeKey)
    else if key == [114, 101, 99, 111, 114, 100, 95, 105, 100] then Some(RecordIdKey)
    else if key == [114, 101, 99, 111, 114, 100, 95, 105, 100, 115] then Some(RecordIds)
    else if key == [115, 101, 113, 117, 101, 110, 99, 101] then Some(Sequence)
    else None
  }

  predicate LowerHex(c: int) { 48 <= c < 58 || 97 <= c < 103 }

  /** `require_digest`: the text sha256: and 64 lower-case hexadecimal digits. */
  predicate IsDigest(t: Text) {
    |t| == 71 && t[..7] == [115, 104, 97, 50, 53, 54, 58] && forall i :: 7 <= i < 71 ==> LowerHex(t[i])
  }

  predicate ComponentChar(c: int) {
    48 <= c < 58 || 65 <= c < 91 || 97 <= c < 123
  }

  /** `require_public_component`. */
  predicate PublicComponent(t: Text) {
    1 <= |t| <= 128 && ComponentChar(t[0]) &&
    forall i :: 1 <= i < |t| ==> ComponentChar(t[i]) || t[i] in {43, 45, 46, 47, 58, 95}
  }

  /** What lists are sorted by: a digest's text, or an item's canonical bytes. */
  function ListKey(nfc: Text -> Text, v: Json): seq<int> {
    if v.Str? then v.s
    else match CanonicalBytes(nfc, v)
      case Ok(data) => data
      case Err(_) => []
  }

  function InsertByKey(nfc: Text -> Text, v: Json, vs: seq<Json>): (r: seq<Json>)
    ensures |r| == |vs| + 1
  {
    if vs == [] || LexLe(ListKey(nfc, v), ListKey(nfc, vs[0])) then [v] + vs
    else [vs[0]] + InsertByKey(nfc, v, vs[1..])
  }

  function SortByKey(nfc: Text -> Text, vs: seq<Json>): (r: seq<Json>)
    ensures |r| == |vs|
  {
    if vs == [] then [] else InsertByKey(nfc, vs[0], SortByKey(nfc, vs[1..]))
  }

  predicate DistinctKeys(nfc: Text -> Text, vs: seq<Json>) {
    forall i, j :: 0 <= i < j < |vs| ==> ListKey(nfc, vs[i]) != ListKey(nfc, vs[j])
  }

  /** One field of a details object. */
  function NormalizeField(nfc: Text -> Text, m: Member, depth: nat): Result<Json, DetailError>
    decreases m, 2
  {
    match Vocabulary(m.key)
    case None => Err(StoreValidationError)
    case Some(DigestKey) => if m.value.Str? && IsDigest(m.value.s) then Ok(m.value) else Err(StoreValidationError)
    case Some(RecordIdKey) => if m.value.Str? && IsDigest(m.value.s) then Ok(m.value) else Err(StoreValidationError)
    case Some(Digests) => NormalizeDigests(nfc, m.value)
    case Some(RecordIds) => NormalizeDigests(nfc, m.value)
    case Some(LogicalTimeKey) =>
      if m.value.Str? && LogicalTime.Validate(m.value.s).Ok? then Ok(m.value) else Err(StoreValidationError)
    case Some(Count) => if m.value.Integer? && m.value.i >= 0 then Ok(m.value) else Err(StoreValidationError)
    case Some(Sequence) => if m.value.Integer? && m.value.i >= 0 then Ok(m.value) else Err(StoreValidationError)
    case Some(Flag) => if m.value.Boolean? then Ok(m.value) else Err(StoreValidationError)
    case Some(Items) =>
      if !m.value.Arr? || |m.value.items| > MAX_ITEMS then Err(StoreValidationError)
      else
        match NormalizeEntries(nfc, m.value.items, depth + 1)
        case Err(e) => Err(e)
        case Ok(entries) =>
          if DistinctKeys(nfc, entries) then Ok(Arr(SortByKey(nfc, entries))) else Err(StoreValidationError)
  }

  function NormalizeDigests(nfc: Text -> Text, v: Json): Result<Json, DetailError> {
    if !v.Arr? || |v.items| > MAX_ITEMS then Err(StoreValidationError)
    else if exists i :: 0 <= i < |v.items| && !(v.items[i].Str? && IsDigest(v.items[i].s)) then Err(StoreValidationError)
    else if !DistinctKeys(nfc, v.items) then Err(StoreValidationError)
    else Ok(Arr(SortByKey(nfc, v.items)))
  }

  function NormalizeEntries(nfc: Text -> Text, vs: seq<Json>, depth: nat): (r: Result<seq<Json>, DetailError>)
    ensures r.Ok? ==> |r.value| == |vs|
    decreases vs, 0
  {
    if vs == [] then Ok([])
    else
      var n := |vs| - 1;
      match NormalizeEntries(nfc, vs[..n], depth)
      case Err(e) => Err(e)
      case Ok(before) =>
        match NormalizeDetails(nfc, vs[n], depth)
        case Err(e) => Err(e)
        case Ok(entry) => Ok(before + [entry])
  }

  function NormalizeFields(nfc: Text -> Text, ms: seq<Member>, depth: nat): (r: Result<seq<Member>, DetailError>)
    ensures r.Ok? ==> |r.value| == |ms| && forall i :: 0 <= i < |ms| ==> r.value[i].key == ms[i].key
    decreases ms, 0
  {
    if ms == [] then Ok([])
    else
      var n := |ms| - 1;
      match NormalizeFields(nfc, ms[..n], depth)
      case Err(e) => Err(e)
      case Ok(before) =>
        match NormalizeField(nfc, ms[n], depth)
        case Err(e) => Err(e)
        case Ok(value) => Ok(before + [Member(ms[n].key, value)])
  }

  /** `_normalize_audit_details`: fields come out in key order. */
  function NormalizeDetails(nfc: Text -> Text, v: Json, depth: nat): Result<Json, DetailError>
    decreases v, 1
  {
    if depth > MAX_DEPTH then Err(StoreValidationError)
    else if !v.Obj? || !UniqueKeys(v.members) then Err(StoreValidationError)
    else if |v.members| > MAX_ITEMS then Err(StoreValidationError)
    else if exists i :: 0 <= i < |v.members| && Vocabulary(v.members[i].key).None? then Err(StoreValidationError)
    else
      match NormalizeFields(nfc, v.members, depth)
      case Err(e) => Err(e)
      case Ok(fields) => Ok(Obj(SortMembers(fields)))
  }

  // ----- normalising twice changes nothing -----

  ghost predicate StrictlyKeyed(nfc: Text -> Text, vs: seq<Json>) {
    forall i, j :: 0 <= i < j < |vs| ==> LexLt(ListKey(nfc, vs[i]), ListKey(nfc, vs[j]))
  }

  lemma {:induction false} InsertByKeyStrict(nfc: Text -> Text, v: Json, vs: seq<Json>)
    requires StrictlyKeyed(nfc, vs) && forall i :: 0 <= i < |vs| ==> ListKey(nfc, vs[i]) != ListKey(nfc, v)
    ensures StrictlyKeyed(nfc, InsertByKey(nfc, v, vs))
    ensures forall x :: x in InsertByKey(nfc, v, vs) <==> x == v || x in vs
  {
    hide LexLe, ListKey;
    var r := InsertByKey(nfc, v, vs);
    if vs == [] {
    } else if LexLe(ListKey(nfc, v), ListKey(nfc, vs[0])) {
      forall j | 1 <= j < |r| ensures LexLt(ListKey(nfc, v), ListKey(nfc, r[j])) {
        if j > 1 { LexLtTransitive(ListKey(nfc, v), ListKey(nfc, vs[0]), ListKey(nfc, vs[j - 1])); }
      }
    } else {
      LexTotal(ListKey(nfc, v), ListKey(nfc, vs[0]));
      InsertByKeyStrict(nfc, v, vs[1..]);
      var t := InsertByKey(nfc, v, vs[1..]);
      assert vs == [vs[0]] + vs[1..];
      forall j | 0 <= j < |t| ensures LexLt(ListKey(nfc, vs[0]), ListKey(nfc, t[j])) {
        assert t[j] in t;
        if t[j] != v { var i :| 0 <= i < |vs[1..]| && vs[1..][i] == t[j]; }
      }
    }
  }

  lemma {:induction false} SortByKeyStrict(nfc: Text -> Text, vs: seq<Json>)
    requires DistinctKeys(nfc, vs)
    ensures StrictlyKeyed(nfc, SortByKey(nfc, vs))
    ensures forall x :: x in SortByKey(nfc, vs) <==> x in vs
  {
    hide ListKey;
    if vs != [] {
      SortByKeyStrict(nfc, vs[1..]);
      var t := SortByKey(nfc, vs[1..]);
      assert vs == [vs[0]] + vs[1..];
      forall i | 0 <= i < |t| ensures ListKey(nfc, t[i]) != ListKey(nfc, vs[0]) {
        assert t[i] in vs[1..];
      }
      InsertByKeyStrict(nfc, vs[0], t);
    }
  }

  lemma {:induction false} SortByKeyFixed(nfc: Text -> Text, vs: seq<Json>)
    requires StrictlyKeyed(nfc, vs)
    ensures SortByKey(nfc, vs) == vs && DistinctKeys(nfc, vs)
  {
    hide ListKey;
    if vs != [] {
      SortByKeyFixed(nfc, vs[1..]);
      assert vs == [vs[0]] + vs[1..];
      if |vs| > 1 { assert LexLt(ListKey(nfc, vs[0]), ListKey(nfc, vs[1])); }
    }
  }

  lemma {:induction false} DigestsFixed(nfc: Text -> Text, v: Json)
    requires NormalizeDigests(nfc, v).Ok?
    ensures NormalizeDigests(nfc, NormalizeDigests(nfc, v).value) == NormalizeDigests(nfc, v)
  {
    hide ListKey, SortByKey, LexLe, IsDigest;
    SortByKeyStrict(nfc, v.items);
    var r := SortByKey(nfc, v.items);
    SortByKeyFixed(nfc, r);
    forall i | 0 <= i < |r| ensures r[i].Str? && IsDigest(r[i].s) {
      assert r[i] in v.items;
    }
  }

  lemma {:induction false} FieldFixed(nfc: Text -> Text, m: Member, depth: nat)
    requires NormalizeField(nfc, m, depth).Ok?
    ensures var w := NormalizeField(nfc, m, depth).value;
      NormalizeField(nfc, Member(m.key, w), depth) == Ok(w)
    decreases m, 2
  {
    hide ListKey, SortByKey, LexLe, IsDigest, NormalizeDigests, NormalizeEntries, Vocabulary;
    match Vocabulary(m.key)
    case Some(Digests) => DigestsFixed(nfc, m.value);
    case Some(RecordIds) => DigestsFixed(nfc, m.value);
    case Some(Items) =>
      EntriesFixed(nfc, m.value.items, depth + 1);
      var entries := NormalizeEntries(nfc, m.value.items, depth + 1).value;
      var r := SortByKey(nfc, entries);
      SortByKeyStrict(nfc, entries);
      SortByKeyFixed(nfc, r);
      forall i | 0 <= i < |r| ensures NormalizeDetails(nfc, r[i], depth + 1) == Ok(r[i]) {
        assert r[i] in entries;
      }
      FixedEntries(nfc, r, depth + 1);
    case _ =>
  }

  lemma {:induction false} EntriesFixed(nfc: Text -> Text, vs: seq<Json>, depth: nat)
    requires NormalizeEntries(nfc, vs, depth).Ok?
    ensures forall e :: e in NormalizeEntries(nfc, vs, depth).value ==> NormalizeDetails(nfc, e, depth) == Ok(e)
    decreases vs, 0
  {
    hide NormalizeDetails;
    if vs != [] {
      EntriesFixed(nfc, vs[..|vs| - 1], depth);
      DetailsFixed(nfc, vs[|vs| - 1], depth);
    }
  }

  lemma {:induction false} FixedEntries(nfc: Text -> Text, vs: seq<Json>, depth: nat)
    requires forall i :: 0 <= i < |vs| ==> NormalizeDetails(nfc, vs[i], depth) == Ok(vs[i])
    ensures NormalizeEntries(nfc, vs, depth) == Ok(vs)
  {
    hide NormalizeDetails;
    if vs != [] {
      FixedEntries(nfc, vs[..|vs| - 1], depth);
      assert vs == vs[..|vs| - 1] + [vs[|vs| - 1]];
    }
  }

  lemma {:induction false} FieldsFixed(nfc: Text -> Text, ms: seq<Member>, depth: nat)
    requires NormalizeFields(nfc, ms, depth).Ok?
    ensures forall f :: f in NormalizeFields(nfc, ms, depth).value ==> NormalizeField(nfc, f, depth) == Ok(f.value)
    decreases ms, 0
  {
    hide NormalizeField;
    if ms != [] {
      FieldsFixed(nfc, ms[..|ms| - 1], depth);
      FieldFixed(nfc, ms[|ms| - 1], depth);
    }
  }

  lemma {:induction false} FixedFields(nfc: Text -> Text, ms: seq<Member>, depth: nat)
    requires forall i :: 0 <= i < |ms| ==> NormalizeField(nfc, ms[i], depth) == Ok(ms[i].value)
    ensures NormalizeFields(nfc, ms, depth) == Ok(ms)
  {
    hide NormalizeField;
    if ms != [] {
      FixedFields(nfc, ms[..|ms| - 1], depth);
      assert ms == ms[..|ms| - 1] + [ms[|ms| - 1]];
    }
  }

  lemma {:induction false} VocabularyOfFields(nfc: Text -> Text, ms: seq<Member>, depth: nat)
    requires forall i :: 0 <= i < |ms| ==> NormalizeField(nfc, ms[i], depth).Ok?
    ensures forall i :: 0 <= i < |ms| ==> Vocabulary(ms[i].key).Some?
  {
    hide Vocabulary, NormalizeDigests, NormalizeEntries, IsDigest;
  }

  lemma {:induction false} SortedKeysUnique(ms: seq<Member>)
    requires StrictKeys(ms)
    ensures UniqueKeys(ms)
  {
    hide LexLe;
  }

  /** Normalised details are left as they are by a second normalisation, which is what replay
      verification checks of every stored event. */
  lemma {:induction false} DetailsFixed(nfc: Text -> Text, v: Json, depth: nat)
    requires NormalizeDetails(nfc, v, depth).Ok?
    ensures NormalizeDetails(nfc, NormalizeDetails(nfc, v, depth).value, depth) == NormalizeDetails(nfc, v, depth)
    decreases v, 1
  {
    hide NormalizeField, NormalizeFields, SortMembers, LexLe, Vocabulary, UniqueKeys, StrictKeys;
    var fields := NormalizeFields(nfc, v.members, depth).value;
    FieldsFixed(nfc, v.members, depth);
    SameKeysUnique(v.members, fields);
    SortMembersStrict(fields);
    var r := SortMembers(fields);
    forall i | 0 <= i < |r| ensures NormalizeField(nfc, r[i], depth) == Ok(r[i].value) {
      assert r[i] in fields;
    }
    FixedFields(nfc, r, depth);
    VocabularyOfFields(nfc, r, depth);
    SortMembersFixed(r);
    SortedKeysUnique(r);
  }

  lemma {:induction false} SameKeysUnique(ms: seq<Member>, fs: seq<Member>)
    requires UniqueKeys(ms) && |fs| == |ms| && forall i :: 0 <= i < |ms| ==> fs[i].key == ms[i].key
    ensures UniqueKeys(fs)
  {
  }

  // ----- normalising keeps every value -----

  /** The same value up to the order of members and of list items. */
  ghost predicate Rearranged(v: Json, w: Json)
    decreases v, 0
  {
    match v
    case Obj(ms) =>
      && w.Obj? && |w.members| == |ms|
      && (forall i :: 0 <= i < |ms| ==> MemberAmong(ms[i], w.members))
      && (forall j :: 0 <= j < |w.members| ==> MemberFrom(ms, w.members[j]))
    case Arr(vs) =>
      && w.Arr? && |w.items| == |vs|
      && (forall i :: 0 <= i < |vs| ==> ItemAmong(vs[i], w.items))
      && (forall j :: 0 <= j < |w.items| ==> ItemFrom(vs, w.items[j]))
    case _ => v == w
  }

  ghost predicate ItemAmong(v: Json, ws: seq<Json>)
    decreases v, 1
  {
    exists j :: 0 <= j < |ws| && Rearranged(v, ws[j])
  }

  ghost predicate ItemFrom(vs: seq<Json>, w: Json)
    decreases vs, 0
  {
    exists i :: 0 <= i < |vs| && Rearranged(vs[i], w)
  }

  ghost predicate MemberAmong(m: Member, ws: seq<Member>)
    decreases m, 1
  {
    exists j :: 0 <= j < |ws| && ws[j].key == m.key && Rearranged(m.value, ws[j].value)
  }

  ghost predicate MemberFrom(ms: seq<Member>, w: Member)
    decreases ms, 0
  {
    exists i :: 0 <= i < |ms| && ms[i].key == w.key && Rearranged(ms[i].value, w.value)
  }

  lemma {:induction false} TextRearranged(v: Json)
    requires !v.Arr? && !v.Obj?
    ensures Rearranged(v, v)
  {
  }

  /** Items rearranged one by one and then put in another order. */
  lemma {:induction false} ItemsRearranged(vs: seq<Json>, es: seq<Json>, ws: seq<Json>)
    requires |vs| == |es| == |ws| && forall i :: 0 <= i < |vs| ==> Rearranged(vs[i], es[i])
    requires forall x :: x in ws <==> x in es
    ensures Rearranged(Arr(vs), Arr(ws))
  {
    forall i | 0 <= i < |vs| ensures ItemAmong(vs[i], ws) {
      assert es[i] in ws;
      var j :| 0 <= j < |ws| && ws[j] == es[i];
    }
    forall j | 0 <= j < |ws| ensures ItemFrom(vs, ws[j]) {
      assert ws[j] in es;
      var i :| 0 <= i < |es| && es[i] == ws[j];
    }
  }

  lemma {:induction false} MembersRearranged(ms: seq<Member>, fs: seq<Member>, ws: seq<Member>)
    requires |ms| == |fs| == |ws|
    requires forall i :: 0 <= i < |ms| ==> fs[i].key == ms[i].key && Rearranged(ms[i].value, fs[i].value)
    requires forall x :: x in ws <==> x in fs
    ensures Rearranged(Obj(ms), Obj(ws))
  {
    forall i | 0 <= i < |ms| ensures MemberAmong(ms[i], ws) {
      assert fs[i] in ws;
      var j :| 0 <= j < |ws| && ws[j] == fs[i];
    }
    forall j | 0 <= j < |ws| ensures MemberFrom(ms, ws[j]) {
      assert ws[j] in fs;
      var i :| 0 <= i < |fs| && fs[i] == ws[j];
    }
  }

  lemma {:induction false} DigestsKept(nfc: Text -> Text, v: Json)
    requires NormalizeDigests(nfc, v).Ok?
    ensures Rearranged(v, NormalizeDigests(nfc, v).value)
  {
    hide ListKey, SortByKey, IsDigest, Rearranged;
    SortByKeyStrict(nfc, v.items);
    forall i | 0 <= i < |v.items| ensures Rearranged(v.items[i], v.items[i]) {
      TextRearranged(v.items[i]);
    }
    ItemsRearranged(v.items, v.items, SortByKey(nfc, v.items));
    assert v == Arr(v.items);
  }

  lemma {:induction false} FieldKept(nfc: Text -> Text, m: Member, depth: nat)
    requires NormalizeField(nfc, m, depth).Ok?
    ensures Rearranged(m.value, NormalizeField(nfc, m, depth).value)
    decreases m, 2
  {
    hide ListKey, SortByKey, IsDigest, NormalizeDigests, NormalizeEntries, Vocabulary, Rearranged, DistinctKeys;
    match Vocabulary(m.key)
    case Some(Digests) => DigestsKept(nfc, m.value);
    case Some(RecordIds) => DigestsKept(nfc, m.value);
    case Some(Items) =>
      EntriesKept(nfc, m.value.items, depth + 1);
      var entries := NormalizeEntries(nfc, m.value.items, depth + 1).value;
      SortByKeyStrict(nfc, entries);
      ItemsRearranged(m.value.items, entries, SortByKey(nfc, entries));
    case _ => TextRearranged(m.value);
  }

  lemma {:induction false} EntriesKept(nfc: Text -> Text, vs: seq<Json>, depth: nat)
    requires NormalizeEntries(nfc, vs, depth).Ok?
    ensures var es := NormalizeEntries(nfc, vs, depth).value; forall i :: 0 <= i < |vs| ==> Rearranged(vs[i], es[i])
    decreases vs, 0
  {
    hide NormalizeDetails, Rearranged;
    if vs != [] {
      EntriesKept(nfc, vs[..|vs| - 1], depth);
      DetailsKept(nfc, vs[|vs| - 1], depth);
    }
  }

  lemma {:induction false} FieldsKept(nfc: Text -> Text, ms: seq<Member>, depth: nat)
    requires NormalizeFields(nfc, ms, depth).Ok?
    ensures var fs := NormalizeFields(nfc, ms, depth).value;
      forall i :: 0 <= i < |ms| ==> Rearranged(ms[i].value, fs[i].value)
    decreases ms, 0
  {
    hide NormalizeField, Rearranged;
    if ms != [] {
      FieldsKept(nfc, ms[..|ms| - 1], depth);
      FieldKept(nfc, ms[|ms| - 1], depth);
    }
  }

  /** Normalised details are the given ones with members and list items in another order. */
  lemma {:induction false} DetailsKept(nfc: Text -> Text, v: Json, depth: nat)
    requires NormalizeDetails(nfc, v, depth).Ok?
    ensures Rearranged(v, NormalizeDetails(nfc, v, depth).value)
    decreases v, 1
  {
    hide NormalizeField, NormalizeFields, SortMembers, Vocabulary, UniqueKeys, StrictKeys, Rearranged;
    var fields := NormalizeFields(nfc, v.members, depth).value;
    FieldsKept(nfc, v.members, depth);
    SameKeysUnique(v.members, fields);
    SortMembersStrict(fields);
    MembersRearranged(v.members, fields, SortMembers(fields));
    assert v == Obj(v.members);
  }
}
