/** The field names of stored kernel records, in the order of their texts, and objects listed
    in that order. */
module RecordFields {
  import opened Orders
  import opened Utf8
  import opened Canonical
  import opened RoundTrip

  const FIELDS := 40

  datatype Field =
    | AuthorityKey | ByteEndKey | ByteStartKey | CaseKeyB64Key | CheckpointIdKey
    | CodeKey | CollectedCheckCountKey | CompletenessKey | DeclaredOutputDigestKey | DigestKey
    | DirectCauseIdsKey | EncodingKey | ExpiresAtKey | FactsKey | FieldPathKey
    | FileDigestKey | IntegrityFailureKey | InvalidatorsKey | KindKey | MessageIdKey
    | NameKey | ObservedAtKey | ObservedOutputDigestKey | PaginationCompleteKey | ParametersKey
    | PathKey | PayloadDigestKey | ProducerKey | RawB64Key | RequiredKey
    | SegmentOffsetsKey | SpanDigestKey | SubjectDigestKey | SubjectIdKey | TargetIdKey
    | TerminalStatusKey | TransitivePathKey | ValueKey | VerdictKey | VersionKey

  /** The position of a field name among all of them. */
  function Rank(f: Field): (r: int)
    ensures 0 <= r < 40
  {
    match f
    case AuthorityKey => 0
    case ByteEndKey => 1
    case ByteStartKey => 2
    case CaseKeyB64Key => 3
    case CheckpointIdKey => 4
    case CodeKey => 5
    case CollectedCheckCountKey => 6
    case CompletenessKey => 7
    case DeclaredOutputDigestKey => 8
    case DigestKey => 9
    case DirectCauseIdsKey => 10
    case EncodingKey => 11
    case ExpiresAtKey => 12
    case FactsKey => 13
    case FieldPathKey => 14
    case FileDigestKey => 15
    case IntegrityFailureKey => 16
    case InvalidatorsKey => 17
    case KindKey => 18
    case MessageIdKey => 19
    case NameKey => 20
    case ObservedAtKey => 21
    case ObservedOutputDigestKey => 22
    case PaginationCompleteKey => 23
    case ParametersKey => 24
    case PathKey => 25
    case PayloadDigestKey => 26
    case ProducerKey => 27
    case RawB64Key => 28
    case RequiredKey => 29
    case SegmentOffsetsKey => 30
    case SpanDigestKey => 31
    case SubjectDigestKey => 32
    case SubjectIdKey => 33
    case TargetIdKey => 34
    case TerminalStatusKey => 35
    case TransitivePathKey => 36
    case ValueKey => 37
    case VerdictKey => 38
    case VersionKey => 39
  }

  function FieldBelow14(n: nat): (f: Field)
    requires 0 <= n < 14
    ensures Rank(f) == n
  {
    if n == 0 then AuthorityKey
    else if n == 1 then ByteEndKey
    else if n == 2 then ByteStartKey
    else if n == 3 then CaseKeyB64Key
    else if n == 4 then CheckpointIdKey
    else if n == 5 then CodeKey
    else if n == 6 then CollectedCheckCountKey
    else if n == 7 then CompletenessKey
    else if n == 8 then DeclaredOutputDigestKey
    else if n == 9 then DigestKey
    else if n == 10 then DirectCauseIdsKey
    else if n == 11 then EncodingKey
    else if n == 12 then ExpiresAtKey
    else FactsKey
  }

  function FieldBelow27(n: nat): (f: Field)
    requires 14 <= n < 27
    ensures Rank(f) == n
  {
    if n == 14 then FieldPathKey
    else if n == 15 then FileDigestKey
    else if n == 16 then IntegrityFailureKey
    else if n == 17 then InvalidatorsKey
    else if n == 18 then KindKey
    else if n == 19 then MessageIdKey
    else if n == 20 then NameKey
    else if n == 21 then ObservedAtKey
    else if n == 22 then ObservedOutputDigestKey
    else if n == 23 then PaginationCompleteKey
    else if n == 24 then ParametersKey
    else if n == 25 then PathKey
    else PayloadDigestKey
  }

  function FieldBelow40(n: nat): (f: Field)
    requires 27 <= n < 40
    ensures Rank(f) == n
  {
    if n == 27 then ProducerKey
    else if n == 28 then RawB64Key
    else if n == 29 then RequiredKey
    else if n == 30 then SegmentOffsetsKey
    else if n == 31 then SpanDigestKey
    else if n == 32 then SubjectDigestKey
    else if n == 33 then SubjectIdKey
    else if n == 34 then TargetIdKey
    else if n == 35 then TerminalStatusKey
    else if n == 36 then TransitivePathKey
    else if n == 37 then ValueKey
    else if n == 38 then VerdictKey
    else VersionKey
  }

  function FieldAt(n: nat): (f: Field)
    requires n < FIELDS
    ensures Rank(f) == n
  {
    if n < 14 then FieldBelow14(n) else if n < 27 then FieldBelow27(n) else FieldBelow40(n)
  }

  lemma {:induction false} AtOwnRank(f: Field)
    ensures Rank(f) < 14 ==> FieldBelow14(Rank(f)) == f
    ensures 14 <= Rank(f) < 27 ==> FieldBelow27(Rank(f)) == f
    ensures 27 <= Rank(f) ==> FieldBelow40(Rank(f)) == f
  {
  }

  lemma {:induction false} RankInjective(f: Field, g: Field)
    requires Rank(f) == Rank(g)
    ensures f == g
  {
    hide Rank, FieldBelow14, FieldBelow27, FieldBelow40;
    AtOwnRank(f);
    AtOwnRank(g);
  }

  // ----- texts NFC leaves alone -----

  /** Printable ASCII. */
  predicate Plain(s: Text) {
    forall i :: 0 <= i < |s| ==> 0x20 <= s[i] < 0x80
  }

  /** NFC keeps ASCII text (Unicode Standard Annex 15). */
  ghost predicate KeepsPlain(nfc: Text -> Text) {
    forall s :: Plain(s) ==> nfc(s) == s
  }

  // ----- field names -----

  /** The texts of the field names. Only their order and that they are printable ASCII matter. */
  type Naming = Field -> Text

  ghost predicate FieldNames(key: Naming) {
    && (forall f :: Plain(key(f)))
    && forall f, g :: Rank(f) < Rank(g) ==> LexLt(key(f), key(g))
  }

  lemma {:induction false} NamesExist()
    ensures exists key: Naming :: FieldNames(key)
  {
    var key := (f: Field) => [Letter(Rank(f))];
    assert FieldNames(key);
  }

  function Letter(n: int): (c: CodePoint)
    requires 0 <= n < FIELDS
    ensures c == 65 + n
  {
    65 + n
  }

  lemma {:induction false} KeyInjective(key: Naming, f: Field, g: Field)
    requires FieldNames(key) && key(f) == key(g)
    ensures f == g
  {
    hide Rank;
    if Rank(f) == Rank(g) {
      RankInjective(f, g);
    }
  }

  // ----- objects -----

  datatype Entry = Entry(field: Field, value: Json)

  function Object(key: Naming, es: seq<Entry>): (v: Json)
    ensures v.Obj?
  {
    Obj(seq(|es|, i requires 0 <= i < |es| => Member(key(es[i].field), es[i].value)))
  }

  predicate InOrder(es: seq<Entry>) {
    forall i, j :: 0 <= i < j < |es| ==> Rank(es[i].field) < Rank(es[j].field)
  }

  /** These fields below this rank, in order. */
  function Listed(fields: set<Field>, n: nat): (fs: seq<Field>)
    requires n <= FIELDS
    ensures forall f :: f in fs <==> f in fields && Rank(f) < n
    ensures forall i, j :: 0 <= i < j < |fs| ==> Rank(fs[i]) < Rank(fs[j])
  {
    if n == 0 then []
    else
      var f := FieldAt(n - 1);
      var before := Listed(fields, n - 1);
      assert forall g :: Rank(g) == n - 1 ==> g == f by {
        forall g | Rank(g) == n - 1 ensures g == f { RankInjective(f, g); }
      }
      assert forall i :: 0 <= i < |before| ==> before[i] in before;
      if f in fields then before + [f] else before
  }

  function Entries(fields: set<Field>, value: Field -> Json): seq<Entry> {
    var fs := Listed(fields, FIELDS);
    seq(|fs|, i requires 0 <= i < |fs| => Entry(fs[i], value(fs[i])))
  }

  /** The object with these fields. */
  function Record(key: Naming, fields: set<Field>, value: Field -> Json): (v: Json)
    ensures v.Obj?
  {
    Object(key, Entries(fields, value))
  }

  /** `payload[field]`. */
  function Get(key: Naming, ms: seq<Member>, f: Field): Option<Json> {
    if ms == [] then None
    else if ms[0].key == key(f) then Some(ms[0].value)
    else Get(key, ms[1..], f)
  }

  ghost predicate Names(key: Naming, fields: set<Field>, text: Text) {
    exists f :: f in fields && key(f) == text
  }

  /** `set(payload) == {...}`. */
  ghost predicate HasFields(key: Naming, v: Json, fields: set<Field>) {
    && v.Obj?
    && (forall i :: 0 <= i < |v.members| ==> Names(key, fields, v.members[i].key))
    && forall f :: f in fields ==> HasKey(v.members, key(f))
  }

  lemma {:induction false} GetMember(key: Naming, es: seq<Entry>, ms: seq<Member>, i: nat)
    requires FieldNames(key) && InOrder(es) && i < |es| && |ms| == |es|
    requires forall j :: 0 <= j < |es| ==> ms[j] == Member(key(es[j].field), es[j].value)
    ensures Get(key, ms, es[i].field) == Some(es[i].value)
  {
    hide Rank;
    if i > 0 {
      if key(es[0].field) == key(es[i].field) {
        KeyInjective(key, es[0].field, es[i].field);
        assert false;
      }
      GetMember(key, es[1..], ms[1..], i - 1);
    }
  }

  lemma {:induction false} GetObject(key: Naming, es: seq<Entry>, i: nat)
    requires FieldNames(key) && InOrder(es) && i < |es|
    ensures Get(key, Object(key, es).members, es[i].field) == Some(es[i].value)
  {
    hide InOrder;
    GetMember(key, es, Object(key, es).members, i);
  }

  ghost function FieldsOf(es: seq<Entry>): set<Field> {
    set i | 0 <= i < |es| :: es[i].field
  }

  lemma {:induction false} ObjectHasFields(key: Naming, es: seq<Entry>)
    ensures HasFields(key, Object(key, es), FieldsOf(es))
  {
    var v := Object(key, es);
    forall i | 0 <= i < |v.members| ensures Names(key, FieldsOf(es), v.members[i].key) {
      assert es[i].field in FieldsOf(es) && key(es[i].field) == v.members[i].key;
    }
    forall f | f in FieldsOf(es) ensures HasKey(v.members, key(f)) {
      var i :| 0 <= i < |es| && es[i].field == f;
      assert v.members[i].key == key(f);
    }
  }

  /** An object listed in order whose values are normal is normal. */
  lemma {:induction false} ObjectNormal(nfc: Text -> Text, key: Naming, es: seq<Entry>)
    requires FieldNames(key) && KeepsPlain(nfc) && InOrder(es)
    requires forall i :: 0 <= i < |es| ==> Normal(nfc, es[i].value)
    ensures Normal(nfc, Object(key, es))
  {
    hide Rank, LexLt;
    var ms := Object(key, es).members;
    forall i, j | 0 <= i < j < |ms| ensures LexLt(ms[i].key, ms[j].key) {
      assert Rank(es[i].field) < Rank(es[j].field);
    }
    forall i | 0 <= i < |ms| ensures NormalText(nfc, ms[i].key) {
      assert Plain(key(es[i].field));
    }
  }

  /** Normalising an object normalises its values. */
  lemma {:induction false} NormalizeObject(nfc: Text -> Text, key: Naming, es: seq<Entry>, ns: seq<Entry>)
    requires FieldNames(key) && KeepsPlain(nfc) && InOrder(es) && |es| == |ns|
    requires forall i :: 0 <= i < |es| ==> es[i].field == ns[i].field && Normalize(nfc, es[i].value) == Ok(ns[i].value)
    ensures Normalize(nfc, Object(key, es)) == Ok(Object(key, ns))
  {
    hide Rank, Normalize;
    NormalizeListed(nfc, key, es, ns, Object(key, es).members, Object(key, ns).members);
    NormalizeUnfold(nfc, Object(key, es).members, Object(key, ns).members);
  }

  lemma {:induction false} NormalizeUnfold(nfc: Text -> Text, ms: seq<Member>, ns: seq<Member>)
    requires NormalizeMembers(nfc, ms) == Ok(ns)
    ensures Normalize(nfc, Obj(ms)) == Ok(Obj(ns))
  {
    hide NormalizeMembers;
  }

  lemma {:induction false} NormalizeListed(nfc: Text -> Text, key: Naming, es: seq<Entry>, ns: seq<Entry>,
        ms: seq<Member>, ws: seq<Member>)
    requires FieldNames(key) && KeepsPlain(nfc) && InOrder(es) && |es| == |ns| == |ms| == |ws|
    requires forall i :: 0 <= i < |es| ==> es[i].field == ns[i].field && Normalize(nfc, es[i].value) == Ok(ns[i].value)
    requires forall i :: 0 <= i < |es| ==> ms[i] == Member(key(es[i].field), es[i].value)
    requires forall i :: 0 <= i < |es| ==> ws[i] == Member(key(ns[i].field), ns[i].value)
    ensures NormalizeMembers(nfc, ms) == Ok(ws)
  {
    hide Rank, Normalize, NoControl;
    if es != [] {
      var n := |es| - 1;
      NormalizeListed(nfc, key, es[..n], ns[..n], ms[..n], ws[..n]);
      PlainString(nfc, key(es[n].field));
      NotYet(key, es, ws, n);
      assert ws == ws[..n] + [ws[n]];
    }
  }

  lemma {:induction false} PlainString(nfc: Text -> Text, s: Text)
    requires KeepsPlain(nfc) && Plain(s)
    ensures NormalizeString(nfc, s) == Ok(s) && Normal(nfc, Str(s)) && Normalize(nfc, Str(s)) == Ok(Str(s))
  {
  }

  lemma {:induction false} NotYet(key: Naming, es: seq<Entry>, ws: seq<Member>, n: nat)
    requires FieldNames(key) && InOrder(es) && n < |es| == |ws|
    requires forall i :: 0 <= i < |es| ==> ws[i].key == key(es[i].field)
    ensures !HasKey(ws[..n], key(es[n].field))
  {
    forall i | 0 <= i < n ensures ws[..n][i].key != key(es[n].field) {
      if key(es[i].field) == key(es[n].field) {
        KeyInjective(key, es[i].field, es[n].field);
        assert false;
      }
    }
  }

  // ----- objects given by a set of fields and their values -----

  lemma {:induction false} GetField(key: Naming, fields: set<Field>, value: Field -> Json, f: Field)
    requires FieldNames(key) && f in fields
    ensures Get(key, Record(key, fields, value).members, f) == Some(value(f))
  {
    hide Rank, Listed, Object;
    var fs := Listed(fields, FIELDS);
    var i :| 0 <= i < |fs| && fs[i] == f;
    GetObject(key, Entries(fields, value), i);
  }

  lemma {:induction false} RecordHasFields(key: Naming, fields: set<Field>, value: Field -> Json)
    ensures HasFields(key, Record(key, fields, value), fields)
  {
    hide Rank, Listed, Object;
    var es := Entries(fields, value);
    ObjectHasFields(key, es);
    forall f | f in fields ensures f in FieldsOf(es) {
      var i :| 0 <= i < |es| && Listed(fields, FIELDS)[i] == f;
      assert es[i].field == f;
    }
    assert FieldsOf(es) == fields;
  }

  lemma {:induction false} RecordNormal(nfc: Text -> Text, key: Naming, fields: set<Field>, value: Field -> Json)
    requires FieldNames(key) && KeepsPlain(nfc) && forall f :: f in fields ==> Normal(nfc, value(f))
    ensures Normal(nfc, Record(key, fields, value))
  {
    hide Rank, Listed, Object, Normal;
    var fs := Listed(fields, FIELDS);
    assert forall i :: 0 <= i < |fs| ==> fs[i] in fs;
    ObjectNormal(nfc, key, Entries(fields, value));
  }

  lemma {:induction false} NormalizeRecord(nfc: Text -> Text, key: Naming, fields: set<Field>, value: Field -> Json,
        normal: Field -> Json)
    requires FieldNames(key) && KeepsPlain(nfc)
    requires forall f :: f in fields ==> Normalize(nfc, value(f)) == Ok(normal(f))
    ensures Normalize(nfc, Record(key, fields, value)) == Ok(Record(key, fields, normal))
  {
    hide Rank, Listed, Object, Normalize;
    var fs := Listed(fields, FIELDS);
    assert forall i :: 0 <= i < |fs| ==> fs[i] in fs;
    NormalizeObject(nfc, key, Entries(fields, value), Entries(fields, normal));
  }
}
