/** Encoding and decoding kernel records undo each other. */
module RecordLaws {
  import opened Orders
  import opened Utf8
  import opened Canonical
  import opened RoundTrip
  import opened RecordFields
  import opened KernelRecords
  import AuditDetails
  import LogicalTime

  // ----- producers, facts, invalidators -----

  lemma {:induction false} FieldRead(k: Codec, fields: set<Field>, value: Field -> Json, f: Field)
    requires CodecLaws(k) && f in fields
    ensures HasFields(k.key, Record(k.key, fields, value), fields)
    ensures Get(k.key, Record(k.key, fields, value).members, f) == Some(value(f))
  {
    hide Record, Get, CodecLaws, HasFields, FieldNames;
    LawsOf(k);
    RecordHasFields(k.key, fields, value);
    GetField(k.key, fields, value, f);
  }

  lemma {:induction false} ComponentsPlain(t: Text)
    requires FieldComponent(t) || AuditDetails.PublicComponent(t)
    ensures Plain(t)
  {
  }

  lemma {:induction false} ProducerRead(k: Codec, p: Producer)
    requires CodecLaws(k) && ProducerOk(p)
    ensures ProducerFromPayload(k, Some(ProducerPayload(k, p))) == Some(p)
  {
    hide Record, Get, CodecLaws, HasFields, ProducerOk;
    var value := (f: Field) => ProducerField(p, f);
    FieldRead(k, PRODUCER_FIELDS, value, NameKey);
    FieldRead(k, PRODUCER_FIELDS, value, VersionKey);
    FieldRead(k, PRODUCER_FIELDS, value, DigestKey);
  }

  lemma {:induction false} ProducerNormal(k: Codec, p: Producer)
    requires CodecLaws(k) && ProducerOk(p)
    ensures Normal(k.nfc, ProducerPayload(k, p))
  {
    hide Record, CodecLaws, FieldNames, Normal, AuditDetails.PublicComponent, AuditDetails.IsDigest, Plain;
    LawsOf(k);
    forall f | f in PRODUCER_FIELDS ensures Normal(k.nfc, ProducerField(p, f)) {
      ComponentsPlain(p.name);
      ComponentsPlain(p.version);
      DigestPlain(p.digest);
      PlainFixed(k, ProducerField(p, f));
    }
    RecordNormal(k.nfc, k.key, PRODUCER_FIELDS, f => ProducerField(p, f));
  }

  lemma {:induction false} FactRead(k: Codec, x: Fact)
    requires CodecLaws(k) && FactOk(x)
    ensures FactFromPayload(k, FactPayload(k, x)) == Some(x)
  {
    hide Record, Get, CodecLaws, HasFields, FactOk, ReadAll;
    var value := (f: Field) => FactField(x, f);
    FieldRead(k, FACT_FIELDS, value, FieldPathKey);
    FieldRead(k, FACT_FIELDS, value, ValueKey);
    ReadAllWritten(Texts(x.fieldPath), TextItem, x.fieldPath);
  }

  /** The fact as it is stored: a text value in NFC. */
  function NormalFact(nfc: Text -> Text, x: Fact): Fact {
    if x.value.Str? then x.(value := Str(nfc(x.value.s))) else x
  }

  lemma {:induction false} FactNormalized(k: Codec, x: Fact)
    requires CodecLaws(k) && FactOk(x)
    ensures FactOk(NormalFact(k.nfc, x))
    ensures Normalize(k.nfc, FactPayload(k, x)) == Ok(FactPayload(k, NormalFact(k.nfc, x)))
    ensures Normal(k.nfc, FactPayload(k, NormalFact(k.nfc, x)))
  {
    hide Record, FieldNames, Normal, FieldComponent, Plain, Normalize;
    var n := NormalFact(k.nfc, x);
    LawsOf(k);
    FactPathNormal(k, x);
    FactValueNormal(k, x);
    assert forall f :: f in FACT_FIELDS ==> Normalize(k.nfc, FactField(x, f)) == Ok(FactField(n, f)) && Normal(k.nfc, FactField(n, f));
    NormalizeRecord(k.nfc, k.key, FACT_FIELDS, f => FactField(x, f), f => FactField(n, f));
    RecordNormal(k.nfc, k.key, FACT_FIELDS, f => FactField(n, f));
  }

  lemma {:induction false} FactPathNormal(k: Codec, x: Fact)
    requires CodecLaws(k) && FactOk(x)
    ensures Normal(k.nfc, Arr(Texts(x.fieldPath))) && Normalize(k.nfc, Arr(Texts(x.fieldPath))) == Ok(Arr(Texts(x.fieldPath)))
  {
    hide CodecLaws, FieldComponent, Plain, Normalize;
    var ts := Texts(x.fieldPath);
    forall i | 0 <= i < |ts| ensures Normal(k.nfc, ts[i]) {
      ComponentsPlain(x.fieldPath[i]);
      PlainFixed(k, ts[i]);
    }
    NormalFixed(k.nfc, Arr(ts));
  }

  lemma {:induction false} FactValueNormal(k: Codec, x: Fact)
    requires CodecLaws(k) && FactOk(x)
    ensures var n := NormalFact(k.nfc, x);
      && Normalize(k.nfc, x.value) == Ok(n.value) && Normal(k.nfc, n.value)
      && (x.value.Str? ==> NoControl(n.value.s))
  {
    hide FieldNames, FieldComponent, KeepsPlain;
  }

  lemma {:induction false} InvalidatorRead(k: Codec, x: Invalidator)
    requires CodecLaws(k) && InvalidatorOk(x)
    ensures InvalidatorFromPayload(k, InvalidatorPayload(k, x)) == Some(x)
  {
    hide Record, Get, CodecLaws, HasFields, WordOf, AuditDetails.IsDigest;
    var value := (f: Field) => InvalidatorField(k, x, f);
    FieldRead(k, INVALIDATOR_FIELDS, value, KindKey);
    FieldRead(k, INVALIDATOR_FIELDS, value, RequiredKey);
    FieldRead(k, INVALIDATOR_FIELDS, value, SubjectIdKey);
    assert VOCABULARIES[4] == INVALIDATORS;
    WordRead(k, INVALIDATORS, x.kind);
  }

  lemma {:induction false} WordPlain(k: Codec, w: Word)
    requires CodecLaws(k)
    ensures Plain(k.word(w))
  {
    hide FieldNames, KeepsPlain, NfcLaws;
  }

  lemma {:induction false} InvalidatorNormal(k: Codec, x: Invalidator)
    requires CodecLaws(k) && InvalidatorOk(x)
    ensures Normal(k.nfc, InvalidatorPayload(k, x))
    ensures Normalize(k.nfc, InvalidatorPayload(k, x)) == Ok(InvalidatorPayload(k, x))
  {
    hide Record, CodecLaws, FieldNames, Normal, AuditDetails.IsDigest, Plain;
    LawsOf(k);
    forall f | f in INVALIDATOR_FIELDS ensures Normal(k.nfc, InvalidatorField(k, x, f)) {
      WordPlain(k, x.kind);
      DigestPlain(x.subjectId);
      PlainFixed(k, InvalidatorField(k, x, f));
    }
    RecordNormal(k.nfc, k.key, INVALIDATOR_FIELDS, f => InvalidatorField(k, x, f));
    NormalFixed(k.nfc, InvalidatorPayload(k, x));
  }

  // ----- evidence as it is stored -----

  function NormalFacts(nfc: Text -> Text, xs: seq<Fact>): (ns: seq<Fact>)
    ensures |ns| == |xs| && forall i :: 0 <= i < |xs| ==> ns[i] == NormalFact(nfc, xs[i])
  {
    seq(|xs|, i requires 0 <= i < |xs| => NormalFact(nfc, xs[i]))
  }

  function NormalEvidence(nfc: Text -> Text, e: Evidence): Evidence {
    e.(facts := NormalFacts(nfc, e.facts))
  }

  predicate FactTextsNormal(nfc: Text -> Text, e: Evidence) {
    forall i :: 0 <= i < |e.facts| && e.facts[i].value.Str? ==> nfc(e.facts[i].value.s) == e.facts[i].value.s
  }

  lemma {:induction false} NormalEvidenceFixed(nfc: Text -> Text, e: Evidence)
    ensures NormalEvidence(nfc, e) == e <==> FactTextsNormal(nfc, e)
  {
    var n := NormalEvidence(nfc, e);
    if FactTextsNormal(nfc, e) {
      forall i | 0 <= i < |e.facts| ensures n.facts[i] == e.facts[i] {
      }
      assert n.facts == e.facts;
    } else {
      var i :| 0 <= i < |e.facts| && e.facts[i].value.Str? && nfc(e.facts[i].value.s) != e.facts[i].value.s;
      assert n.facts[i] != e.facts[i];
    }
  }

  lemma {:induction false} SameBytes(nfc: Text -> Text, v: Json, n: Json)
    requires Normalize(nfc, v) == Ok(n) && Normal(nfc, n)
    ensures CanonicalBytes(nfc, v) == CanonicalBytes(nfc, n) && CanonicalBytes(nfc, v).Ok?
    ensures Canon(nfc, v) == Ok(n)
  {
    hide Normal, Dump, SortKeys;
    NormalFixed(nfc, n);
  }

  lemma {:induction false} FactsNormal(k: Codec, xs: seq<Fact>)
    requires CodecLaws(k) && forall i :: 0 <= i < |xs| ==> FactOk(xs[i])
    ensures var ns := NormalFacts(k.nfc, xs);
      && Normalize(k.nfc, Arr(FactPayloads(k, xs))) == Ok(Arr(FactPayloads(k, ns)))
      && Normal(k.nfc, Arr(FactPayloads(k, ns)))
      && (forall i :: 0 <= i < |ns| ==> FactOk(ns[i]))
      && (CanonicalItems(k.nfc, FactPayloads(k, xs)) <==> CanonicalItems(k.nfc, FactPayloads(k, ns)))
      && FactsOf(k, Some(Arr(FactPayloads(k, ns)))) == Some(ns)
  {
    hide CodecLaws, FactOk, FactPayload, CanonicalBytes, Normalize, FactFromPayload, LexLt;
    var ns := NormalFacts(k.nfc, xs);
    var vs, ws := FactPayloads(k, xs), FactPayloads(k, ns);
    forall i | 0 <= i < |xs|
      ensures FactOk(ns[i]) && Normalize(k.nfc, vs[i]) == Ok(ws[i]) && Normal(k.nfc, ws[i])
      ensures CanonicalBytes(k.nfc, vs[i]) == CanonicalBytes(k.nfc, ws[i])
      ensures FactFromPayload(k, ws[i]) == Some(ns[i])
    {
      FactNormalized(k, xs[i]);
      SameBytes(k.nfc, vs[i], ws[i]);
      FactRead(k, ns[i]);
    }
    NormalizeAll(k.nfc, vs, ws);
    ReadAllWritten(ws, x => FactFromPayload(k, x), ns);
  }

  lemma {:induction false} InvalidatorsNormal(k: Codec, xs: seq<Invalidator>)
    requires CodecLaws(k) && forall i :: 0 <= i < |xs| ==> InvalidatorOk(xs[i])
    ensures Normal(k.nfc, Arr(InvalidatorPayloads(k, xs)))
    ensures Normalize(k.nfc, Arr(InvalidatorPayloads(k, xs))) == Ok(Arr(InvalidatorPayloads(k, xs)))
    ensures InvalidatorsOf(k, Some(Arr(InvalidatorPayloads(k, xs)))) == Some(xs)
  {
    hide CodecLaws, InvalidatorOk, InvalidatorPayload, Normalize, InvalidatorFromPayload;
    var vs := InvalidatorPayloads(k, xs);
    forall i | 0 <= i < |xs|
      ensures Normal(k.nfc, vs[i]) && InvalidatorFromPayload(k, vs[i]) == Some(xs[i])
    {
      InvalidatorNormal(k, xs[i]);
      InvalidatorRead(k, xs[i]);
    }
    NormalFixed(k.nfc, Arr(vs));
    ReadAllWritten(vs, x => InvalidatorFromPayload(k, x), xs);
  }

  lemma {:induction false} TimePlain(t: Text)
    requires LogicalTime.Validate(t).Ok?
    ensures Plain(t)
  {
  }

  lemma {:induction false} ScalarFieldNormal(k: Codec, e: Evidence, f: Field)
    requires CodecLaws(k) && ScalarsOk(e)
    requires f in EVIDENCE_FIELDS && f != FactsKey && f != InvalidatorsKey && f != ProducerKey
    ensures Normal(k.nfc, EvidenceField(k, e, f)) && Normalize(k.nfc, EvidenceField(k, e, f)) == Ok(EvidenceField(k, e, f))
  {
    hide CodecLaws, ScalarsOk, Plain, Normal, Normalize;
    WordPlain(k, e.authority);
    WordPlain(k, e.completeness);
    WordPlain(k, e.kind);
    DigestFieldsPlain(e);
    TimeFieldsPlain(e);
    PlainFixed(k, EvidenceField(k, e, f));
  }

  lemma {:induction false} DigestFieldsPlain(e: Evidence)
    requires ScalarsOk(e)
    ensures Plain(e.checkpointId) && Plain(e.payloadDigest) && Plain(e.subjectDigest) && Plain(e.targetId)
    ensures e.declaredOutputDigest.Some? ==> Plain(e.declaredOutputDigest.value)
    ensures e.observedOutputDigest.Some? ==> Plain(e.observedOutputDigest.value)
  {
    hide AuditDetails.IsDigest, LogicalTime.Validate, Plain, ProducerOk, ReceiptOk, LexLt;
    DigestPlain(e.checkpointId);
    DigestPlain(e.payloadDigest);
    DigestPlain(e.subjectDigest);
    DigestPlain(e.targetId);
    if e.declaredOutputDigest.Some? { DigestPlain(e.declaredOutputDigest.value); }
    if e.observedOutputDigest.Some? { DigestPlain(e.observedOutputDigest.value); }
  }

  lemma {:induction false} TimeFieldsPlain(e: Evidence)
    requires ScalarsOk(e)
    ensures Plain(e.observedAt) && (e.expiresAt.Some? ==> Plain(e.expiresAt.value))
  {
    hide AuditDetails.IsDigest, LogicalTime.Validate, Plain, ProducerOk, ReceiptOk, LexLt;
    TimePlain(e.observedAt);
    if e.expiresAt.Some? { TimePlain(e.expiresAt.value); }
  }

  lemma {:induction false} ListFieldsNormalized(k: Codec, e: Evidence)
    requires CodecLaws(k) && ContentOk(k, e)
    ensures var n := NormalEvidence(k.nfc, e);
      && Normalize(k.nfc, Arr(FactPayloads(k, e.facts))) == Ok(Arr(FactPayloads(k, n.facts)))
      && Normal(k.nfc, Arr(FactPayloads(k, n.facts)))
      && Normalize(k.nfc, Arr(InvalidatorPayloads(k, e.invalidators))) == Ok(Arr(InvalidatorPayloads(k, e.invalidators)))
      && Normal(k.nfc, Arr(InvalidatorPayloads(k, e.invalidators)))
      && Normalize(k.nfc, ProducerPayload(k, e.producer)) == Ok(ProducerPayload(k, e.producer))
      && Normal(k.nfc, ProducerPayload(k, e.producer))
  {
    hide CodecLaws, ScalarsOk, FactOk, InvalidatorOk, CanonicalItems, Normal, Normalize, ProducerPayload, NormalFacts,
      FactPayloads,
      InvalidatorPayloads, FactsOf, InvalidatorsOf;
    FactsNormal(k, e.facts);
    InvalidatorsNormal(k, e.invalidators);
    ProducerChecked(e);
    ProducerNormal(k, e.producer);
    NormalFixed(k.nfc, ProducerPayload(k, e.producer));
  }

  lemma {:induction false} SameScalarField(k: Codec, e: Evidence, f: Field)
    requires f != FactsKey
    ensures EvidenceField(k, NormalEvidence(k.nfc, e), f) == EvidenceField(k, e, f)
  {
    hide FactPayloads, InvalidatorPayloads, ProducerPayload, OptText, OptInteger, OptBoolean, NormalFacts;
  }

  lemma {:induction false} EvidenceFieldNormalized(k: Codec, e: Evidence, f: Field)
    requires CodecLaws(k) && ContentOk(k, e) && f in EVIDENCE_FIELDS
    ensures var n := NormalEvidence(k.nfc, e);
      Normalize(k.nfc, EvidenceField(k, e, f)) == Ok(EvidenceField(k, n, f)) && Normal(k.nfc, EvidenceField(k, n, f))
  {
    if f == FactsKey || f == InvalidatorsKey || f == ProducerKey {
      hide CodecLaws, ContentOk, Normal, Normalize, ProducerPayload, NormalFacts, FactPayloads, InvalidatorPayloads;
      ListFieldsNormalized(k, e);
    } else {
      hide *;
      ScalarChecked(k, e);
      SameScalarField(k, e, f);
      ScalarFieldNormal(k, e, f);
    }
  }

  lemma {:induction false} ScalarChecked(k: Codec, e: Evidence)
    requires ContentOk(k, e)
    ensures ScalarsOk(e)
  {
    hide ScalarsOk, FactOk, InvalidatorOk, CanonicalItems;
  }

  lemma {:induction false} EvidenceNormalized(k: Codec, e: Evidence)
    requires CodecLaws(k) && ContentOk(k, e)
    ensures var n := NormalEvidence(k.nfc, e);
      && Normalize(k.nfc, EvidencePayload(k, e)) == Ok(EvidencePayload(k, n))
      && Normal(k.nfc, EvidencePayload(k, n))
  {
    hide CodecLaws, FieldNames, Record, ContentOk, Normal, Normalize, EvidenceField, NormalEvidence;
    var n := NormalEvidence(k.nfc, e);
    LawsOf(k);
    forall f | f in EVIDENCE_FIELDS
      ensures Normalize(k.nfc, EvidenceField(k, e, f)) == Ok(EvidenceField(k, n, f)) && Normal(k.nfc, EvidenceField(k, n, f))
    {
      EvidenceFieldNormalized(k, e, f);
    }
    NormalizeRecord(k.nfc, k.key, EVIDENCE_FIELDS, f => EvidenceField(k, e, f), f => EvidenceField(k, n, f));
    RecordNormal(k.nfc, k.key, EVIDENCE_FIELDS, f => EvidenceField(k, n, f));
  }

  lemma {:induction false} ProducerChecked(e: Evidence)
    requires ScalarsOk(e)
    ensures ProducerOk(e.producer)
  {
  }

  lemma {:induction false} ContentKept(k: Codec, e: Evidence)
    requires CodecLaws(k) && ContentOk(k, e)
    ensures ContentOk(k, NormalEvidence(k.nfc, e))
  {
    hide CodecLaws, FactOk, InvalidatorOk, CanonicalItems, FactPayloads, InvalidatorPayloads, ProducerOk,
      AuditDetails.IsDigest,
      LogicalTime.Validate, LexLt, FactsOf;
    FactsNormal(k, e.facts);
  }

  lemma {:induction false} SameRecord(k: Codec, recordType: Text, v: Json, n: Json)
    requires Normalize(k.nfc, v) == Ok(n) && Normal(k.nfc, n)
    ensures RecordId(k, recordType, v) == RecordId(k, recordType, n)
    ensures MakeRecord(k, recordType, v) == MakeRecord(k, recordType, n)
  {
    hide CanonicalBytes, Normal;
    SameBytes(k.nfc, v, n);
  }

  lemma {:induction false} EvidenceKept(k: Codec, e: Evidence)
    requires CodecLaws(k) && EvidenceOk(k, e)
    ensures EvidenceOk(k, NormalEvidence(k.nfc, e))
  {
    hide CodecLaws, ContentOk, EvidencePayload, RecordId, Normalize, Normal;
    ContentKept(k, e);
    EvidenceNormalized(k, e);
    SameRecord(k, EVIDENCE, EvidencePayload(k, e), EvidencePayload(k, NormalEvidence(k.nfc, e)));
  }

  // ----- reading evidence back -----

  lemma {:induction false} EvidenceGet(k: Codec, e: Evidence, f: Field)
    requires CodecLaws(k) && f in EVIDENCE_FIELDS
    ensures HasFields(k.key, EvidencePayload(k, e), EVIDENCE_FIELDS)
    ensures Get(k.key, EvidencePayload(k, e).members, f) == Some(EvidenceField(k, e, f))
  {
    hide CodecLaws, Record, Get, HasFields, EvidenceField;
    FieldRead(k, EVIDENCE_FIELDS, x => EvidenceField(k, e, x), f);
  }

  lemma {:induction false} ReadWordsHolds(k: Codec, e: Evidence)
    requires CodecLaws(k)
    ensures ReadWords(k, e)
  {
    hide CodecLaws, Get, HasFields, EvidencePayload, FactPayloads, InvalidatorPayloads, ProducerPayload, OptText,
      OptInteger, OptBoolean;
    EvidenceGet(k, e, KindKey);
    EvidenceGet(k, e, AuthorityKey);
    EvidenceGet(k, e, CompletenessKey);
  }

  lemma {:induction false} ReadTextsHolds(k: Codec, e: Evidence)
    requires CodecLaws(k)
    ensures ReadTexts(k, e)
  {
    hide CodecLaws, Get, HasFields, EvidencePayload, FactPayloads, InvalidatorPayloads, ProducerPayload, OptText,
      OptInteger, OptBoolean;
    EvidenceGet(k, e, SubjectDigestKey);
    EvidenceGet(k, e, TargetIdKey);
    EvidenceGet(k, e, CheckpointIdKey);
    EvidenceGet(k, e, ObservedAtKey);
    EvidenceGet(k, e, PayloadDigestKey);
  }

  lemma {:induction false} ReadOptionsHolds(k: Codec, e: Evidence)
    requires CodecLaws(k)
    ensures ReadOptions(k, e)
  {
    hide CodecLaws, Get, HasFields, EvidencePayload, FactPayloads, InvalidatorPayloads, ProducerPayload, OptText,
      OptInteger, OptBoolean;
    EvidenceGet(k, e, ExpiresAtKey);
    EvidenceGet(k, e, TerminalStatusKey);
    EvidenceGet(k, e, DeclaredOutputDigestKey);
    EvidenceGet(k, e, ObservedOutputDigestKey);
    EvidenceGet(k, e, CollectedCheckCountKey);
    EvidenceGet(k, e, PaginationCompleteKey);
  }

  lemma {:induction false} ReadListsHolds(k: Codec, e: Evidence)
    requires CodecLaws(k)
    ensures ReadLists(k, e)
  {
    hide CodecLaws, Get, HasFields, EvidencePayload, FactPayloads, InvalidatorPayloads, ProducerPayload, OptText,
      OptInteger, OptBoolean;
    EvidenceGet(k, e, ProducerKey);
    EvidenceGet(k, e, FactsKey);
    EvidenceGet(k, e, InvalidatorsKey);
  }

  /** Evidence stored in NFC is read back field by field. */
  lemma {:induction false} EvidenceFieldsRead(k: Codec, e: Evidence)
    requires CodecLaws(k) && ContentOk(k, e) && NormalEvidence(k.nfc, e) == e
    ensures ReadEvidence(k, EvidencePayload(k, e).members) == Some(e.(evidenceId := []))
  {
    hide CodecLaws, Get, EvidencePayload, FactPayloads, InvalidatorPayloads, ProducerPayload, ProducerFromPayload,
      FactsOf,
      InvalidatorsOf, WordOf, ContentOk;
    ReadWordsHolds(k, e);
    ReadTextsHolds(k, e);
    ReadOptionsHolds(k, e);
    ReadListsHolds(k, e);
    PartsRead(k, e);
  }

  lemma {:induction false} PartsRead(k: Codec, e: Evidence)
    requires CodecLaws(k) && ContentOk(k, e) && NormalEvidence(k.nfc, e) == e
    ensures WordOf(k, KINDS, Some(Str(k.word(e.kind)))) == Some(e.kind)
    ensures WordOf(k, AUTHORITIES, Some(Str(k.word(e.authority)))) == Some(e.authority)
    ensures WordOf(k, COMPLETENESS, Some(Str(k.word(e.completeness)))) == Some(e.completeness)
    ensures ProducerFromPayload(k, Some(ProducerPayload(k, e.producer))) == Some(e.producer)
    ensures FactsOf(k, Some(Arr(FactPayloads(k, e.facts)))) == Some(e.facts)
    ensures InvalidatorsOf(k, Some(Arr(InvalidatorPayloads(k, e.invalidators)))) == Some(e.invalidators)
  {
    hide CodecLaws, ProducerOk, FactOk, InvalidatorOk, CanonicalItems, FactPayloads, InvalidatorPayloads,
      ProducerPayload,
      ProducerFromPayload, FactsOf, InvalidatorsOf, WordOf, AuditDetails.IsDigest, LogicalTime.Validate, LexLt,
      ReceiptOk, NormalFacts;
    assert VOCABULARIES[1] == AUTHORITIES && VOCABULARIES[2] == KINDS && VOCABULARIES[3] == COMPLETENESS;
    WordRead(k, KINDS, e.kind);
    WordRead(k, AUTHORITIES, e.authority);
    WordRead(k, COMPLETENESS, e.completeness);
    ProducerRead(k, e.producer);
    FactsNormal(k, e.facts);
    InvalidatorsNormal(k, e.invalidators);
  }

  ghost predicate ReadWords(k: Codec, e: Evidence) {
    var ms := EvidencePayload(k, e).members;
    && Get(k.key, ms, KindKey) == Some(Str(k.word(e.kind))) && Get(k.key, ms, AuthorityKey) == Some(Str(k.word(e.authority)))
    && Get(k.key, ms, CompletenessKey) == Some(Str(k.word(e.completeness)))
  }

  ghost predicate ReadTexts(k: Codec, e: Evidence) {
    var ms := EvidencePayload(k, e).members;
    && Get(k.key, ms, SubjectDigestKey) == Some(Str(e.subjectDigest)) && Get(k.key, ms, TargetIdKey) == Some(Str(e.targetId))
    && Get(k.key, ms, CheckpointIdKey) == Some(Str(e.checkpointId)) && Get(k.key, ms, ObservedAtKey) == Some(Str(e.observedAt))
    && Get(k.key, ms, PayloadDigestKey) == Some(Str(e.payloadDigest))
  }

  ghost predicate ReadOptions(k: Codec, e: Evidence) {
    var ms := EvidencePayload(k, e).members;
    && Get(k.key, ms, ExpiresAtKey) == Some(OptText(e.expiresAt))
    && Get(k.key, ms, TerminalStatusKey) == Some(OptInteger(e.terminalStatus))
    && Get(k.key, ms, DeclaredOutputDigestKey) == Some(OptText(e.declaredOutputDigest))
    && Get(k.key, ms, ObservedOutputDigestKey) == Some(OptText(e.observedOutputDigest))
    && Get(k.key, ms, CollectedCheckCountKey) == Some(OptInteger(e.collectedCheckCount))
    && Get(k.key, ms, PaginationCompleteKey) == Some(OptBoolean(e.paginationComplete))
  }

  ghost predicate ReadLists(k: Codec, e: Evidence) {
    var ms := EvidencePayload(k, e).members;
    && Get(k.key, ms, ProducerKey) == Some(ProducerPayload(k, e.producer))
    && Get(k.key, ms, FactsKey) == Some(Arr(FactPayloads(k, e.facts)))
    && Get(k.key, ms, InvalidatorsKey) == Some(Arr(InvalidatorPayloads(k, e.invalidators)))
  }

  lemma {:induction false} FieldIgnoresId(k: Codec, e: Evidence, f: Field)
    ensures EvidenceField(k, e.(evidenceId := []), f) == EvidenceField(k, e, f)
  {
    hide Record, FactPayloads, InvalidatorPayloads, ProducerPayload, OptText, OptInteger, OptBoolean;
  }

  lemma {:induction false} PayloadIgnoresId(k: Codec, e: Evidence)
    ensures EvidencePayload(k, e.(evidenceId := [])) == EvidencePayload(k, e)
  {
    hide Record, EvidenceField;
    var x := e.(evidenceId := []);
    forall f | f in EVIDENCE_FIELDS ensures EvidenceField(k, x, f) == EvidenceField(k, e, f) {
      FieldIgnoresId(k, e, f);
    }
    SameRecordValues(k.key, EVIDENCE_FIELDS, f => EvidenceField(k, x, f), f => EvidenceField(k, e, f));
  }

  lemma {:induction false} SameRecordValues(key: Naming, fields: set<Field>, a: Field -> Json, b: Field -> Json)
    requires forall f :: f in fields ==> a(f) == b(f)
    ensures Record(key, fields, a) == Record(key, fields, b)
  {
    hide Rank, Listed;
    var fs := Listed(fields, FIELDS);
    assert forall i :: 0 <= i < |fs| ==> fs[i] in fs;
    assert Entries(fields, a) == Entries(fields, b);
  }

  lemma {:induction false} EvidenceRead(k: Codec, e: Evidence)
    requires CodecLaws(k) && EvidenceOk(k, e) && NormalEvidence(k.nfc, e) == e
    ensures EvidenceFromPayload(k, EvidencePayload(k, e)) == Some(e)
  {
    hide CodecLaws, ContentOk, EvidencePayload, RecordId, ReadEvidence, HasFields, NormalEvidence;
    EvidenceGet(k, e, KindKey);
    EvidenceFieldsRead(k, e);
    PayloadIgnoresId(k, e);
  }

  // ----- the round trip -----

  /** The record as it is stored: text values of evidence facts in NFC. */
  function Stored(k: Codec, x: KernelRecord): KernelRecord {
    match x case CitationRecord(_) => x case EvidenceRecord(e) => EvidenceRecord(NormalEvidence(k.nfc, e))
  }

  lemma {:induction false} PayloadNormalized(k: Codec, x: KernelRecord)
    requires CodecLaws(k) && RecordOk(k, x)
    ensures RecordOk(k, Stored(k, x))
    ensures Normalize(k.nfc, PayloadOf(k, x)) == Ok(PayloadOf(k, Stored(k, x)))
    ensures Normal(k.nfc, PayloadOf(k, Stored(k, x)))
    ensures FromPayload(k, TypeOf(x), PayloadOf(k, Stored(k, x))) == Some(Stored(k, x))
  {
    hide CodecLaws, ContentOk, CitationOk, EvidencePayload, CitationPayload, RecordId, Normalize, Normal,
      CitationFromPayload,
      EvidenceFromPayload, NormalEvidence;
    match x
    case CitationRecord(c) =>
      CitationWritten(k, c);
      NormalFixed(k.nfc, CitationPayload(k, c));
    case EvidenceRecord(e) =>
      EvidenceKept(k, e);
      EvidenceNormalized(k, e);
      NormalTwice(k, e);
      EvidenceRead(k, NormalEvidence(k.nfc, e));
  }

  lemma {:induction false} NormalTwice(k: Codec, e: Evidence)
    requires CodecLaws(k)
    ensures NormalEvidence(k.nfc, NormalEvidence(k.nfc, e)) == NormalEvidence(k.nfc, e)
  {
    var n := NormalEvidence(k.nfc, e);
    NormalEvidenceFixed(k.nfc, n);
  }

  lemma {:induction false} Identified(k: Codec, recordType: Text, v: Json)
    requires CodecLaws(k) && CanonicalBytes(k.nfc, v).Ok? && (recordType == CITATION || recordType == EVIDENCE)
    ensures RecordId(k, recordType, v).Some? && AuditDetails.IsDigest(RecordId(k, recordType, v).value)
  {
    hide FieldNames, KeepsPlain, NfcLaws, CanonicalBytes, AuditDetails.IsDigest, Plain;
  }

  lemma {:induction false} RecordMade(k: Codec, recordType: Text, n: Json)
    requires CodecLaws(k) && Normal(k.nfc, n) && n.Obj? && (recordType == CITATION || recordType == EVIDENCE)
    ensures var r := MakeRecord(k, recordType, n);
      && r.Ok? && AuditDetails.IsDigest(r.value.recordId) && r.value.recordType == recordType && r.value.version == V1
      && CanonicalLoads(k.nfc, r.value.data) == Ok(n)
  {
    hide CodecLaws, Normal, AuditDetails.IsDigest, CanonicalLoads, CanonicalBytes, RecordId, Canon;
    LawsOf(k);
    NormalFixed(k.nfc, n);
    LoadsAfterBytes(k.nfc, n);
    Identified(k, recordType, n);
  }

  /** Decoding what was encoded gives the record as stored: every citation comes back unchanged,
      and evidence exactly when the text values of its facts are in NFC. */
  lemma {:induction false} DecodeEncode(k: Codec, x: KernelRecord)
    requires CodecLaws(k) && RecordOk(k, x)
    ensures EncodeRecord(k, x).Ok?
    ensures DecodeRecord(k, EncodeRecord(k, x).value) == Ok(Stored(k, x))
    ensures DecodeRecord(k, EncodeRecord(k, x).value) == Ok(x) <==> x.CitationRecord? || FactTextsNormal(k.nfc, x.evidence)
  {
    hide CodecLaws, RecordOk, PayloadOf, MakeRecord, Normalize, Normal, FromPayload, CanonicalLoads,
      AuditDetails.IsDigest, NormalEvidence,
      FactTextsNormal;
    var s := Stored(k, x);
    PayloadNormalized(k, x);
    SameRecord(k, TypeOf(x), PayloadOf(k, x), PayloadOf(k, s));
    RecordMade(k, TypeOf(x), PayloadOf(k, s));
    if x.EvidenceRecord? { NormalEvidenceFixed(k.nfc, x.evidence); }
  }

  lemma {:induction false} ReadRecordOk(k: Codec, recordType: Text, v: Json)
    requires FromPayload(k, recordType, v).Some?
    ensures RecordOk(k, FromPayload(k, recordType, v).value)
  {
    hide Get, HasFields, PathFromPayload, CitationOk, ReadEvidence, EvidenceOk, RecordId, TextOf, OptIntegerOf,
      OptTextOf, EvidencePayload;
  }

  /** A stored record is accepted only if it is the encoding of the valid record it decodes to. */
  lemma {:induction false} DecodedIsEncoded(k: Codec, stored: StoredRecord)
    requires DecodeRecord(k, stored).Ok?
    ensures var x := DecodeRecord(k, stored).value; RecordOk(k, x) && EncodeRecord(k, x) == Ok(stored)
  {
    hide CanonicalLoads, AuditDetails.IsDigest, EncodeRecord, FromPayload, RecordOk;
    ReadRecordOk(k, stored.recordType, CanonicalLoads(k.nfc, stored.data).value);
  }

  /** The accepted stored records are exactly the encodings of valid records. */
  lemma {:induction false} AcceptsEncodings(k: Codec, stored: StoredRecord)
    requires CodecLaws(k)
    ensures DecodeRecord(k, stored).Ok? <==> exists x :: RecordOk(k, x) && EncodeRecord(k, x) == Ok(stored)
  {
    hide CodecLaws, RecordOk, EncodeRecord, DecodeRecord;
    if DecodeRecord(k, stored).Ok? {
      DecodedIsEncoded(k, stored);
    }
    if x :| RecordOk(k, x) && EncodeRecord(k, x) == Ok(stored) {
      DecodeEncode(k, x);
    }
  }

  // ----- the laws can be met -----

  function WordLetter(w: Word): (t: Text)
    ensures Plain(t)
  {
    match w
    case PosixBytes => [65]
    case GitPathBytes => [66]
    case DeterministicAuthority => [67]
    case AdvisoryAuthority => [68]
    case CitationEvidence => [69]
    case CommandEvidence => [70]
    case StructuredClaim => [71]
    case TargetEvidence => [72]
    case HarnessEvidence => [73]
    case Complete => [74]
    case Incomplete => [75]
    case Truncated => [76]
    case Unavailable => [77]
    case CitationInvalidator => [78]
    case EvidenceDependency => [79]
    case TargetInvalidator => [80]
    case CheckpointInvalidator => [81]
    case ProducerInvalidator => [82]
    case PolicyInvalidator => [83]
    case WindowsUtf16le => [84]
  }

  function ZeroDigest(): (t: Text)
    ensures AuditDetails.IsDigest(t)
  {
    var prefix: Text := [115, 104, 97, 50, 53, 54, 58];
    var zeros: Text := seq(64, i => 48);
    assert (prefix + zeros)[..7] == prefix;
    prefix + zeros
  }

  lemma {:induction false} LawsCanBeMet()
    ensures exists k: Codec :: CodecLaws(k)
  {
    hide FieldNames, Plain, AuditDetails.IsDigest;
    NamesExist();
    var key: Naming :| FieldNames(key);
    var k := Codec((s: Text) => s, (s: Text) => s, (d: Bytes) => ZeroDigest(), key, (w: Word) => WordLetter(w));
    assert CodecLaws(k);
  }

  // ----- evidence that does not survive -----

  /** The fact that a field holds the Angstrom sign, which NFC turns into a letter. */
  const ANGSTROM_FACT := Fact([[97]], Str([0x212B]))

  /** An advisory record of that fact, before its identity is derived. */
  function AngstromContent(): Evidence {
    var z := ZeroDigest();
    Evidence(z, TargetEvidence, z, AdvisoryAuthority, Producer([97], [49], z), z, z, LogicalTime.NEW_YEAR, None, Complete, None, None,
             None, None, None, z, [ANGSTROM_FACT], [])
  }

  lemma {:induction false} AngstromScalars(e: Evidence)
    requires e == AngstromContent().(evidenceId := e.evidenceId) && AuditDetails.IsDigest(e.evidenceId)
    ensures ScalarsOk(e)
  {
    hide ZeroDigest, AuditDetails.IsDigest, LogicalTime.Validate;
    LogicalTime.NewYearValid();
  }

  lemma {:induction false} AngstromContentOk(k: Codec, e: Evidence)
    requires CodecLaws(k)
    requires e == AngstromContent().(evidenceId := e.evidenceId) && AuditDetails.IsDigest(e.evidenceId)
    ensures ContentOk(k, e)
  {
    hide ZeroDigest, AuditDetails.IsDigest, ScalarsOk, CodecLaws, FactPayload, CanonicalBytes, Normalize;
    AngstromScalars(e);
    assert FactOk(ANGSTROM_FACT);
    FactNormalized(k, ANGSTROM_FACT);
    SameBytes(k.nfc, FactPayload(k, ANGSTROM_FACT), FactPayload(k, NormalFact(k.nfc, ANGSTROM_FACT)));
  }

  /** Under every codec whose NFC turns U+212B into U+00C5, as Unicode's does, this valid record
      does not decode to itself: it comes back with the letter. */
  lemma {:induction false} EvidenceMayNotSurvive(k: Codec) returns (e: Evidence, back: Evidence)
    requires CodecLaws(k) && k.nfc([0x212B]) == [0xC5]
    ensures EvidenceOk(k, e) && e.facts == [ANGSTROM_FACT]
    ensures EncodeRecord(k, EvidenceRecord(e)).Ok?
    ensures DecodeRecord(k, EncodeRecord(k, EvidenceRecord(e)).value) == Ok(EvidenceRecord(back))
    ensures back != e && back.facts == [Fact([[97]], Str([0xC5]))]
  {
    hide ZeroDigest, AuditDetails.IsDigest, ContentOk, CodecLaws, CanonicalBytes, Normalize, DecodeRecord, EncodeRecord,
      EvidenceField, Record;
    e := AngstromRecord(k);
    back := NormalEvidence(k.nfc, e);
    DecodeEncode(k, EvidenceRecord(e));
    assert e.facts[0].value == Str([0x212B]);
    assert back.facts == [Fact([[97]], Str([0xC5]))];
  }

  lemma {:induction false} AngstromRecord(k: Codec) returns (e: Evidence)
    requires CodecLaws(k)
    ensures EvidenceOk(k, e) && e.facts == [ANGSTROM_FACT]
  {
    hide ZeroDigest, AuditDetails.IsDigest, ContentOk, CodecLaws, CanonicalBytes, Normalize, EvidenceField, Record;
    var content := AngstromContent();
    AngstromContentOk(k, content);
    EvidenceNormalized(k, content);
    SameBytes(k.nfc, EvidencePayload(k, content), EvidencePayload(k, NormalEvidence(k.nfc, content)));
    Identified(k, EVIDENCE, EvidencePayload(k, content));
    e := content.(evidenceId := RecordId(k, EVIDENCE, EvidencePayload(k, content)).value);
    AngstromContentOk(k, e);
    PayloadIgnoresId(k, content);
    PayloadIgnoresId(k, e);
    assert content.(evidenceId := []) == e.(evidenceId := []);
  }

  function Composed(c: CodePoint): CodePoint {
    if c == 0x212B then 0xC5 else c
  }

  function ComposedText(s: Text): Text {
    seq(|s|, i requires 0 <= i < |s| => Composed(s[i]))
  }

  /** Such a codec meets the laws. */
  lemma {:induction false} ComposingCodec() returns (k: Codec)
    ensures CodecLaws(k) && k.nfc([0x212B]) == [0xC5]
  {
    hide FieldNames, Plain, AuditDetails.IsDigest;
    NamesExist();
    var key: Naming :| FieldNames(key);
    k := Codec(ComposedText, (s: Text) => s, (d: Bytes) => ZeroDigest(), key, (w: Word) => WordLetter(w));
    ComposedLaws();
    assert CodecLaws(k);
  }

  lemma {:induction false} ComposedLaws()
    ensures NfcLaws(ComposedText) && KeepsPlain(ComposedText) && ComposedText([0x212B]) == [0xC5]
  {
    forall s: Text ensures ComposedText(ComposedText(s)) == ComposedText(s) {
    }
    forall s: Text | Plain(s) ensures ComposedText(s) == s {
    }
  }
}
