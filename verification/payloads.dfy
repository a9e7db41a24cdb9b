/** Which field of a payload holds what (kernel/citation.py, kernel/evidence.py, kernel/paths.py):
    every field by its name, apart from the decoders. */
module Payloads {
  import opened Orders
  import opened Utf8
  import opened Canonical
  import opened RecordFields
  import opened KernelRecords
  import RecordLaws
  import Paths

  /** The member of this name holds this value. */
  ghost predicate Holds(k: Codec, v: Json, f: Field, value: Json) {
    v.Obj? && Get(k.key, v.members, f) == Some(value)
  }

  ghost predicate HoldsText(k: Codec, v: Json, f: Field, t: Option<Text>) {
    Holds(k, v, f, if t.Some? then Str(t.value) else Null)
  }

  ghost predicate HoldsNumber(k: Codec, v: Json, f: Field, n: Option<int>) {
    Holds(k, v, f, if n.Some? then Integer(n.value) else Null)
  }

  /** A path with its encoding, its bytes in base64url, where its segments start, and its case key. */
  lemma {:induction false} PathHolds(k: Codec, p: Paths.PathIdentity)
    requires CodecLaws(k)
    ensures var v := PathPayload(k, p);
      && HoldsText(k, v, RawB64Key, Some(p.raw64)) && HoldsText(k, v, CaseKeyB64Key, p.caseKey64)
      && HoldsText(k, v, EncodingKey, Some(k.word(
           if p.encoding == Paths.PosixBytes then PosixBytes
           else if p.encoding == Paths.GitPathBytes then GitPathBytes else WindowsUtf16le)))
      && exists ns :: Holds(k, v, SegmentOffsetsKey, Arr(ns)) && |ns| == |p.offsets|
           && forall i :: 0 <= i < |ns| ==> ns[i] == Integer(p.offsets[i])
  {
    hide Get, CodecLaws, HasFields, Record;
    PathFields(k, p, RawB64Key);
    PathFields(k, p, CaseKeyB64Key);
    PathFields(k, p, EncodingKey);
    PathFields(k, p, SegmentOffsetsKey);
    assert Holds(k, PathPayload(k, p), SegmentOffsetsKey, Arr(Integers(p.offsets)));
  }

  /** A citation: its path, the digest of the file, and the span with its digest, if any. */
  lemma {:induction false} CitationHolds(k: Codec, c: Citation)
    requires CodecLaws(k)
    ensures var v := CitationPayload(k, c);
      && Holds(k, v, PathKey, PathPayload(k, c.path)) && HoldsText(k, v, FileDigestKey, Some(c.fileDigest))
      && HoldsNumber(k, v, ByteStartKey, c.byteStart) && HoldsNumber(k, v, ByteEndKey, c.byteEnd)
      && HoldsText(k, v, SpanDigestKey, c.spanDigest)
  {
    hide Get, CodecLaws, HasFields, Record, PathPayload;
    var value := (f: Field) => CitationField(k, c, f);
    RecordLaws.FieldRead(k, CITATION_FIELDS, value, PathKey);
    RecordLaws.FieldRead(k, CITATION_FIELDS, value, FileDigestKey);
    RecordLaws.FieldRead(k, CITATION_FIELDS, value, ByteStartKey);
    RecordLaws.FieldRead(k, CITATION_FIELDS, value, ByteEndKey);
    RecordLaws.FieldRead(k, CITATION_FIELDS, value, SpanDigestKey);
  }

  lemma {:induction false} ProducerHolds(k: Codec, p: Producer)
    requires CodecLaws(k)
    ensures var v := ProducerPayload(k, p);
      && HoldsText(k, v, NameKey, Some(p.name)) && HoldsText(k, v, VersionKey, Some(p.version))
      && HoldsText(k, v, DigestKey, Some(p.digest))
  {
    hide Get, CodecLaws, HasFields, Record;
    RecordLaws.FieldRead(k, PRODUCER_FIELDS, f => ProducerField(p, f), NameKey);
    RecordLaws.FieldRead(k, PRODUCER_FIELDS, f => ProducerField(p, f), VersionKey);
    RecordLaws.FieldRead(k, PRODUCER_FIELDS, f => ProducerField(p, f), DigestKey);
  }

  /** A fact: the path to the field, part by part, and its value. */
  ghost predicate FactHeld(k: Codec, v: Json, x: Fact) {
    && Holds(k, v, ValueKey, x.value)
    && exists ns :: Holds(k, v, FieldPathKey, Arr(ns)) && |ns| == |x.fieldPath|
         && forall i :: 0 <= i < |ns| ==> ns[i] == Str(x.fieldPath[i])
  }

  ghost predicate InvalidatorHeld(k: Codec, v: Json, x: Invalidator) {
    && HoldsText(k, v, KindKey, Some(k.word(x.kind))) && HoldsText(k, v, SubjectIdKey, Some(x.subjectId))
    && Holds(k, v, RequiredKey, Boolean(x.required))
  }

  lemma {:induction false} FactHolds(k: Codec, x: Fact)
    requires CodecLaws(k)
    ensures FactHeld(k, FactPayload(k, x), x)
  {
    hide Get, CodecLaws, HasFields, Record;
    RecordLaws.FieldRead(k, FACT_FIELDS, f => FactField(x, f), ValueKey);
    RecordLaws.FieldRead(k, FACT_FIELDS, f => FactField(x, f), FieldPathKey);
    assert Holds(k, FactPayload(k, x), FieldPathKey, Arr(Texts(x.fieldPath)));
  }

  lemma {:induction false} InvalidatorHolds(k: Codec, x: Invalidator)
    requires CodecLaws(k)
    ensures InvalidatorHeld(k, InvalidatorPayload(k, x), x)
  {
    hide Get, CodecLaws, HasFields, Record;
    RecordLaws.FieldRead(k, INVALIDATOR_FIELDS, f => InvalidatorField(k, x, f), KindKey);
    RecordLaws.FieldRead(k, INVALIDATOR_FIELDS, f => InvalidatorField(k, x, f), SubjectIdKey);
    RecordLaws.FieldRead(k, INVALIDATOR_FIELDS, f => InvalidatorField(k, x, f), RequiredKey);
  }

  /** The scalar fields of evidence that are always there. */
  ghost predicate ScalarsHeld(k: Codec, v: Json, e: Evidence) {
    && HoldsText(k, v, KindKey, Some(k.word(e.kind))) && HoldsText(k, v, AuthorityKey, Some(k.word(e.authority)))
    && HoldsText(k, v, CompletenessKey, Some(k.word(e.completeness)))
    && HoldsText(k, v, SubjectDigestKey, Some(e.subjectDigest)) && HoldsText(k, v, TargetIdKey, Some(e.targetId))
    && HoldsText(k, v, CheckpointIdKey, Some(e.checkpointId)) && HoldsText(k, v, ObservedAtKey, Some(e.observedAt))
    && HoldsText(k, v, PayloadDigestKey, Some(e.payloadDigest))
  }

  /** The scalar fields of evidence that may be null. */
  ghost predicate OptionsHeld(k: Codec, v: Json, e: Evidence) {
    && HoldsText(k, v, ExpiresAtKey, e.expiresAt)
    && HoldsText(k, v, DeclaredOutputDigestKey, e.declaredOutputDigest)
    && HoldsText(k, v, ObservedOutputDigestKey, e.observedOutputDigest)
    && HoldsNumber(k, v, TerminalStatusKey, e.terminalStatus)
    && HoldsNumber(k, v, CollectedCheckCountKey, e.collectedCheckCount)
    && Holds(k, v, PaginationCompleteKey, if e.paginationComplete.Some? then Boolean(e.paginationComplete.value) else Null)
  }

  /** The fields of evidence that hold objects and lists of objects. */
  ghost predicate ListsHeld(k: Codec, v: Json, e: Evidence) {
    && Holds(k, v, ProducerKey, ProducerPayload(k, e.producer))
    && (exists ns :: Holds(k, v, FactsKey, Arr(ns)) && |ns| == |e.facts|
          && forall i :: 0 <= i < |ns| ==> FactHeld(k, ns[i], e.facts[i]))
    && exists ns :: Holds(k, v, InvalidatorsKey, Arr(ns)) && |ns| == |e.invalidators|
         && forall i :: 0 <= i < |ns| ==> InvalidatorHeld(k, ns[i], e.invalidators[i])
  }

  lemma {:induction false} EvidenceIsObject(k: Codec, e: Evidence)
    ensures EvidencePayload(k, e).Obj?
  {
  }

  lemma {:induction false} ScalarsHold(k: Codec, e: Evidence)
    requires CodecLaws(k)
    ensures ScalarsHeld(k, EvidencePayload(k, e), e)
  {
    hide CodecLaws, Get, HasFields, EvidencePayload, FactPayloads, InvalidatorPayloads, ProducerPayload, OptText, OptInteger;
    EvidenceIsObject(k, e);
    RecordLaws.EvidenceGet(k, e, KindKey);
    RecordLaws.EvidenceGet(k, e, AuthorityKey);
    RecordLaws.EvidenceGet(k, e, CompletenessKey);
    RecordLaws.EvidenceGet(k, e, SubjectDigestKey);
    RecordLaws.EvidenceGet(k, e, TargetIdKey);
    RecordLaws.EvidenceGet(k, e, CheckpointIdKey);
    RecordLaws.EvidenceGet(k, e, ObservedAtKey);
    RecordLaws.EvidenceGet(k, e, PayloadDigestKey);
  }

  lemma {:induction false} OptionsHold(k: Codec, e: Evidence)
    requires CodecLaws(k)
    ensures OptionsHeld(k, EvidencePayload(k, e), e)
  {
    hide CodecLaws, Get, HasFields, EvidencePayload, FactPayloads, InvalidatorPayloads, ProducerPayload;
    EvidenceIsObject(k, e);
    RecordLaws.EvidenceGet(k, e, ExpiresAtKey);
    RecordLaws.EvidenceGet(k, e, DeclaredOutputDigestKey);
    RecordLaws.EvidenceGet(k, e, ObservedOutputDigestKey);
    RecordLaws.EvidenceGet(k, e, TerminalStatusKey);
    RecordLaws.EvidenceGet(k, e, CollectedCheckCountKey);
    RecordLaws.EvidenceGet(k, e, PaginationCompleteKey);
  }

  lemma {:induction false} ListsHold(k: Codec, e: Evidence)
    requires CodecLaws(k)
    ensures ListsHeld(k, EvidencePayload(k, e), e)
  {
    hide CodecLaws, Get, HasFields, Record, FactHeld, InvalidatorHeld;
    RecordLaws.EvidenceGet(k, e, ProducerKey);
    RecordLaws.EvidenceGet(k, e, FactsKey);
    RecordLaws.EvidenceGet(k, e, InvalidatorsKey);
    var v := EvidencePayload(k, e);
    var facts, invalidators := FactPayloads(k, e.facts), InvalidatorPayloads(k, e.invalidators);
    forall i | 0 <= i < |facts| ensures FactHeld(k, facts[i], e.facts[i]) {
      FactHolds(k, e.facts[i]);
    }
    forall i | 0 <= i < |invalidators| ensures InvalidatorHeld(k, invalidators[i], e.invalidators[i]) {
      InvalidatorHolds(k, e.invalidators[i]);
    }
    assert Holds(k, v, FactsKey, Arr(facts)) && Holds(k, v, InvalidatorsKey, Arr(invalidators));
  }

  /** Evidence: each of the seventeen fields under its own name, with the fields of the producer, of
      each fact and of each invalidator in their order. */
  lemma {:induction false} EvidenceHolds(k: Codec, e: Evidence)
    requires CodecLaws(k)
    ensures var v := EvidencePayload(k, e); ScalarsHeld(k, v, e) && OptionsHeld(k, v, e) && ListsHeld(k, v, e)
  {
    hide ScalarsHeld, OptionsHeld, ListsHeld, CodecLaws, EvidencePayload;
    ScalarsHold(k, e);
    OptionsHold(k, e);
    ListsHold(k, e);
  }
}
