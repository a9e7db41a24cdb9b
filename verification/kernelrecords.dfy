/** Citation and evidence records (kernel/citation.py, kernel/evidence.py, kernel/records.py):
    payloads, encoding, strict decoding, and how the two undo each other. */
module KernelRecords {
  import opened Orders
  import opened Utf8
  import opened Canonical
  import opened RoundTrip
  import opened RecordFields
  import opened Identity
  import AuditDetails
  import Base64Url
  import LogicalTime
  import Paths

  /** Words of the closed vocabularies. */
  datatype Word =
    | PosixBytes | GitPathBytes | WindowsUtf16le
    | DeterministicAuthority | AdvisoryAuthority
    | CitationEvidence | CommandEvidence | StructuredClaim | TargetEvidence | HarnessEvidence
    | Complete | Incomplete | Truncated | Unavailable
    | CitationInvalidator | EvidenceDependency | TargetInvalidator | CheckpointInvalidator | ProducerInvalidator
    | PolicyInvalidator

  const ENCODINGS: set<Word> := {PosixBytes, GitPathBytes, WindowsUtf16le}
  const AUTHORITIES: set<Word> := {DeterministicAuthority, AdvisoryAuthority}
  const KINDS: set<Word> := {CitationEvidence, CommandEvidence, StructuredClaim, TargetEvidence, HarnessEvidence}
  const COMPLETENESS: set<Word> := {Complete, Incomplete, Truncated, Unavailable}
  const INVALIDATORS: set<Word> := {
    CitationInvalidator, EvidenceDependency, TargetInvalidator, CheckpointInvalidator, ProducerInvalidator, PolicyInvalidator}
  const VOCABULARIES: seq<set<Word>> := [ENCODINGS, AUTHORITIES, KINDS, COMPLETENESS, INVALIDATORS]

  /** What the records are stored with: NFC, case folding, the hash behind record identifiers, and
      the texts of field names and vocabulary words. */
  datatype Codec = Codec(nfc: Text -> Text, fold: Paths.Fold, hash: Bytes -> Text, key: Naming, word: Word -> Text)

  ghost predicate CodecLaws(k: Codec) {
    && NfcLaws(k.nfc) && KeepsPlain(k.nfc) && FieldNames(k.key)
    && (forall d :: AuditDetails.IsDigest(k.hash(d)))
    && (forall w :: Plain(k.word(w)))
    && forall v, a, b :: v in VOCABULARIES && a in v && b in v && k.word(a) == k.word(b) ==> a == b
  }

  datatype Citation = Citation(
    path: Paths.PathIdentity, fileDigest: Text, byteStart: Option<int>, byteEnd: Option<int>, spanDigest: Option<Text>)

  datatype Producer = Producer(name: Text, version: Text, digest: Text)
  datatype Fact = Fact(fieldPath: seq<Text>, value: Json)
  datatype Invalidator = Invalidator(kind: Word, subjectId: Text, required: bool)

  datatype Evidence = Evidence(
    evidenceId: Text, kind: Word, subjectDigest: Text, authority: Word, producer: Producer, targetId: Text, checkpointId: Text,
    observedAt: Text, expiresAt: Option<Text>, completeness: Word, terminalStatus: Option<int>,
    declaredOutputDigest: Option<Text>, observedOutputDigest: Option<Text>, collectedCheckCount: Option<int>,
    paginationComplete: Option<bool>, payloadDigest: Text, facts: seq<Fact>, invalidators: seq<Invalidator>)

  datatype KernelRecord = CitationRecord(citation: Citation) | EvidenceRecord(evidence: Evidence)
  datatype StoredRecord = StoredRecord(recordId: Text, recordType: Text, version: Text, data: Bytes)
  datatype RecordError = RecordSchemaError

  // the texts Citation, Evidence and v1
  const CITATION: Text := [67, 105, 116, 97, 116, 105, 111, 110]
  const EVIDENCE: Text := [69, 118, 105, 100, 101, 110, 99, 101]
  const V1: Text := [118, 49]

  // ----- scalar fields -----

  function OptText(o: Option<Text>): Json {
    match o case None => Null case Some(t) => Str(t)
  }

  function OptInteger(o: Option<int>): Json {
    match o case None => Null case Some(n) => Integer(n)
  }

  function OptBoolean(o: Option<bool>): Json {
    match o case None => Null case Some(b) => Boolean(b)
  }

  function TextOf(v: Option<Json>): Option<Text> {
    if v.Some? && v.value.Str? then Some(v.value.s) else None
  }

  function OptTextOf(v: Option<Json>): Option<Option<Text>> {
    if v.Some? && v.value.Null? then Some(None)
    else if v.Some? && v.value.Str? then Some(Some(v.value.s)) else None
  }

  function OptIntegerOf(v: Option<Json>): Option<Option<int>> {
    if v.Some? && v.value.Null? then Some(None)
    else if v.Some? && v.value.Integer? then Some(Some(v.value.i)) else None
  }

  function OptBooleanOf(v: Option<Json>): Option<Option<bool>> {
    if v.Some? && v.value.Null? then Some(None)
    else if v.Some? && v.value.Boolean? then Some(Some(v.value.b)) else None
  }

  /** The enumeration member with this text. */
  ghost function WordOf(k: Codec, vocabulary: set<Word>, v: Option<Json>): Option<Word> {
    if v.Some? && v.value.Str? && exists w :: w in vocabulary && k.word(w) == v.value.s
    then
      var w :| w in vocabulary && k.word(w) == v.value.s;
      Some(w)
    else None
  }

  lemma {:induction false} WordRead(k: Codec, vocabulary: set<Word>, w: Word)
    requires CodecLaws(k) && vocabulary in VOCABULARIES && w in vocabulary
    ensures WordOf(k, vocabulary, Some(Str(k.word(w)))) == Some(w)
  {
  }

  /** Decodes every item of a list, or nothing. */
  ghost function ReadAll<T>(items: seq<Json>, read: Json -> Option<T>): Option<seq<T>> {
    if items == [] then Some([])
    else
      match (ReadAll(items[..|items| - 1], read), read(items[|items| - 1]))
      case (Some(xs), Some(x)) => Some(xs + [x])
      case _ => None
  }

  lemma {:induction false} ReadAllWritten<T>(items: seq<Json>, read: Json -> Option<T>, xs: seq<T>)
    requires |items| == |xs| && forall i :: 0 <= i < |xs| ==> read(items[i]) == Some(xs[i])
    ensures ReadAll(items, read) == Some(xs)
  {
    if items != [] {
      var n := |items| - 1;
      ReadAllWritten(items[..n], read, xs[..n]);
      assert xs == xs[..n] + [xs[n]];
    }
  }

  lemma {:induction false} NormalizeAll(nfc: Text -> Text, items: seq<Json>, ns: seq<Json>)
    requires |items| == |ns| && forall i :: 0 <= i < |items| ==> Normalize(nfc, items[i]) == Ok(ns[i])
    ensures Normalize(nfc, Arr(items)) == Ok(Arr(ns))
  {
    NormalizeEach(nfc, items, ns);
  }

  lemma {:induction false} NormalizeEach(nfc: Text -> Text, items: seq<Json>, ns: seq<Json>)
    requires |items| == |ns| && forall i :: 0 <= i < |items| ==> Normalize(nfc, items[i]) == Ok(ns[i])
    ensures NormalizeItems(nfc, items) == Ok(ns)
  {
    hide Normalize;
    if items != [] {
      var n := |items| - 1;
      NormalizeEach(nfc, items[..n], ns[..n]);
      assert ns == ns[..n] + [ns[n]];
    }
  }

  // ----- plain texts -----

  lemma {:induction false} DigestPlain(t: Text)
    requires AuditDetails.IsDigest(t)
    ensures Plain(t)
  {
    assert forall i :: 0 <= i < 7 ==> t[i] == t[..7][i];
  }

  /** Plain texts, numbers, truth values and null are stored as they are. */
  ghost predicate PlainValue(v: Json) {
    match v
    case Str(s) => Plain(s)
    case Null => true
    case Boolean(_) => true
    case Integer(_) => true
    case _ => false
  }

  lemma {:induction false} PlainFixed(k: Codec, v: Json)
    requires CodecLaws(k) && PlainValue(v)
    ensures Normal(k.nfc, v) && Normalize(k.nfc, v) == Ok(v)
  {
    if v.Str? { PlainString(k.nfc, v.s); }
  }

  // ----- citations -----

  ghost predicate CitationOk(k: Codec, c: Citation) {
    && Paths.Valid(k.fold, c.path) && AuditDetails.IsDigest(c.fileDigest)
    && ((c.byteStart == None && c.byteEnd == None && c.spanDigest == None)
        || (c.byteStart.Some? && c.byteEnd.Some? && c.spanDigest.Some? && AuditDetails.IsDigest(c.spanDigest.value)
            && 0 <= c.byteStart.value < c.byteEnd.value))
  }

  const PATH_FIELDS: set<Field> := {CaseKeyB64Key, EncodingKey, RawB64Key, SegmentOffsetsKey}
  const CITATION_FIELDS: set<Field> := {ByteEndKey, ByteStartKey, FileDigestKey, PathKey, SpanDigestKey}

  function EncodingWord(e: Paths.Encoding): Word {
    match e case PosixBytes => PosixBytes case GitPathBytes => GitPathBytes case WindowsUtf16le => WindowsUtf16le
  }

  /** The encoding a word names. */
  function EncodingOf(w: Word): Paths.Encoding {
    match w
    case PosixBytes => Paths.PosixBytes
    case GitPathBytes => Paths.GitPathBytes
    case _ => Paths.WindowsUtf16le
  }

  function Integers(ns: seq<int>): seq<Json> {
    seq(|ns|, i requires 0 <= i < |ns| => Integer(ns[i]))
  }

  function PathField(k: Codec, p: Paths.PathIdentity, f: Field): Json {
    match f
    case CaseKeyB64Key => OptText(p.caseKey64)
    case EncodingKey => Str(k.word(EncodingWord(p.encoding)))
    case RawB64Key => Str(p.raw64)
    case SegmentOffsetsKey => Arr(Integers(p.offsets))
    case _ => Null
  }

  function PathPayload(k: Codec, p: Paths.PathIdentity): Json {
    Record(k.key, PATH_FIELDS, f => PathField(k, p, f))
  }

  function CitationField(k: Codec, c: Citation, f: Field): Json {
    match f
    case ByteEndKey => OptInteger(c.byteEnd)
    case ByteStartKey => OptInteger(c.byteStart)
    case FileDigestKey => Str(c.fileDigest)
    case PathKey => PathPayload(k, c.path)
    case SpanDigestKey => OptText(c.spanDigest)
    case _ => Null
  }

  /** `citation_payload`. */
  function CitationPayload(k: Codec, c: Citation): Json {
    Record(k.key, CITATION_FIELDS, f => CitationField(k, c, f))
  }

  function IntegerOf(v: Json): Option<int> {
    if v.Integer? then Some(v.i) else None
  }

  ghost function PathFromPayload(k: Codec, v: Json): Option<Paths.PathIdentity> {
    if !HasFields(k.key, v, PATH_FIELDS) then None
    else
      var ms := v.members;
      var offsets := Get(k.key, ms, SegmentOffsetsKey);
      match (WordOf(k, ENCODINGS, Get(k.key, ms, EncodingKey)), TextOf(Get(k.key, ms, RawB64Key)),
             OptTextOf(Get(k.key, ms, CaseKeyB64Key)),
             if offsets.Some? && offsets.value.Arr? then ReadAll(offsets.value.items, IntegerOf) else None)
      case (Some(encoding), Some(raw64), Some(caseKey64), Some(starts)) =>
        var p := Paths.PathIdentity(EncodingOf(encoding), raw64, starts, caseKey64);
        if Paths.Valid(k.fold, p) then Some(p) else None
      case _ => None
  }

  /** `citation_from_payload`. */
  ghost function CitationFromPayload(k: Codec, v: Json): Option<Citation> {
    if !HasFields(k.key, v, CITATION_FIELDS) then None
    else
      var ms := v.members;
      match (if Get(k.key, ms, PathKey).Some? then PathFromPayload(k, Get(k.key, ms, PathKey).value) else None,
             TextOf(Get(k.key, ms, FileDigestKey)), OptIntegerOf(Get(k.key, ms, ByteStartKey)),
             OptIntegerOf(Get(k.key, ms, ByteEndKey)), OptTextOf(Get(k.key, ms, SpanDigestKey)))
      case (Some(path), Some(fileDigest), Some(byteStart), Some(byteEnd), Some(spanDigest)) =>
        var c := Citation(path, fileDigest, byteStart, byteEnd, spanDigest);
        if CitationOk(k, c) then Some(c) else None
      case _ => None
  }

  lemma {:induction false} Encoded64Plain(t: Text, d: Bytes)
    requires Base64Url.Decode64(t) == Ok(d)
    ensures Plain(t)
  {
    hide Base64Url.Decode64, Base64Url.Sextets;
    Base64Url.Decode64Inverse(t, d);
    var s := Base64Url.Sextets(d);
    forall i | 0 <= i < |t| ensures 0x20 <= t[i] < 0x80 {
      assert t[i] == Base64Url.Char(s[i]);
    }
  }

  lemma {:induction false} PathFields(k: Codec, p: Paths.PathIdentity, f: Field)
    requires CodecLaws(k) && f in PATH_FIELDS
    ensures HasFields(k.key, PathPayload(k, p), PATH_FIELDS)
    ensures Get(k.key, PathPayload(k, p).members, f) == Some(PathField(k, p, f))
  {
    hide Record, Get, CodecLaws, HasFields, FieldNames, PathField;
    LawsOf(k);
    var value := (f: Field) => PathField(k, p, f);
    RecordHasFields(k.key, PATH_FIELDS, value);
    GetField(k.key, PATH_FIELDS, value, f);
  }

  lemma {:induction false} PathRead(k: Codec, p: Paths.PathIdentity)
    requires CodecLaws(k) && Paths.Valid(k.fold, p)
    ensures PathFromPayload(k, PathPayload(k, p)) == Some(p)
  {
    hide Get, Paths.Valid, WordOf, CodecLaws, HasFields, PathPayload, ReadAll;
    PathFields(k, p, CaseKeyB64Key);
    PathFields(k, p, EncodingKey);
    PathFields(k, p, RawB64Key);
    PathFields(k, p, SegmentOffsetsKey);
    assert VOCABULARIES[0] == ENCODINGS;
    WordRead(k, ENCODINGS, EncodingWord(p.encoding));
    ReadAllWritten(Integers(p.offsets), IntegerOf, p.offsets);
  }

  lemma {:induction false} PathWritten(k: Codec, p: Paths.PathIdentity)
    requires CodecLaws(k) && Paths.Valid(k.fold, p)
    ensures PathFromPayload(k, PathPayload(k, p)) == Some(p)
    ensures Normal(k.nfc, PathPayload(k, p)) && Normalize(k.nfc, PathPayload(k, p)) == Ok(PathPayload(k, p))
  {
    hide Record, Paths.Valid, CodecLaws, FieldNames, PathFromPayload, Normal, PathField;
    PathRead(k, p);
    LawsOf(k);
    forall f | f in PATH_FIELDS ensures Normal(k.nfc, PathField(k, p, f)) {
      PathFieldNormal(k, p, f);
    }
    RecordNormal(k.nfc, k.key, PATH_FIELDS, f => PathField(k, p, f));
    NormalFixed(k.nfc, PathPayload(k, p));
  }

  lemma {:induction false} LawsOf(k: Codec)
    requires CodecLaws(k)
    ensures FieldNames(k.key) && KeepsPlain(k.nfc) && NfcLaws(k.nfc)
  {
  }

  lemma {:induction false} PathFieldNormal(k: Codec, p: Paths.PathIdentity, f: Field)
    requires CodecLaws(k) && Paths.Valid(k.fold, p) && f in PATH_FIELDS
    ensures Normal(k.nfc, PathField(k, p, f))
  {
    hide Base64Url.Decode64, Paths.SegmentOffsets, Paths.CaseKey, Paths.PathBytesOk;
    Encoded64Plain(p.raw64, Paths.RawBytes(k.fold, p));
    if p.caseKey64.Some? { Encoded64Plain(p.caseKey64.value, Paths.CaseKey(k.fold, p.encoding, Paths.RawBytes(k.fold, p))); }
    var v := PathField(k, p, f);
    if f == SegmentOffsetsKey {
    } else {
      assert PlainValue(v);
      PlainFixed(k, v);
    }
  }

  lemma {:induction false} CitationFieldNormal(k: Codec, c: Citation, f: Field)
    requires CodecLaws(k) && CitationOk(k, c) && f in CITATION_FIELDS
    ensures Normal(k.nfc, CitationField(k, c, f))
  {
    hide CodecLaws, Paths.Valid, PathPayload, AuditDetails.IsDigest, Plain, Normal;
    if f == PathKey {
      PathWritten(k, c.path);
    } else {
      DigestPlain(c.fileDigest);
      if c.spanDigest.Some? { DigestPlain(c.spanDigest.value); }
      PlainFixed(k, CitationField(k, c, f));
    }
  }

  lemma {:induction false} CitationWritten(k: Codec, c: Citation)
    requires CodecLaws(k) && CitationOk(k, c)
    ensures CitationFromPayload(k, CitationPayload(k, c)) == Some(c)
    ensures Normal(k.nfc, CitationPayload(k, c))
  {
    hide Record, Get, Paths.Valid, CodecLaws, HasFields, FieldNames, PathFromPayload, PathPayload;
    LawsOf(k);
    var value := (f: Field) => CitationField(k, c, f);
    RecordHasFields(k.key, CITATION_FIELDS, value);
    forall f | f in CITATION_FIELDS
      ensures Get(k.key, CitationPayload(k, c).members, f) == Some(CitationField(k, c, f)) && Normal(k.nfc, CitationField(k, c, f))
    {
      GetField(k.key, CITATION_FIELDS, value, f);
      CitationFieldNormal(k, c, f);
    }
    assert ByteEndKey in CITATION_FIELDS && ByteStartKey in CITATION_FIELDS && FileDigestKey in CITATION_FIELDS
      && PathKey in CITATION_FIELDS && SpanDigestKey in CITATION_FIELDS;
    RecordNormal(k.nfc, k.key, CITATION_FIELDS, value);
    PathWritten(k, c.path);
  }

  // ----- evidence -----

  const PRODUCER_FIELDS: set<Field> := {DigestKey, NameKey, VersionKey}
  const FACT_FIELDS: set<Field> := {FieldPathKey, ValueKey}
  const INVALIDATOR_FIELDS: set<Field> := {KindKey, RequiredKey, SubjectIdKey}
  const EVIDENCE_FIELDS: set<Field> := {
    AuthorityKey, CheckpointIdKey, CollectedCheckCountKey, CompletenessKey, DeclaredOutputDigestKey, ExpiresAtKey, FactsKey,
    InvalidatorsKey, KindKey, ObservedAtKey, ObservedOutputDigestKey, PaginationCompleteKey, PayloadDigestKey, ProducerKey,
    SubjectDigestKey, TargetIdKey, TerminalStatusKey}

  function ProducerField(p: Producer, f: Field): Json {
    match f
    case DigestKey => Str(p.digest)
    case NameKey => Str(p.name)
    case VersionKey => Str(p.version)
    case _ => Null
  }

  function Texts(ts: seq<Text>): seq<Json> {
    seq(|ts|, i requires 0 <= i < |ts| => Str(ts[i]))
  }

  function FactField(x: Fact, f: Field): Json {
    match f
    case FieldPathKey => Arr(Texts(x.fieldPath))
    case ValueKey => x.value
    case _ => Null
  }

  function InvalidatorField(k: Codec, x: Invalidator, f: Field): Json {
    match f
    case KindKey => Str(k.word(x.kind))
    case RequiredKey => Boolean(x.required)
    case SubjectIdKey => Str(x.subjectId)
    case _ => Null
  }

  function ProducerPayload(k: Codec, p: Producer): Json {
    Record(k.key, PRODUCER_FIELDS, f => ProducerField(p, f))
  }

  function FactPayload(k: Codec, x: Fact): Json {
    Record(k.key, FACT_FIELDS, f => FactField(x, f))
  }

  function InvalidatorPayload(k: Codec, x: Invalidator): Json {
    Record(k.key, INVALIDATOR_FIELDS, f => InvalidatorField(k, x, f))
  }

  function FactPayloads(k: Codec, xs: seq<Fact>): (vs: seq<Json>)
    ensures |vs| == |xs| && forall i :: 0 <= i < |xs| ==> vs[i] == FactPayload(k, xs[i])
  {
    seq(|xs|, i requires 0 <= i < |xs| => FactPayload(k, xs[i]))
  }

  function InvalidatorPayloads(k: Codec, xs: seq<Invalidator>): (vs: seq<Json>)
    ensures |vs| == |xs| && forall i :: 0 <= i < |xs| ==> vs[i] == InvalidatorPayload(k, xs[i])
  {
    seq(|xs|, i requires 0 <= i < |xs| => InvalidatorPayload(k, xs[i]))
  }

  function EvidenceField(k: Codec, e: Evidence, f: Field): Json {
    match f
    case AuthorityKey => Str(k.word(e.authority))
    case CheckpointIdKey => Str(e.checkpointId)
    case CollectedCheckCountKey => OptInteger(e.collectedCheckCount)
    case CompletenessKey => Str(k.word(e.completeness))
    case DeclaredOutputDigestKey => OptText(e.declaredOutputDigest)
    case ExpiresAtKey => OptText(e.expiresAt)
    case FactsKey => Arr(FactPayloads(k, e.facts))
    case InvalidatorsKey => Arr(InvalidatorPayloads(k, e.invalidators))
    case KindKey => Str(k.word(e.kind))
    case ObservedAtKey => Str(e.observedAt)
    case ObservedOutputDigestKey => OptText(e.observedOutputDigest)
    case PaginationCompleteKey => OptBoolean(e.paginationComplete)
    case PayloadDigestKey => Str(e.payloadDigest)
    case ProducerKey => ProducerPayload(k, e.producer)
    case SubjectDigestKey => Str(e.subjectDigest)
    case TargetIdKey => Str(e.targetId)
    case TerminalStatusKey => OptInteger(e.terminalStatus)
    case _ => Null
  }

  /** `evidence_payload`. */
  function EvidencePayload(k: Codec, e: Evidence): Json {
    Record(k.key, EVIDENCE_FIELDS, f => EvidenceField(k, e, f))
  }

  predicate AsciiLetter(c: int) { 65 <= c < 91 || 97 <= c < 123 }

  /** One segment of a fact's field path. */
  predicate FieldComponent(t: Text) {
    1 <= |t| <= 64 && (AsciiLetter(t[0]) || t[0] == 95)
    && forall i :: 1 <= i < |t| ==> AsciiLetter(t[i]) || 48 <= t[i] < 58 || t[i] in {45, 46, 95}
  }

  predicate FactOk(x: Fact) {
    && 1 <= |x.fieldPath| <= 8 && (forall i :: 0 <= i < |x.fieldPath| ==> FieldComponent(x.fieldPath[i]))
    && (x.value.Null? || x.value.Boolean? || x.value.Integer? || (x.value.Str? && NoControl(x.value.s)))
  }

  predicate InvalidatorOk(x: Invalidator) {
    x.kind in INVALIDATORS && AuditDetails.IsDigest(x.subjectId)
  }

  predicate ProducerOk(p: Producer) {
    AuditDetails.PublicComponent(p.name) && AuditDetails.PublicComponent(p.version) && AuditDetails.IsDigest(p.digest)
  }

  /** `_require_canonical_items`: unique and sorted by canonical bytes. */
  predicate CanonicalItems(nfc: Text -> Text, vs: seq<Json>) {
    && (forall i :: 0 <= i < |vs| ==> CanonicalBytes(nfc, vs[i]).Ok?)
    && forall i, j :: 0 <= i < j < |vs| ==> LexLt(CanonicalBytes(nfc, vs[i]).value, CanonicalBytes(nfc, vs[j]).value)
  }

  /** A complete command receipt. */
  predicate ReceiptOk(e: Evidence) {
    && e.terminalStatus.Some? && e.declaredOutputDigest.Some? && e.declaredOutputDigest == e.observedOutputDigest
    && e.collectedCheckCount.Some? && e.collectedCheckCount.value > 0 && e.paginationComplete == Some(true)
  }

  predicate OptDigest(o: Option<Text>) {
    o.Some? ==> AuditDetails.IsDigest(o.value)
  }

  /** The checks on everything but the two lists. */
  predicate ScalarsOk(e: Evidence) {
    && e.kind in KINDS && e.authority in AUTHORITIES && ProducerOk(e.producer) && e.completeness in COMPLETENESS
    && AuditDetails.IsDigest(e.evidenceId) && AuditDetails.IsDigest(e.subjectDigest) && AuditDetails.IsDigest(e.targetId)
    && AuditDetails.IsDigest(e.checkpointId) && AuditDetails.IsDigest(e.payloadDigest)
    && LogicalTime.Validate(e.observedAt).Ok?
    && (e.expiresAt.Some? ==> LogicalTime.Validate(e.expiresAt.value).Ok? && !LexLt(e.expiresAt.value, e.observedAt))
    && OptDigest(e.declaredOutputDigest) && OptDigest(e.observedOutputDigest)
    && (e.collectedCheckCount.Some? ==> e.collectedCheckCount.value >= 0)
    && (e.kind == CommandEvidence && e.completeness == Complete ==> ReceiptOk(e))
  }

  /** `_validate_evidence_content`. */
  predicate ContentOk(k: Codec, e: Evidence) {
    && ScalarsOk(e)
    && (forall i :: 0 <= i < |e.facts| ==> FactOk(e.facts[i])) && CanonicalItems(k.nfc, FactPayloads(k, e.facts))
    && (e.authority == DeterministicAuthority ==> e.facts != [])
    && (forall i :: 0 <= i < |e.invalidators| ==> InvalidatorOk(e.invalidators[i]))
    && CanonicalItems(k.nfc, InvalidatorPayloads(k, e.invalidators))
  }

  /** `record_id`, where it is defined. */
  function RecordId(k: Codec, recordType: Text, payload: Json): Option<Text> {
    match Preimage(k.nfc, recordType, V1, payload)
    case Err(_) => None
    case Ok(data) => Some(k.hash(data))
  }

  /** `validate_evidence`. */
  predicate EvidenceOk(k: Codec, e: Evidence) {
    ContentOk(k, e) && RecordId(k, EVIDENCE, EvidencePayload(k, e)) == Some(e.evidenceId)
  }

  ghost function ProducerFromPayload(k: Codec, v: Option<Json>): Option<Producer> {
    if v.None? || !HasFields(k.key, v.value, PRODUCER_FIELDS) then None
    else
      var ms := v.value.members;
      match (TextOf(Get(k.key, ms, NameKey)), TextOf(Get(k.key, ms, VersionKey)), TextOf(Get(k.key, ms, DigestKey)))
      case (Some(name), Some(version), Some(digest)) =>
        if ProducerOk(Producer(name, version, digest)) then Some(Producer(name, version, digest)) else None
      case _ => None
  }

  function TextItem(v: Json): Option<Text> {
    if v.Str? then Some(v.s) else None
  }

  ghost function FactFromPayload(k: Codec, v: Json): Option<Fact> {
    if !HasFields(k.key, v, FACT_FIELDS) then None
    else
      var path := Get(k.key, v.members, FieldPathKey);
      var value := Get(k.key, v.members, ValueKey);
      if path.None? || !path.value.Arr? || value.None? then None
      else
        match ReadAll(path.value.items, TextItem)
        case None => None
        case Some(fieldPath) => if FactOk(Fact(fieldPath, value.value)) then Some(Fact(fieldPath, value.value)) else None
  }

  ghost function InvalidatorFromPayload(k: Codec, v: Json): Option<Invalidator> {
    if !HasFields(k.key, v, INVALIDATOR_FIELDS) then None
    else
      var required := Get(k.key, v.members, RequiredKey);
      match (WordOf(k, INVALIDATORS, Get(k.key, v.members, KindKey)), TextOf(Get(k.key, v.members, SubjectIdKey)))
      case (Some(kind), Some(subjectId)) =>
        if required.Some? && required.value.Boolean? && InvalidatorOk(Invalidator(kind, subjectId, required.value.b))
        then Some(Invalidator(kind, subjectId, required.value.b)) else None
      case _ => None
  }

  ghost function FactsOf(k: Codec, v: Option<Json>): Option<seq<Fact>> {
    if v.Some? && v.value.Arr? then ReadAll(v.value.items, x => FactFromPayload(k, x)) else None
  }

  ghost function InvalidatorsOf(k: Codec, v: Option<Json>): Option<seq<Invalidator>> {
    if v.Some? && v.value.Arr? then ReadAll(v.value.items, x => InvalidatorFromPayload(k, x)) else None
  }

  /** The fields of `evidence_from_payload`, before the identity is derived. */
  ghost function ReadEvidence(k: Codec, ms: seq<Member>): Option<Evidence> {
    match (WordOf(k, KINDS, Get(k.key, ms, KindKey)), WordOf(k, AUTHORITIES, Get(k.key, ms, AuthorityKey)),
           WordOf(k, COMPLETENESS, Get(k.key, ms, CompletenessKey)), ProducerFromPayload(k, Get(k.key, ms, ProducerKey)),
           FactsOf(k, Get(k.key, ms, FactsKey)), InvalidatorsOf(k, Get(k.key, ms, InvalidatorsKey)))
    case (Some(kind), Some(authority), Some(completeness), Some(producer), Some(facts), Some(invalidators)) =>
      (match (TextOf(Get(k.key, ms, SubjectDigestKey)), TextOf(Get(k.key, ms, TargetIdKey)), TextOf(Get(k.key, ms, CheckpointIdKey)),
              TextOf(Get(k.key, ms, ObservedAtKey)), OptTextOf(Get(k.key, ms, ExpiresAtKey)), TextOf(Get(k.key, ms, PayloadDigestKey)))
       case (Some(subjectDigest), Some(targetId), Some(checkpointId), Some(observedAt), Some(expiresAt), Some(payloadDigest)) =>
         (match (OptIntegerOf(Get(k.key, ms, TerminalStatusKey)), OptTextOf(Get(k.key, ms, DeclaredOutputDigestKey)),
                 OptTextOf(Get(k.key, ms, ObservedOutputDigestKey)), OptIntegerOf(Get(k.key, ms, CollectedCheckCountKey)),
                 OptBooleanOf(Get(k.key, ms, PaginationCompleteKey)))
          case (Some(status), Some(declared), Some(observed), Some(count), Some(complete)) =>
            Some(Evidence([], kind, subjectDigest, authority, producer, targetId, checkpointId, observedAt, expiresAt, completeness,
                          status, declared, observed, count, complete, payloadDigest, facts, invalidators))
          case _ => None)
       case _ => None)
    case _ => None
  }

  /** `evidence_from_payload`. */
  ghost function EvidenceFromPayload(k: Codec, v: Json): Option<Evidence> {
    if !HasFields(k.key, v, EVIDENCE_FIELDS) then None
    else
      match ReadEvidence(k, v.members)
      case None => None
      case Some(read) =>
        match RecordId(k, EVIDENCE, EvidencePayload(k, read))
        case None => None
        case Some(id) =>
          var e := read.(evidenceId := id);
          if EvidenceOk(k, e) then Some(e) else None
  }

  // ----- stored records -----

  /** `make_record`. */
  function MakeRecord(k: Codec, recordType: Text, payload: Json): Result<StoredRecord, RecordError> {
    match (CanonicalBytes(k.nfc, payload), RecordId(k, recordType, payload))
    case (Ok(data), Some(id)) => Ok(StoredRecord(id, recordType, V1, data))
    case _ => Err(RecordSchemaError)
  }

  ghost predicate RecordOk(k: Codec, x: KernelRecord) {
    match x case CitationRecord(c) => CitationOk(k, c) case EvidenceRecord(e) => EvidenceOk(k, e)
  }

  function TypeOf(x: KernelRecord): Text {
    match x case CitationRecord(_) => CITATION case EvidenceRecord(_) => EVIDENCE
  }

  function PayloadOf(k: Codec, x: KernelRecord): (v: Json)
    ensures v.Obj?
  {
    match x case CitationRecord(c) => CitationPayload(k, c) case EvidenceRecord(e) => EvidencePayload(k, e)
  }

  /** `encode_record`. */
  function EncodeRecord(k: Codec, x: KernelRecord): Result<StoredRecord, RecordError> {
    MakeRecord(k, TypeOf(x), PayloadOf(k, x))
  }

  /** The record a payload of this type decodes to. */
  ghost function FromPayload(k: Codec, recordType: Text, v: Json): Option<KernelRecord> {
    if recordType == CITATION then
      match CitationFromPayload(k, v)
      case None => None
      case Some(c) => Some(CitationRecord(c))
    else if recordType == EVIDENCE then
      match EvidenceFromPayload(k, v)
      case None => None
      case Some(e) => Some(EvidenceRecord(e))
    else None
  }

  /** `decode_record`: decode, encode again, and insist on the same stored record. */
  ghost function DecodeRecord(k: Codec, stored: StoredRecord): Result<KernelRecord, RecordError> {
    if !AuditDetails.IsDigest(stored.recordId) then Err(RecordSchemaError)
    else
      match CanonicalLoads(k.nfc, stored.data)
      case Err(_) => Err(RecordSchemaError)
      case Ok(payload) =>
        if stored.version != V1 then Err(RecordSchemaError)
        else
          match FromPayload(k, stored.recordType, payload)
          case None => Err(RecordSchemaError)
          case Some(x) => if EncodeRecord(k, x) == Ok(stored) then Ok(x) else Err(RecordSchemaError)
  }
}
