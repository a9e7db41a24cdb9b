/** The audited state store as tables (store/base.py, store/sqlite.py): what replay
    verification accepts and what one transaction does, as functions of the tables. */
module Store {
  import opened Orders
  import opened Utf8
  import opened Canonical
  import AuditDetails
  import Identity
  import LogicalTime

  type Id = int

  /** A head name. Names are only compared for equality and order. */
  type Name = int

  // ----- records -----

  /** Checkpoint/v1. `carried` stands for the remaining protected fields, copied verbatim. */
  datatype Checkpoint = Checkpoint(
    parentId: Option<Id>,
    targetId: Id,
    goalId: Id,
    criterionIds: seq<Id>,
    instructionId: Id,
    policyId: Id,
    rulesetId: Id,
    carried: seq<seq<int>>,
    auditParentId: Option<Id>,
    intentId: Id,
    createdAt: Text)

  /** InitializationIntent/v1. */
  datatype Intent = Intent(
    sessionKey: Text, targetId: Id, goalId: Id, criterionIds: seq<Id>, instructionId: Id, policyId: Id, rulesetId: Id)

  /** Type, version and bytes of a stored record; checkpoints and intents by what they decode to. */
  datatype Content =
    | CheckpointContent(checkpoint: Checkpoint)
    | IntentContent(intent: Intent)
    | OtherContent(recordType: Text, version: Text, data: Bytes)

  datatype StoredRecord = StoredRecord(recordId: Id, content: Content)

  datatype LocalKind = CriterionText | GoalText | OtherKind
  datatype LocalId = LocalId(digest: Id, kind: LocalKind)
  datatype LocalDraft = LocalDraft(digest: Id, kind: LocalKind, value: Bytes, callerApproved: bool)

  // ----- heads and events -----

  datatype HeadState = HeadState(recordId: Id, auditEventId: Id, auditSequence: int)
  datatype HeadChange = HeadChange(name: Name, expected: Option<HeadState>, newRecordId: Id)

  /** Stored head updates: an object, or the older list form with the name inside each item. */
  datatype HeadUpdates = HeadUpdates(listForm: bool, changes: seq<HeadChange>)

  datatype EventPayload = EventPayload(
    details: Json,
    headUpdates: HeadUpdates,
    insertedRecordIds: seq<Id>,
    kind: Text,
    localValues: seq<LocalId>,
    logicalTime: Text,
    previousEventId: Option<Id>,
    recordIds: seq<Id>,
    sequence: int,
    storeId: Text,
    subjectId: Id)

  /** `decodes` says whether the bytes of the row are a canonical event with fields of the right
      shape, names of heads included; only then is `payload` what they hold. */
  datatype EventRow = EventRow(
    sequence: int, eventId: Id, previousEventId: Option<Id>, payload: EventPayload, decodes: bool)

  datatype Tables = Tables(
    records: map<Id, Content>, locals: map<LocalId, Bytes>, events: seq<EventRow>, heads: map<Name, HeadState>,
    metadata: map<Text, Bytes>)

  /** The hash functions, as arbitrary functions of what they hash, and Unicode NFC. */
  datatype Env = Env(
    recordIdOf: Content -> Id, eventIdOf: EventPayload -> Id, digestOf: Bytes -> Id, nfc: Text -> Text)

  datatype Anchor = Anchor(storeId: Text, auditSequence: int, auditHeadId: Id)

  datatype Config = Config(storeId: Text, trustedAnchor: Option<Anchor>, readOnly: bool)

  function Get<K, V>(m: map<K, V>, k: K): Option<V> {
    if k in m then Some(m[k]) else None
  }

  // ----- replay verification -----

  /** The bytes are those of a canonical object, and its identity can be derived: type and version
      are nonempty ASCII without NUL. */
  predicate Identified(nfc: Text -> Text, recordType: Text, version: Text, data: Bytes) {
    match CanonicalLoads(nfc, data)
    case Err(_) => false
    case Ok(payload) => Identity.Preimage(nfc, recordType, version, payload).Ok?
  }

  /** `_validate_stored_record`. */
  predicate ValidRecord(env: Env, id: Id, content: Content) {
    && (content.OtherContent? ==> Identified(env.nfc, content.recordType, content.version, content.data))
    && env.recordIdOf(content) == id
  }

  /** The order of the pairs (digest, kind). */
  function LocalOrder(l: LocalId): int {
    l.digest * 3 + (match l.kind case CriterionText => 0 case GoalText => 1 case OtherKind => 2)
  }

  predicate LocalsSorted(ls: seq<LocalId>) {
    forall i, j :: 0 <= i < j < |ls| ==> LocalOrder(ls[i]) < LocalOrder(ls[j])
  }

  predicate Ordered(s: seq<int>) {
    forall i, j :: 0 <= i < j < |s| ==> s[i] < s[j]
  }

  predicate ChangesSorted(cs: seq<HeadChange>) {
    forall i, j :: 0 <= i < j < |cs| ==> cs[i].name < cs[j].name
  }

  /** What replaying a prefix of the log has established. */
  datatype Replay = Replay(heads: map<Name, HeadState>, inserted: set<Id>, locals: set<LocalId>, previous: Option<Id>)

  const GENESIS := Replay(map[], {}, {}, None)

  predicate PayloadOk(env: Env, storeId: Text, row: EventRow) {
    var p := row.payload;
    && row.decodes && env.eventIdOf(p) == row.eventId
    && p.sequence == row.sequence && p.previousEventId == row.previousEventId && p.storeId == storeId
    && LogicalTime.Validate(p.logicalTime).Ok?
    && AuditDetails.PublicComponent(p.kind)
    && AuditDetails.NormalizeDetails(env.nfc, p.details, 0) == Ok(p.details)
  }

  predicate RecordsOk(st: Replay, p: EventPayload) {
    && Ordered(p.recordIds) && Ordered(p.insertedRecordIds)
    && Elems(p.insertedRecordIds) <= Elems(p.recordIds)
    && st.inserted !! Elems(p.insertedRecordIds)
    && Elems(p.recordIds) <= st.inserted + Elems(p.insertedRecordIds)
    && p.subjectId in st.inserted + Elems(p.insertedRecordIds)
  }

  predicate LocalsOk(localRows: set<LocalId>, p: EventPayload) {
    && Elems(p.localValues) <= localRows
    && LocalsSorted(p.localValues)
    && (p.sequence != 1 ==> p.localValues == [])
  }

  predicate HeadsOk(st: Replay, p: EventPayload) {
    var cs := p.headUpdates.changes;
    && cs != [] && ChangesSorted(cs)
    && forall i :: 0 <= i < |cs| ==>
         && (cs[i].expected.Some? ==> cs[i].expected.value.auditSequence > 0)
         && Get(st.heads, cs[i].name) == cs[i].expected
         && cs[i].newRecordId in st.inserted + Elems(p.insertedRecordIds)
  }

  /** The checks on one row of the log, given the replay of the rows before it. */
  predicate RowOk(env: Env, storeId: Text, localRows: set<LocalId>, st: Replay, row: EventRow, expectedSequence: int) {
    && row.sequence == expectedSequence
    && row.previousEventId == st.previous
    && PayloadOk(env, storeId, row)
    && RecordsOk(st, row.payload)
    && LocalsOk(localRows, row.payload)
    && HeadsOk(st, row.payload)
  }

  function MoveHeads(heads: map<Name, HeadState>, cs: seq<HeadChange>, eventId: Id,
        sequence: int): map<Name, HeadState> {
    if cs == [] then heads
    else
      var n := |cs| - 1;
      MoveHeads(heads, cs[..n], eventId, sequence)[cs[n].name := HeadState(cs[n].newRecordId, eventId, sequence)]
  }

  function Advance(st: Replay, row: EventRow): Replay {
    Replay(
      MoveHeads(st.heads, row.payload.headUpdates.changes, row.eventId, row.sequence),
      st.inserted + Elems(row.payload.insertedRecordIds),
      st.locals + Elems(row.payload.localValues),
      Some(row.eventId))
  }

  function ReplayLog(env: Env, storeId: Text, localRows: set<LocalId>, rows: seq<EventRow>): Option<Replay> {
    if rows == [] then Some(GENESIS)
    else
      var n := |rows| - 1;
      match ReplayLog(env, storeId, localRows, rows[..n])
      case None => None
      case Some(st) => if RowOk(env, storeId, localRows, st, rows[n], n + 1) then Some(Advance(st, rows[n])) else None
  }

  // the texts schema_version and store_id
  const SCHEMA_VERSION_KEY: Text := [115, 99, 104, 101, 109, 97, 95, 118, 101, 114, 115, 105, 111, 110]
  const STORE_ID_KEY: Text := [115, 116, 111, 114, 101, 95, 105, 100]

  /** The metadata of a store: schema version 1 and its identifier. */
  function Metadata(storeId: Text): map<Text, Bytes> {
    map[SCHEMA_VERSION_KEY := [49], STORE_ID_KEY := Encode(storeId)]
  }

  /** The record table holds only records whose content has their identifier. */
  predicate RecordTableOk(env: Env, t: Tables) {
    forall id :: id in t.records ==> ValidRecord(env, id, t.records[id])
  }

  predicate LocalTableOk(env: Env, t: Tables) {
    forall l :: l in t.locals ==> l.kind != OtherKind && env.digestOf(t.locals[l]) == l.digest
  }

  /** The tables are exactly what the log accounts for. */
  predicate Accounted(t: Tables, st: Replay) {
    t.heads == st.heads && t.records.Keys == st.inserted && t.locals.Keys == st.locals
  }

  /** `_verify_state` without an anchor: tables it finds consistent. */
  predicate Verified(env: Env, storeId: Text, t: Tables) {
    && t.metadata == Metadata(storeId) && RecordTableOk(env, t) && LocalTableOk(env, t)
    && match ReplayLog(env, storeId, t.locals.Keys, t.events)
       case None => false
       case Some(st) => Accounted(t, st)
  }

  predicate AnchorMatches(storeId: Text, t: Tables, anchor: Anchor) {
    && anchor.storeId == storeId
    && 1 <= anchor.auditSequence <= |t.events|
    && t.events[anchor.auditSequence - 1].eventId == anchor.auditHeadId
  }

  predicate TrustedAnchorMatches(config: Config, t: Tables) {
    config.trustedAnchor.Some? ==> AnchorMatches(config.storeId, t, config.trustedAnchor.value)
  }

  // ----- requests -----

  /** `LocalsAfterGenesis` is the validation error that callers tell apart by its message. */
  datatype StoreError = Validation | LocalsAfterGenesis | Conflict | Integrity | Fault

  datatype EventDraft = EventDraft(kind: Text, subjectId: Id, logicalTime: Text, details: Json)

  /** What the AuditEventDraft constructor guarantees. */
  predicate DraftOk(env: Env, d: EventDraft) {
    && AuditDetails.PublicComponent(d.kind)
    && LogicalTime.Validate(d.logicalTime).Ok?
    && AuditDetails.NormalizeDetails(env.nfc, d.details, 0) == Ok(d.details)
  }

  datatype Request = Request(
    records: seq<StoredRecord>, localValues: seq<LocalDraft>, event: EventDraft, headUpdates: seq<HeadChange>)

  /** A request after the three normalisations. */
  datatype Plan = Plan(records: map<Id, Content>, locals: map<LocalId, Bytes>, changes: map<Name, HeadChange>)

  function NormalizeRecords(env: Env, rs: seq<StoredRecord>): (result: Result<map<Id, Content>, StoreError>)
    ensures result.Err? ==> result.error == Validation || result.error == Integrity
  {
    if rs == [] then Ok(map[])
    else
      var r := rs[|rs| - 1];
      match NormalizeRecords(env, rs[..|rs| - 1])
      case Err(e) => Err(e)
      case Ok(byId) =>
        if !ValidRecord(env, r.recordId, r.content) then Err(Integrity)
        else if r.recordId in byId then Err(if byId[r.recordId] != r.content then Integrity else Validation)
        else Ok(byId[r.recordId := r.content])
  }

  function NormalizeLocals(env: Env, vs: seq<LocalDraft>): (result: Result<map<LocalId, Bytes>, StoreError>)
    ensures result.Err? ==> result.error == Validation || result.error == Integrity
  {
    if vs == [] then Ok(map[])
    else
      var v := vs[|vs| - 1];
      var id := LocalId(v.digest, v.kind);
      match NormalizeLocals(env, vs[..|vs| - 1])
      case Err(e) => Err(e)
      case Ok(byId) =>
        if !v.callerApproved || v.kind == OtherKind || env.digestOf(v.value) != v.digest then Err(Validation)
        else if id in byId then Err(if byId[id] != v.value then Integrity else Validation)
        else Ok(byId[id := v.value])
  }

  function ChangesByName(us: seq<HeadChange>): (result: Result<map<Name, HeadChange>, StoreError>)
    ensures result.Err? ==> result.error == Validation || result.error == Integrity
  {
    if us == [] then Ok(map[])
    else
      var u := us[|us| - 1];
      match ChangesByName(us[..|us| - 1])
      case Err(e) => Err(e)
      case Ok(byName) => if u.name in byName then Err(Validation) else Ok(byName[u.name := u])
  }

  function NormalizeUpdates(us: seq<HeadChange>): (result: Result<map<Name, HeadChange>, StoreError>)
    ensures result.Err? ==> result.error == Validation || result.error == Integrity
  {
    if us == [] then Err(Validation) else ChangesByName(us)
  }

  function Normalize(env: Env, r: Request): (result: Result<Plan, StoreError>)
    ensures result.Err? ==> result.error == Validation || result.error == Integrity
  {
    match NormalizeRecords(env, r.records)
    case Err(e) => Err(e)
    case Ok(records) =>
      match NormalizeLocals(env, r.localValues)
      case Err(e) => Err(e)
      case Ok(locals) =>
        match NormalizeUpdates(r.headUpdates)
        case Err(e) => Err(e)
        case Ok(changes) => Ok(Plan(records, locals, changes))
  }

  /** The changes in name order. */
  function ListChanges(changes: map<Name, HeadChange>): (cs: seq<HeadChange>)
    ensures |cs| == |changes|
  {
    var names := SortSet(changes.Keys);
    assert forall i :: 0 <= i < |names| ==> names[i] in names && names[i] in changes;
    assert |names| == |changes.Keys| == |changes|;
    seq(|names|, i requires 0 <= i < |names| => changes[names[i]])
  }

  function LocalFromOrder(n: int): LocalId {
    LocalId(n / 3, if n % 3 == 0 then CriterionText else if n % 3 == 1 then GoalText else OtherKind)
  }

  /** The identities in the order of the pairs (digest, kind). */
  function ListLocals(ls: set<LocalId>): seq<LocalId> {
    var orders := SortSet(set l | l in ls :: LocalOrder(l));
    seq(|orders|, i requires 0 <= i < |orders| => LocalFromOrder(orders[i]))
  }

  // ----- transactions -----

  /** What identifies a transaction when it is submitted again. */
  datatype Signature = Signature(
    details: Json, changes: seq<HeadChange>, kind: Text, localValues: seq<LocalId>, logicalTime: Text,
    recordIds: seq<Id>, storeId: Text, subjectId: Id)

  function TransactionSignature(storeId: Text, p: Plan, d: EventDraft): Signature {
    Signature(d.details, ListChanges(p.changes), d.kind, ListLocals(p.locals.Keys), d.logicalTime,
              SortSet(p.records.Keys), storeId, d.subjectId)
  }

  function EventSignature(p: EventPayload): Signature {
    Signature(p.details, p.headUpdates.changes, p.kind, p.localValues, p.logicalTime, p.recordIds, p.storeId, p.subjectId)
  }

  datatype Receipt = Receipt(heads: seq<(Name, HeadState)>, insertedRecordIds: seq<Id>)

  function ReceiptHeads(cs: seq<HeadChange>, eventId: Id, sequence: int): seq<(Name, HeadState)> {
    seq(|cs|, i requires 0 <= i < |cs| => (cs[i].name, HeadState(cs[i].newRecordId, eventId, sequence)))
  }

  predicate HeadsStillAt(heads: map<Name, HeadState>, cs: seq<HeadChange>, row: EventRow) {
    forall i :: 0 <= i < |cs| ==>
      Get(heads, cs[i].name) == Some(HeadState(cs[i].newRecordId, row.eventId, row.sequence))
  }

  /** The newest event with this signature whose heads have not moved since. */
  function ExistingRetryReceipt(rows: seq<EventRow>, heads: map<Name, HeadState>,
        signature: Signature): Option<Receipt> {
    if rows == [] then None
    else
      var row := rows[|rows| - 1];
      if EventSignature(row.payload) == signature && HeadsStillAt(heads, signature.changes, row)
      then Some(Receipt(ReceiptHeads(signature.changes, row.eventId, row.sequence), row.payload.insertedRecordIds))
      else ExistingRetryReceipt(rows[..|rows| - 1], heads, signature)
  }

  predicate HeadsExpected(heads: map<Name, HeadState>, changes: map<Name, HeadChange>) {
    forall name :: name in changes ==> Get(heads, name) == changes[name].expected
  }

  predicate Contradicts(records: map<Id, Content>, supplied: map<Id, Content>) {
    exists id :: id in supplied && id in records && records[id] != supplied[id]
  }

  function NewIds(records: map<Id, Content>, supplied: map<Id, Content>): seq<Id> {
    SortSet(supplied.Keys - records.Keys)
  }

  function LastEventId(t: Tables): Option<Id> {
    if t.events == [] then None else Some(t.events[|t.events| - 1].eventId)
  }

  function BuildPayload(storeId: Text, t: Tables, p: Plan, d: EventDraft): EventPayload {
    EventPayload(
      d.details, HeadUpdates(false, ListChanges(p.changes)), NewIds(t.records, p.records), d.kind,
      ListLocals(p.locals.Keys), d.logicalTime, LastEventId(t), SortSet(p.records.Keys), |t.events| + 1, storeId,
      d.subjectId)
  }

  /** The tables after a transaction that goes through. */
  function Committed(env: Env, storeId: Text, t: Tables, p: Plan, d: EventDraft): Tables {
    var payload := BuildPayload(storeId, t, p, d);
    var row := EventRow(payload.sequence, env.eventIdOf(payload), payload.previousEventId, payload, true);
    Tables(
      p.records + t.records,
      t.locals + p.locals,
      t.events + [row],
      MoveHeads(t.heads, ListChanges(p.changes), row.eventId, row.sequence),
      t.metadata)
  }

  function CommitReceipt(env: Env, storeId: Text, t: Tables, p: Plan, d: EventDraft): Receipt {
    var payload := BuildPayload(storeId, t, p, d);
    Receipt(ReceiptHeads(ListChanges(p.changes), env.eventIdOf(payload), payload.sequence), NewIds(t.records, p.records))
  }

  /** A record contradicts the stored one, or the subject or a new head is not a record. */
  predicate RowsRefused(t: Tables, p: Plan, d: EventDraft) {
    || Contradicts(t.records, p.records)
    || (d.subjectId !in t.records && d.subjectId !in p.records)
    || exists name :: name in p.changes
         && p.changes[name].newRecordId !in t.records && p.changes[name].newRecordId !in p.records
  }

  /** The event_id column is unique. */
  predicate EventIdTaken(env: Env, storeId: Text, t: Tables, p: Plan, d: EventDraft) {
    exists i :: 0 <= i < |t.events| && t.events[i].eventId == env.eventIdOf(BuildPayload(storeId, t, p, d))
  }

  datatype Decision = Refused(error: StoreError) | Retried(receipt: Receipt) | Admitted

  /** What a transaction does, faults aside: the checks in the order they are made. */
  function Decide(env: Env, config: Config, t: Tables, p: Plan, d: EventDraft): Decision {
    if !Verified(env, config.storeId, t) || !TrustedAnchorMatches(config, t) then Refused(Integrity)
    else
      match ExistingRetryReceipt(t.events, t.heads, TransactionSignature(config.storeId, p, d))
      case Some(receipt) => Retried(receipt)
      case None =>
        if p.locals != map[] && t.events != [] then Refused(LocalsAfterGenesis)
        else if !HeadsExpected(t.heads, p.changes) then Refused(Conflict)
        else if RowsRefused(t, p, d) || EventIdTaken(env, config.storeId, t, p, d) then Refused(Integrity)
        else Admitted
  }
}
