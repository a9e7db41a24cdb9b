/** The session protocol on top of the store (api.py): any number of `initialize` and
    `checkpoint` calls, interleaved in any way, over one session head. */
module Session {
  import opened Orders
  import opened Utf8
  import Canonical
  import opened Store
  import opened StoreLaws
  import opened StoreRuns
  import SqliteStore

  const CHECKPOINT_ATTEMPTS := 3

  // the texts initialize and checkpoint
  const INITIALIZE_KIND: Text := [105, 110, 105, 116, 105, 97, 108, 105, 122, 101]
  const CHECKPOINT_KIND: Text := [99, 104, 101, 99, 107, 112, 111, 105, 110, 116]

  datatype SessionError = Unavailable | TransitionRefused | AlreadyInitialized | HeadMoved | StoreFailed(error: StoreError)

  // ----- what the calls write -----

  /** Everything an `initialize` call brings; `others` are its remaining records. */
  datatype Genesis = Genesis(
    intent: Intent, carried: seq<seq<int>>, createdAt: Text, details: Canonical.Json,
    others: seq<StoredRecord>, locals: seq<LocalDraft>)

  function GenesisCheckpoint(env: Env, g: Genesis): Checkpoint {
    Checkpoint(None, g.intent.targetId, g.intent.goalId, g.intent.criterionIds, g.intent.instructionId, g.intent.policyId,
               g.intent.rulesetId, g.carried, None, env.recordIdOf(IntentContent(g.intent)), g.createdAt)
  }

  function RecordOf(env: Env, content: Content): StoredRecord {
    StoredRecord(env.recordIdOf(content), content)
  }

  function GenesisRequest(env: Env, name: Name, g: Genesis): Request {
    var record := RecordOf(env, CheckpointContent(GenesisCheckpoint(env, g)));
    Request(g.others + [RecordOf(env, IntentContent(g.intent)), record], g.locals,
            EventDraft(INITIALIZE_KIND, record.recordId, g.createdAt, g.details),
            [HeadChange(name, None, record.recordId)])
  }

  /** `build_subsequent_checkpoint`: the parent's protected fields under new links. */
  function Child(parent: Checkpoint, parentId: Id, auditParentId: Id, createdAt: Text): Checkpoint {
    parent.(parentId := Some(parentId), auditParentId := Some(auditParentId), createdAt := createdAt)
  }

  function ChildRequest(env: Env, name: Name, head: HeadState, parent: Checkpoint, createdAt: Text,
        details: Canonical.Json): Request {
    var record := RecordOf(env, CheckpointContent(Child(parent, head.recordId, head.auditEventId, createdAt)));
    Request([record], [], EventDraft(CHECKPOINT_KIND, record.recordId, createdAt, details),
            [HeadChange(name, Some(head), record.recordId)])
  }

  /** The fields no checkpoint of a session may change. */
  predicate SameProtected(a: Checkpoint, b: Checkpoint) {
    && a.targetId == b.targetId && a.goalId == b.goalId && a.criterionIds == b.criterionIds
    && a.instructionId == b.instructionId && a.policyId == b.policyId && a.rulesetId == b.rulesetId
    && a.carried == b.carried && a.intentId == b.intentId
  }

  /** The checkpoint was made over this head and its checkpoint: its parent is the head's record,
      its audit parent the event that installed the head, and the protected fields are kept. */
  predicate LinksTo(c: Checkpoint, parent: Checkpoint, head: HeadState) {
    c.parentId == Some(head.recordId) && c.auditParentId == Some(head.auditEventId) && SameProtected(c, parent)
  }

  // ----- what the calls read -----

  /** `_load_checkpoint_record`: absent, invalid, or a checkpoint. */
  function LoadCheckpoint(env: Env, t: Tables, id: Id): Result<Option<Checkpoint>, StoreError> {
    if id !in t.records then Ok(None)
    else if !ValidRecord(env, id, t.records[id]) || !t.records[id].CheckpointContent? then Err(Integrity)
    else Ok(Some(t.records[id].checkpoint))
  }

  /** `_reconcile_existing`. */
  function ReconcileExisting(env: Env, t: Tables, name: Name, intent: Intent): Result<HeadState, SessionError> {
    if name !in t.heads then Err(StoreFailed(Conflict))
    else
      var head := t.heads[name];
      if head.recordId !in t.records || !ValidRecord(env, head.recordId, t.records[head.recordId])
        || !t.records[head.recordId].CheckpointContent?
      then Err(StoreFailed(Integrity))
      else
        var existing := t.records[head.recordId].checkpoint.intentId;
        if existing !in t.records || !ValidRecord(env, existing, t.records[existing]) then Err(StoreFailed(Integrity))
        else if StoredRecord(existing, t.records[existing]) != RecordOf(env, IntentContent(intent)) then Err(AlreadyInitialized)
        else Ok(head)
  }

  // ----- steps of the calls -----

  /** What one `commit` may do and report: a fault before COMMIT leaves the tables alone, and a
      commit that went through may still be reported as an integrity failure. */
  ghost predicate CommitStep(env: Env, config: Config, t: Tables, r: Request, t': Tables,
        o: Result<HeadState, StoreError>) {
    && DraftOk(env, r.event)
    && match SqliteStore.Attempt(env, config, t, r)
       case Refused(e) => t' == t && (o == Err(e) || o == Err(Fault))
       case Retried(receipt) => t' == t && receipt.heads != [] && o == Ok(receipt.heads[0].1)
       case Admitted =>
         var p := Normalize(env, r).value;
         var receipt := CommitReceipt(env, config.storeId, t, p, r.event);
         || (t' == t && o == Err(Fault))
         || (t' == Committed(env, config.storeId, t, p, r.event)
             && (o == Err(Integrity) || (receipt.heads != [] && o == Ok(receipt.heads[0].1))))
  }

  datatype Call =
    | Idle
    | Initializing(genesis: Genesis)
    | Ready(attempt: nat, head: HeadState, parent: Checkpoint)
    | Again(attempt: nat)
    | Ended(outcome: Result<HeadState, SessionError>)

  datatype World = World(tables: Tables, calls: seq<Call>)

  /** `initialize` reads the head: a session that exists is reconciled at once. */
  ghost predicate StartInitialize(env: Env, name: Name, w: World, w': World, c: nat, g: Genesis) {
    && c < |w.calls| && w.calls[c] == Idle && w'.tables == w.tables
    && w'.calls == w.calls[c :=
         if name in w.tables.heads then Ended(ReconcileExisting(env, w.tables, name, g.intent)) else Initializing(g)]
  }

  function InitializeEnds(env: Env, t: Tables, name: Name, g: Genesis, o: Result<HeadState, StoreError>): Call {
    match o
    case Ok(head) => Ended(Ok(head))
    case Err(Conflict) => Ended(ReconcileExisting(env, t, name, g.intent))
    case Err(LocalsAfterGenesis) =>
      Ended(if name in t.heads then ReconcileExisting(env, t, name, g.intent) else Err(StoreFailed(LocalsAfterGenesis)))
    case Err(e) => Ended(Err(StoreFailed(e)))
  }

  ghost predicate CommitInitialize(env: Env, name: Name, config: Config, w: World, w': World, c: nat,
        o: Result<HeadState, StoreError>) {
    && c < |w.calls| && w.calls[c].Initializing?
    && CommitStep(env, config, w.tables, GenesisRequest(env, name, w.calls[c].genesis), w'.tables, o)
    && w'.calls == w.calls[c := InitializeEnds(env, w'.tables, name, w.calls[c].genesis, o)]
  }

  /** `checkpoint` reads the head and its record; the captures then admit the step or not. */
  function AfterRead(env: Env, t: Tables, name: Name, attempt: nat, admitted: bool): Call {
    if name !in t.heads then Ended(Err(Unavailable))
    else
      match LoadCheckpoint(env, t, t.heads[name].recordId)
      case Err(e) => Ended(Err(StoreFailed(e)))
      case Ok(None) => Ended(Err(StoreFailed(Integrity)))
      case Ok(Some(parent)) => if admitted then Ready(attempt, t.heads[name], parent) else Ended(Err(TransitionRefused))
  }

  ghost predicate ReadHead(env: Env, name: Name, w: World, w': World, c: nat, admitted: bool) {
    && c < |w.calls| && (w.calls[c] == Idle || w.calls[c].Again?) && w'.tables == w.tables
    && w'.calls == w.calls[c :=
         AfterRead(env, w.tables, name, if w.calls[c].Again? then w.calls[c].attempt else 0, admitted)]
  }

  function CheckpointEnds(attempt: nat, o: Result<HeadState, StoreError>): Call {
    match o
    case Ok(head) => Ended(Ok(head))
    case Err(Conflict) => if attempt + 1 == CHECKPOINT_ATTEMPTS then Ended(Err(HeadMoved)) else Again(attempt + 1)
    case Err(e) => Ended(Err(StoreFailed(e)))
  }

  ghost predicate CommitCheckpoint(env: Env, name: Name, config: Config, w: World, w': World, c: nat, createdAt: Text,
                                   details: Canonical.Json, o: Result<HeadState, StoreError>) {
    && c < |w.calls| && w.calls[c].Ready?
    && CommitStep(env, config, w.tables,
                  ChildRequest(env, name, w.calls[c].head, w.calls[c].parent, createdAt, details), w'.tables, o)
    && w'.calls == w.calls[c := CheckpointEnds(w.calls[c].attempt, o)]
  }

  /** Any other transaction of the store, as long as it leaves the session head alone. */
  ghost predicate OtherTransaction(env: Env, name: Name, config: Config, w: World, w': World, r: Request,
        o: Result<HeadState, StoreError>) {
    && (forall i :: 0 <= i < |r.headUpdates| ==> r.headUpdates[i].name != name)
    && CommitStep(env, config, w.tables, r, w'.tables, o)
    && w'.calls == w.calls
  }

  /** A caller that has its answer may call again. */
  ghost predicate Return(w: World, w': World, c: nat) {
    c < |w.calls| && w.calls[c].Ended? && w' == World(w.tables, w.calls[c := Idle])
  }

  ghost predicate Next(env: Env, storeId: Text, name: Name, w: World, w': World) {
    || (exists c: nat, g :: StartInitialize(env, name, w, w', c, g))
    || (exists config: Config, c: nat, o :: config.storeId == storeId && CommitInitialize(env, name, config, w, w', c, o))
    || (exists c: nat, admitted :: ReadHead(env, name, w, w', c, admitted))
    || (exists config: Config, c: nat, createdAt, details, o ::
          config.storeId == storeId && CommitCheckpoint(env, name, config, w, w', c, createdAt, details, o))
    || (exists config: Config, r, o :: config.storeId == storeId && OtherTransaction(env, name, config, w, w', r, o))
    || (exists c: nat :: Return(w, w', c))
  }

  ghost predicate Behaviour(env: Env, storeId: Text, name: Name, ws: seq<World>) {
    && ws != [] && ws[0].tables == Empty(storeId) && (forall c :: 0 <= c < |ws[0].calls| ==> ws[0].calls[c] == Idle)
    && forall i :: 0 <= i < |ws| - 1 ==> Next(env, storeId, name, ws[i], ws[i + 1])
  }

  // ----- the invariant -----

  /** A change of the session head installs a checkpoint that is linked to the head it replaces,
      or, when there was none, a checkpoint without parent made for a stored intent. */
  ghost predicate LinkedChange(records: map<Id, Content>, change: HeadChange) {
    && change.newRecordId in records && records[change.newRecordId].CheckpointContent?
    && var cp := records[change.newRecordId].checkpoint;
    match change.expected
    case None =>
      && cp.parentId == None && cp.auditParentId == None
      && cp.intentId in records && records[cp.intentId].IntentContent?
      && var intent := records[cp.intentId].intent;
      && cp.targetId == intent.targetId && cp.goalId == intent.goalId && cp.criterionIds == intent.criterionIds
      && cp.instructionId == intent.instructionId && cp.policyId == intent.policyId && cp.rulesetId == intent.rulesetId
    case Some(head) =>
      && head.recordId in records && records[head.recordId].CheckpointContent?
      && LinksTo(cp, records[head.recordId].checkpoint, head)
  }

  ghost predicate RowChained(records: map<Id, Content>, row: EventRow, name: Name) {
    var cs := row.payload.headUpdates.changes;
    forall i :: 0 <= i < |cs| && cs[i].name == name ==> LinkedChange(records, cs[i])
  }

  ghost predicate Linked(t: Tables, name: Name) {
    forall i :: 0 <= i < |t.events| ==> RowChained(t.records, t.events[i], name)
  }

  /** The head was put there by an event of the log. */
  ghost predicate Installed(rows: seq<EventRow>, name: Name, head: HeadState) {
    && 1 <= head.auditSequence <= |rows|
    && var row := rows[head.auditSequence - 1];
    && row.eventId == head.auditEventId && Changes(row.payload.headUpdates.changes, name)
    && NewRecordFor(row.payload.headUpdates.changes, name) == head.recordId
  }

  ghost predicate CallOk(t: Tables, name: Name, call: Call) {
    match call
    case Ready(attempt, head, parent) =>
      && attempt < CHECKPOINT_ATTEMPTS && Installed(t.events, name, head)
      && head.recordId in t.records && t.records[head.recordId] == CheckpointContent(parent)
    case Again(attempt) => attempt < CHECKPOINT_ATTEMPTS
    case Ended(Ok(head)) => Installed(t.events, name, head)
    case _ => true
  }

  ghost predicate Inv(env: Env, storeId: Text, name: Name, w: World) {
    && Verified(env, storeId, w.tables) && Linked(w.tables, name)
    && forall c :: 0 <= c < |w.calls| ==> CallOk(w.tables, name, w.calls[c])
  }

  /** Nothing is ever removed or overwritten: the log and the records only grow. */
  ghost predicate Grows(t: Tables, t': Tables) {
    && t.events <= t'.events
    && forall id :: id in t.records ==> id in t'.records && t'.records[id] == t.records[id]
  }

  lemma {:induction false} LinkedChangeKept(records: map<Id, Content>, records': map<Id, Content>, change: HeadChange)
    requires LinkedChange(records, change)
    requires forall id :: id in records ==> id in records' && records'[id] == records[id]
    ensures LinkedChange(records', change)
  {
  }

  lemma {:induction false} RowChainedKept(records: map<Id, Content>, records': map<Id, Content>, row: EventRow,
        name: Name)
    requires RowChained(records, row, name)
    requires forall id :: id in records ==> id in records' && records'[id] == records[id]
    ensures RowChained(records', row, name)
  {
    hide LinkedChange;
    var cs := row.payload.headUpdates.changes;
    forall i | 0 <= i < |cs| && cs[i].name == name ensures LinkedChange(records', cs[i]) {
      LinkedChangeKept(records, records', cs[i]);
    }
  }

  lemma {:induction false} CallKept(t: Tables, t': Tables, name: Name, call: Call)
    requires CallOk(t, name, call) && Grows(t, t')
    ensures CallOk(t', name, call)
  {
    hide Changes, NewRecordFor;
  }

  lemma {:induction false} CommitGrows(env: Env, config: Config, t: Tables, r: Request, t': Tables,
        o: Result<HeadState, StoreError>)
    requires Verified(env, config.storeId, t) && CommitStep(env, config, t, r, t', o)
    ensures Verified(env, config.storeId, t') && Grows(t, t')
  {
    hide Verified, Decide, Normalize, BuildPayload, MoveHeads, ListChanges, PlanOk, DraftOk;
    if t' != t {
      var p := Normalize(env, r).value;
      NormalizeOk(env, r);
      CommitKeepsVerified(env, config, t, p, r.event);
    }
  }

  /** The event a commit appends carries just the head updates of its request. */
  lemma {:induction false} AppendedChanges(env: Env, config: Config, t: Tables, r: Request, i: nat)
    requires Normalize(env, r).Ok?
    requires i < |ListChanges(Normalize(env, r).value.changes)|
    ensures var row := Committed(env, config.storeId, t, Normalize(env, r).value, r.event).events[|t.events|];
      && row.payload.headUpdates.changes == ListChanges(Normalize(env, r).value.changes)
      && row.payload.headUpdates.changes[i] in r.headUpdates
  {
    hide ListLocals, SortSet, MoveHeads, ListChanges, NormalizeRecords, NormalizeLocals, ChangesByName;
    var p := Normalize(env, r).value;
    ChangesByNameOk(r.headUpdates);
    ListChangesFacts(p.changes);
    assert p.changes[ListChanges(p.changes)[i].name] == ListChanges(p.changes)[i];
  }

  lemma {:induction false} CommitLinked(env: Env, config: Config, t: Tables, r: Request, t': Tables,
        o: Result<HeadState, StoreError>, name: Name)
    requires Verified(env, config.storeId, t) && CommitStep(env, config, t, r, t', o) && Linked(t, name)
    requires t' != t ==> forall u :: u in r.headUpdates && u.name == name ==> LinkedChange(t'.records, u)
    ensures Linked(t', name)
  {
    hide Verified, LinkedChange, Decide, Normalize, BuildPayload, MoveHeads, ListChanges, DraftOk, RowChained;
    CommitGrows(env, config, t, r, t', o);
    if t' != t {
      var n := |t.events|;
      var p := Normalize(env, r).value;
      forall i | 0 <= i < |t'.events| ensures RowChained(t'.records, t'.events[i], name) {
        if i < n {
          assert t'.events[i] == t.events[i];
          RowChainedKept(t.records, t'.records, t.events[i], name);
        } else {
          AppendedLinked(env, config, t, r, name);
        }
      }
    }
  }

  lemma {:induction false} AppendedLinked(env: Env, config: Config, t: Tables, r: Request, name: Name)
    requires Normalize(env, r).Ok?
    requires var t' := Committed(env, config.storeId, t, Normalize(env, r).value, r.event);
      forall u :: u in r.headUpdates && u.name == name ==> LinkedChange(t'.records, u)
    ensures var t' := Committed(env, config.storeId, t, Normalize(env, r).value, r.event);
      RowChained(t'.records, t'.events[|t.events|], name)
  {
    hide Normalize, BuildPayload, MoveHeads, LinkedChange, ListChanges;
    var t' := Committed(env, config.storeId, t, Normalize(env, r).value, r.event);
    var cs := t'.events[|t.events|].payload.headUpdates.changes;
    CommittedChanges(env, config, t, r);
    forall i | 0 <= i < |cs| && cs[i].name == name ensures LinkedChange(t'.records, cs[i]) {
      AppendedChanges(env, config, t, r, i);
    }
  }

  lemma {:induction false} CommittedChanges(env: Env, config: Config, t: Tables, r: Request)
    requires Normalize(env, r).Ok?
    ensures Committed(env, config.storeId, t, Normalize(env, r).value, r.event).events[|t.events|].payload.headUpdates.changes
      == ListChanges(Normalize(env, r).value.changes)
  {
    hide ListLocals, SortSet, MoveHeads, ListChanges, Normalize;
  }
}
