/** The store as an object over four mutable tables (store/sqlite.py): each method runs the
    steps of the program and is proved against the functions of module Store. */
module SqliteStore {
  import opened Orders
  import opened Utf8
  import opened Store
  import opened StoreLaws
  import Normalizers

  datatype AuditHead = AuditHead(eventId: Id, sequence: int)

  /** Where a transaction can be interrupted. */
  datatype FaultPoint = NoFault | AfterRecords | AfterAudit | AfterHead | BeforeCommit | AfterCommit

  datatype AuditVerification = AuditVerification(
    storeId: Text, auditSequence: int, auditHeadId: Id, suppliedAnchorMatched: bool, valid: bool)

  const EMPTY_AUDIT_ID: Id := 0

  datatype Transacted = Failed(error: StoreError) | AlreadyThere(receipt: Receipt) | Done(receipt: Receipt)

  predicate InterruptsCommit(fault: FaultPoint) {
    fault != NoFault && fault != AfterCommit
  }

  /** How a transaction ends, given what the checks decide, where it is interrupted, and the
      receipt it would return. */
  predicate Follows(outcome: Transacted, decision: Decision, fault: FaultPoint, receipt: Receipt) {
    match decision
    case Refused(e) => outcome == Failed(e) || (fault == AfterRecords && outcome == Failed(Fault))
    case Retried(earlier) => outcome == AlreadyThere(earlier)
    case Admitted => outcome == if InterruptsCommit(fault) then Failed(Fault) else Done(receipt)
  }

  /** What a request meets at the tables, refusals before the transaction included. */
  function Attempt(env: Env, config: Config, t: Tables, r: Request): Decision {
    if config.readOnly then Refused(Validation)
    else
      match Normalize(env, r)
      case Err(e) => Refused(e)
      case Ok(p) => Decide(env, config, t, p, r.event)
  }

  /** The tables after a request, when nothing interrupts it. */
  function After(env: Env, config: Config, t: Tables, r: Request): Tables {
    if Attempt(env, config, t, r).Admitted? then Committed(env, config.storeId, t, Normalize(env, r).value, r.event) else t
  }

  /** The tables after several requests, one after the other. */
  function AfterAll(env: Env, config: Config, t: Tables, rs: seq<Request>): Tables {
    if rs == [] then t
    else After(env, config, AfterAll(env, config, t, rs[..|rs| - 1]), rs[|rs| - 1])
  }

  /** None of the requests would be admitted to these tables. */
  predicate NoneAdmitted(env: Env, config: Config, t: Tables, rs: seq<Request>) {
    forall i :: 0 <= i < |rs| ==> !Attempt(env, config, t, rs[i]).Admitted?
  }

  function AuditHeadOf(rows: seq<EventRow>): Option<AuditHead> {
    if rows == [] then None
    else Some(AuditHead(rows[|rows| - 1].eventId, rows[|rows| - 1].sequence))
  }

  predicate AnchorHolds(storeId: Text, t: Tables, anchor: Option<Anchor>) {
    anchor.Some? ==> AnchorMatches(storeId, t, anchor.value)
  }

  /** What reading back a committed transaction compares. */
  predicate Reconciled(env: Env, config: Config, t: Tables, receipt: Receipt, supplied: map<Id, Content>) {
    && Verified(env, config.storeId, t) && AnchorHolds(config.storeId, t, config.trustedAnchor)
    && AuditHeadOf(t.events).Some?
    && receipt.heads != []
    && (forall i :: 0 <= i < |receipt.heads| ==>
          && AuditHead(receipt.heads[i].1.auditEventId, receipt.heads[i].1.auditSequence) == AuditHeadOf(t.events).value
          && Get(t.heads, receipt.heads[i].0) == Some(receipt.heads[i].1))
    && (forall id :: id in supplied ==> id in t.records && ValidRecord(env, id, t.records[id]) && t.records[id] == supplied[id])
  }

  // ----- facts about the specification used by the loops -----

  /** Requests acting one after another leave the tables alone exactly when none of them is
      admitted to the tables as they are; otherwise the log gets longer. */
  lemma {:induction false} AfterAllUnchanged(env: Env, config: Config, t: Tables, rs: seq<Request>)
    ensures t.events <= AfterAll(env, config, t, rs).events
    ensures NoneAdmitted(env, config, t, rs) ==> AfterAll(env, config, t, rs) == t
    ensures !NoneAdmitted(env, config, t, rs) ==> |AfterAll(env, config, t, rs).events| > |t.events|
  {
    hide Attempt, Committed, Normalize;
    if rs != [] {
      var n := |rs| - 1;
      var now := AfterAll(env, config, t, rs[..n]);
      AfterAllUnchanged(env, config, t, rs[..n]);
      if Attempt(env, config, now, rs[n]).Admitted? {
        AdmittedPlan(env, config, now, rs[n]);
        CommitAppends(env, config.storeId, now, Normalize(env, rs[n]).value, rs[n].event);
      }
    }
  }

  lemma {:induction false} AdmittedPlan(env: Env, config: Config, t: Tables, r: Request)
    requires Attempt(env, config, t, r).Admitted?
    ensures Normalize(env, r).Ok?
  {
    hide Normalize, Decide;
  }

  lemma {:induction false} AfterNone(env: Env, config: Config, t: Tables, rs: seq<Request>)
    ensures AfterAll(env, config, t, rs[..0]) == t
  {
  }

  lemma {:induction false} AfterNext(env: Env, config: Config, t: Tables, rs: seq<Request>, k: nat)
    requires k < |rs|
    ensures AfterAll(env, config, t, rs[..k + 1]) == After(env, config, AfterAll(env, config, t, rs[..k]), rs[k])
  {
    hide After;
    assert rs[..k + 1][..k] == rs[..k];
  }

  lemma {:induction false} ReplayStops(env: Env, storeId: Text, localRows: set<LocalId>, rows: seq<EventRow>, k: nat)
    requires k < |rows| && ReplayLog(env, storeId, localRows, rows[..k]).Some?
    requires !RowOk(env, storeId, localRows, ReplayLog(env, storeId, localRows, rows[..k]).value, rows[k], k + 1)
    ensures ReplayLog(env, storeId, localRows, rows).None?
  {
    hide RowOk, ReplayLog;
    if ReplayLog(env, storeId, localRows, rows).Some? {
      ReplayPrefix(env, storeId, localRows, rows, k);
      assert false;
    }
  }

  lemma {:induction false} ReplayNext(env: Env, storeId: Text, localRows: set<LocalId>, rows: seq<EventRow>, k: nat)
    requires k < |rows| && ReplayLog(env, storeId, localRows, rows[..k]).Some?
    requires RowOk(env, storeId, localRows, ReplayLog(env, storeId, localRows, rows[..k]).value, rows[k], k + 1)
    ensures ReplayLog(env, storeId, localRows, rows[..k + 1]) ==
      Some(Advance(ReplayLog(env, storeId, localRows, rows[..k]).value, rows[k]))
  {
    hide RowOk, Advance;
    assert rows[..k + 1][..k] == rows[..k];
  }

  /** Changes listed in name order do not see one another's moves. */
  lemma {:induction false} LaterNamesUntouched(heads: map<Name, HeadState>, cs: seq<HeadChange>, e: Id, s: int, c: nat)
    requires ChangesSorted(cs) && c < |cs|
    ensures Get(MoveHeads(heads, cs[..c], e, s), cs[c].name) == Get(heads, cs[c].name)
  {
    hide MoveHeads;
    MoveHeadsAt(heads, cs[..c], e, s, cs[c].name);
  }

  lemma {:induction false} MoveNext(heads: map<Name, HeadState>, cs: seq<HeadChange>, e: Id, s: int, c: nat)
    requires c < |cs|
    ensures MoveHeads(heads, cs[..c + 1], e, s) ==
      MoveHeads(heads, cs[..c], e, s)[cs[c].name := HeadState(cs[c].newRecordId, e, s)]
  {
    assert cs[..c + 1][..c] == cs[..c];
  }

  lemma {:induction false} RetryNext(rows: seq<EventRow>, heads: map<Name, HeadState>, signature: Signature, k: nat)
    requires 0 < k <= |rows|
    ensures var row := rows[k - 1];
      ExistingRetryReceipt(rows[..k], heads, signature) ==
        if EventSignature(row.payload) == signature && HeadsStillAt(heads, signature.changes, row)
        then Some(Receipt(ReceiptHeads(signature.changes, row.eventId, row.sequence), row.payload.insertedRecordIds))
        else ExistingRetryReceipt(rows[..k - 1], heads, signature)
  {
    hide EventSignature, HeadsStillAt, ReceiptHeads;
    assert rows[..k][..k - 1] == rows[..k - 1];
  }

  /** The ids not present, in order. */
  function Missing(ids: seq<Id>, present: set<Id>): seq<Id> {
    if ids == [] then []
    else Missing(ids[..|ids| - 1], present) + if ids[|ids| - 1] in present then [] else [ids[|ids| - 1]]
  }

  lemma {:induction false} MissingMembers(ids: seq<Id>, present: set<Id>)
    ensures forall id :: id in Missing(ids, present) <==> id in ids && id !in present
  {
    if ids != [] {
      var n := |ids| - 1;
      MissingMembers(ids[..n], present);
      assert ids == ids[..n] + [ids[n]];
    }
  }

  lemma {:induction false} MissingSorted(ids: seq<Id>, present: set<Id>)
    requires StrictlySorted(ids)
    ensures StrictlySorted(Missing(ids, present))
  {
    if ids != [] {
      var n := |ids| - 1;
      MissingSorted(ids[..n], present);
      MissingMembers(ids[..n], present);
      var r := Missing(ids[..n], present);
      forall j | 0 <= j < |r| ensures r[j] < ids[n] {
        assert r[j] in r && r[j] in ids[..n];
      }
    }
  }

  lemma {:induction false} MissingIsDifference(supplied: set<Id>, present: set<Id>)
    ensures Missing(SortSet(supplied), present) == SortSet(supplied - present)
  {
    hide SortSet, Missing;
    MissingSorted(SortSet(supplied), present);
    MissingMembers(SortSet(supplied), present);
    StrictlySortedUnique(Missing(SortSet(supplied), present), SortSet(supplied - present));
  }

  /** The stored records with the supplied ones among the ids added where absent. */
  function Merged(records: map<Id, Content>, supplied: map<Id, Content>, ids: seq<Id>): map<Id, Content> {
    map id | id in records.Keys + supplied.Keys && (id in records || id in ids) ::
      if id in records then records[id] else supplied[id]
  }

  lemma {:induction false} MergedNone(records: map<Id, Content>, supplied: map<Id, Content>)
    ensures Merged(records, supplied, []) == records
  {
  }

  lemma {:induction false} MergedAll(records: map<Id, Content>, supplied: map<Id, Content>, ids: seq<Id>)
    requires forall id :: id in ids <==> id in supplied
    ensures Merged(records, supplied, ids) == supplied + records
  {
    var m := Merged(records, supplied, ids);
    assert forall id :: id in m <==> id in supplied + records;
    assert forall id :: id in m ==> m[id] == (supplied + records)[id];
  }

  lemma {:induction false} MergedNext(records: map<Id, Content>, supplied: map<Id, Content>, ids: seq<Id>, i: nat)
    requires i < |ids| && StrictlySorted(ids) && ids[i] in supplied
    ensures var m := Merged(records, supplied, ids[..i]);
      && (ids[i] in m <==> ids[i] in records)
      && (ids[i] in m ==> m[ids[i]] == records[ids[i]])
      && Merged(records, supplied, ids[..i + 1]) == if ids[i] in m then m else m[ids[i] := supplied[ids[i]]]
  {
    assert ids[..i + 1] == ids[..i] + [ids[i]];
    assert forall j :: 0 <= j < i ==> ids[..i][j] == ids[j] && ids[j] < ids[i];
  }

  predicate Supplies(supplied: map<Id, Content>, ids: seq<Id>) {
    forall id :: id in ids ==> id in supplied
  }

  /** Inserting the supplied records one by one: the records after it and the ids inserted, or
      nothing when a stored record differs. */
  function InsertAll(records: map<Id, Content>, supplied: map<Id, Content>,
        ids: seq<Id>): Option<(map<Id, Content>, seq<Id>)>
    requires Supplies(supplied, ids)
  {
    if ids == [] then Some((records, []))
    else
      var id := ids[|ids| - 1];
      match InsertAll(records, supplied, ids[..|ids| - 1])
      case None => None
      case Some((m, inserted)) =>
        if id !in m then Some((m[id := supplied[id]], inserted + [id]))
        else if m[id] == supplied[id] then Some((m, inserted))
        else None
  }

  lemma {:induction false} InsertAllFacts(records: map<Id, Content>, supplied: map<Id, Content>, ids: seq<Id>)
    requires StrictlySorted(ids) && Supplies(supplied, ids)
    ensures var r := InsertAll(records, supplied, ids);
      && (r.Some? <==> forall id :: id in ids && id in records ==> records[id] == supplied[id])
      && (r.Some? ==> r.value.0 == Merged(records, supplied, ids) && r.value.1 == Missing(ids, records.Keys))
  {
    hide Merged;
    if ids == [] {
      MergedNone(records, supplied);
    } else {
      var n := |ids| - 1;
      assert ids == ids[..n] + [ids[n]];
      InsertAllFacts(records, supplied, ids[..n]);
      assert ids[n] in ids;
      MergedNext(records, supplied, ids, n);
      assert ids[..n + 1] == ids;
    }
  }

  lemma {:induction false} InsertAllStops(records: map<Id, Content>, supplied: map<Id, Content>, ids: seq<Id>, i: nat)
    requires i <= |ids| && Supplies(supplied, ids)
    requires Supplies(supplied, ids[..i]) && InsertAll(records, supplied, ids[..i]).None?
    ensures InsertAll(records, supplied, ids).None?
  {
    if i < |ids| {
      assert ids[..|ids| - 1][..i] == ids[..i];
      InsertAllStops(records, supplied, ids[..|ids| - 1], i);
    } else {
      assert ids[..i] == ids;
    }
  }

  lemma {:induction false} InsertAllNext(records: map<Id, Content>, supplied: map<Id, Content>, ids: seq<Id>, i: nat)
    requires i < |ids| && Supplies(supplied, ids)
    requires Supplies(supplied, ids[..i]) && InsertAll(records, supplied, ids[..i]).Some?
    ensures Supplies(supplied, ids[..i + 1])
    ensures ids[i] in ids && ids[i] in supplied
    ensures var (m, inserted) := InsertAll(records, supplied, ids[..i]).value; var id := ids[i];
      InsertAll(records, supplied, ids[..i + 1]) ==
        if id !in m then Some((m[id := supplied[id]], inserted + [id]))
        else if m[id] == supplied[id] then Some((m, inserted))
        else None
  {
    var id := ids[i];
    assert id in ids;
    assert id in supplied;
    assert ids[..i + 1][..i] == ids[..i];
  }

  /** In the order of a transaction: it stops exactly on a contradiction, and otherwise adds what
      is absent and lists it. */
  lemma {:induction false} InsertsSupplied(records: map<Id, Content>, supplied: map<Id, Content>)
    ensures Supplies(supplied, SortSet(supplied.Keys))
    ensures InsertAll(records, supplied, SortSet(supplied.Keys)) ==
      if Contradicts(records, supplied) then None else Some((supplied + records, NewIds(records, supplied)))
  {
    hide SortSet, InsertAll, Merged, Missing;
    var ids := SortSet(supplied.Keys);
    InsertAllFacts(records, supplied, ids);
    MergedAll(records, supplied, ids);
    MissingIsDifference(supplied.Keys, records.Keys);
    if !Contradicts(records, supplied) {
      assert forall id :: id in ids && id in records ==> records[id] == supplied[id];
    } else {
      var id :| id in supplied && id in records && records[id] != supplied[id];
      assert id in ids;
    }
  }

  ghost predicate InsertedUpTo(before: map<Id, Content>, supplied: map<Id, Content>, ids: seq<Id>, i: nat,
                               m: map<Id, Content>, inserted: seq<Id>) {
    ids == SortSet(supplied.Keys) && i <= |ids| && Supplies(supplied, ids[..i])
    && InsertAll(before, supplied, ids[..i]) == Some((m, inserted))
  }

  lemma {:induction false} InsertStart(before: map<Id, Content>, supplied: map<Id, Content>)
    ensures InsertedUpTo(before, supplied, SortSet(supplied.Keys), 0, before, [])
  {
    hide SortSet;
  }

  lemma {:induction false} InsertStep(before: map<Id, Content>, supplied: map<Id, Content>, ids: seq<Id>, i: nat,
                                      m: map<Id, Content>, inserted: seq<Id>)
    requires InsertedUpTo(before, supplied, ids, i, m, inserted) && i < |ids|
    ensures ids[i] in supplied
    ensures ids[i] !in m ==> InsertedUpTo(before, supplied, ids, i + 1, m[ids[i] := supplied[ids[i]]], inserted + [ids[i]])
    ensures ids[i] in m && m[ids[i]] == supplied[ids[i]] ==> InsertedUpTo(before, supplied, ids, i + 1, m, inserted)
    ensures ids[i] in m && m[ids[i]] != supplied[ids[i]] ==> Contradicts(before, supplied)
  {
    hide InsertAll, Contradicts, SortSet, NewIds;
    InsertsSupplied(before, supplied);
    InsertAllNext(before, supplied, ids, i);
    if InsertAll(before, supplied, ids[..i + 1]).None? {
      InsertAllStops(before, supplied, ids, i + 1);
    }
  }

  lemma {:induction false} InsertEnd(before: map<Id, Content>, supplied: map<Id, Content>, m: map<Id, Content>,
        inserted: seq<Id>)
    requires InsertedUpTo(before, supplied, SortSet(supplied.Keys), |SortSet(supplied.Keys)|, m, inserted)
    ensures !Contradicts(before, supplied) && m == supplied + before && inserted == NewIds(before, supplied)
  {
    hide InsertAll, Contradicts, SortSet, NewIds;
    InsertsSupplied(before, supplied);
    var ids := SortSet(supplied.Keys);
    assert ids[..|ids|] == ids;
  }

  lemma {:induction false} ReceiptHeadsInstalled(heads: map<Name, HeadState>, changes: map<Name, HeadChange>, e: Id,
        s: int, i: nat)
    requires forall name :: name in changes ==> changes[name].name == name
    requires i < |ReceiptHeads(ListChanges(changes), e, s)|
    ensures var head := ReceiptHeads(ListChanges(changes), e, s)[i];
      && head.1.auditEventId == e && head.1.auditSequence == s
      && Get(MoveHeads(heads, ListChanges(changes), e, s), head.0) == Some(head.1)
  {
    hide ListChanges, MoveHeads;
    var cs := ListChanges(changes);
    ListChangesFacts(changes);
    MoveHeadsAt(heads, cs, e, s, cs[i].name);
    NewRecordAt(cs, i);
  }

  lemma {:induction false} SuppliedStored(env: Env, records: map<Id, Content>, supplied: map<Id, Content>)
    requires !Contradicts(records, supplied) && forall id :: id in supplied ==> ValidRecord(env, id, supplied[id])
    ensures forall id :: id in supplied ==> (supplied + records)[id] == supplied[id] && ValidRecord(env, id, (supplied + records)[id])
  {
    hide ValidRecord;
  }

  /** The tables a transaction leaves verify again, and reading it back at once succeeds. */
  lemma {:induction false} ReadbackSucceeds(env: Env, config: Config, t: Tables, p: Plan, d: EventDraft)
    requires PlanOk(env, p) && DraftOk(env, d) && Decide(env, config, t, p, d) == Admitted
    ensures Reconciled(env, config, Committed(env, config.storeId, t, p, d),
                       CommitReceipt(env, config.storeId, t, p, d), p.records)
  {
    hide Decide, DraftOk, ListChanges, Verified, AnchorMatches, Contradicts, ValidRecord, MoveHeads, NewIds, ListLocals,
      HeadsExpected, ExistingRetryReceipt, TransactionSignature, ReceiptHeads, BuildPayload;
    CommitKeepsVerified(env, config, t, p, d);
    AdmittedFacts(env, config, t, p, d);
    SuppliedStored(env, t.records, p.records);
    ReceiptSequence(env, config.storeId, t, p, d);
    var payload := BuildPayload(config.storeId, t, p, d);
    var e := env.eventIdOf(payload);
    var receipt := CommitReceipt(env, config.storeId, t, p, d);
    forall i | 0 <= i < |receipt.heads|
      ensures receipt.heads[i].1.auditEventId == e && receipt.heads[i].1.auditSequence == payload.sequence
      ensures Get(MoveHeads(t.heads, ListChanges(p.changes), e, payload.sequence), receipt.heads[i].0) == Some(receipt.heads[i].1)
    {
      ReceiptHeadsInstalled(t.heads, p.changes, e, payload.sequence, i);
    }
  }

  /** Once another transaction is in the log, reading back an earlier one fails. */
  lemma {:induction false} ReadbackOvertaken(env: Env, config: Config, t: Tables, receipt: Receipt,
        supplied: map<Id, Content>)
    requires receipt.heads != [] && receipt.heads[0].1.auditSequence < |t.events|
    ensures !Reconciled(env, config, t, receipt, supplied)
  {
    hide RecordTableOk, LocalTableOk, AnchorHolds, Accounted, ReplayLog, ValidRecord;
    if Verified(env, config.storeId, t) && t.events != [] {
      HasChange(env, config.storeId, t.locals.Keys, t.events, |t.events| - 1);
    }
  }

  lemma {:induction false} ReceiptSequence(env: Env, storeId: Text, t: Tables, p: Plan, d: EventDraft)
    requires PlanOk(env, p)
    ensures var receipt := CommitReceipt(env, storeId, t, p, d);
      receipt.heads != [] && receipt.heads[0].1.auditSequence == |t.events| + 1
  {
    hide ListLocals, SortSet, ValidRecord, ListChanges;
    assert |p.changes| != 0;
  }

  lemma {:induction false} NoLocalsYet(env: Env, storeId: Text, t: Tables)
    requires Verified(env, storeId, t) && t.events == []
    ensures t.locals == map[]
  {
    hide RecordTableOk, LocalTableOk;
    assert t.locals.Keys == {};
  }

  class SQLiteStateStore {
    const env: Env
    const config: Config
    var records: map<Id, Content>
    var locals: map<LocalId, Bytes>
    var events: seq<EventRow>
    var heads: map<Name, HeadState>
    var metadata: map<Text, Bytes>

    function Snapshot(): Tables
      reads this
    {
      Tables(records, locals, events, heads, metadata)
    }

    /** A store with no history. */
    constructor (env: Env, config: Config)
      ensures this.env == env && this.config == config
      ensures Snapshot() == Tables(map[], map[], [], map[], Metadata(config.storeId))
      ensures Verified(env, config.storeId, Snapshot())
    {
      this.env := env;
      this.config := config;
      records := map[];
      locals := map[];
      events := [];
      heads := map[];
      metadata := Metadata(config.storeId);
    }

    // ----- verification -----

    /** Replays the head updates of one event one by one against the heads so far. */
    method ReplayHeads(before: map<Name, HeadState>, row: EventRow, available: set<Id>)
      returns (ok: bool, moved: map<Name, HeadState>)
      ensures var cs := row.payload.headUpdates.changes;
        ok <==> cs != [] && ChangesSorted(cs) && forall i :: 0 <= i < |cs| ==>
          && (cs[i].expected.Some? ==> cs[i].expected.value.auditSequence > 0)
          && Get(before, cs[i].name) == cs[i].expected
          && cs[i].newRecordId in available
      ensures ok ==> moved == MoveHeads(before, row.payload.headUpdates.changes, row.eventId, row.sequence)
    {
      hide MoveHeads;
      var cs := row.payload.headUpdates.changes;
      moved := before;
      if cs == [] || !ChangesSorted(cs) { return false, moved; }
      var c := 0;
      MoveNone(before, cs, row.eventId, row.sequence);
      while c < |cs|
        invariant 0 <= c <= |cs|
        invariant moved == MoveHeads(before, cs[..c], row.eventId, row.sequence)
        invariant forall i :: 0 <= i < c ==>
          && (cs[i].expected.Some? ==> cs[i].expected.value.auditSequence > 0)
          && Get(before, cs[i].name) == cs[i].expected
          && cs[i].newRecordId in available
      {
        LaterNamesUntouched(before, cs, row.eventId, row.sequence, c);
        if cs[c].expected.Some? && cs[c].expected.value.auditSequence <= 0 { return false, moved; }
        if Get(moved, cs[c].name) != cs[c].expected { return false, moved; }
        if cs[c].newRecordId !in available { return false, moved; }
        MoveNext(before, cs, row.eventId, row.sequence, c);
        moved := moved[cs[c].name := HeadState(cs[c].newRecordId, row.eventId, row.sequence)];
        c := c + 1;
      }
      assert cs[..c] == cs;
      ok := true;
    }

    static lemma {:induction false} MoveNone(before: map<Name, HeadState>, cs: seq<HeadChange>, e: Id, s: int)
      ensures MoveHeads(before, cs[..0], e, s) == before
    {
    }

    /** Replays the log from its first event. */
    method ReplayEvents() returns (result: Option<Replay>)
      ensures result == ReplayLog(env, config.storeId, locals.Keys, events)
    {
      hide PayloadOk, RecordsOk, LocalsOk, MoveHeads, ReplayLog, ChangesSorted;
      ghost var storeId := config.storeId;
      var localRows := locals.Keys;
      var replayedHeads: map<Name, HeadState> := map[];
      var insertedRecords: set<Id> := {};
      var referencedLocals: set<LocalId> := {};
      var previousEventId: Option<Id> := None;
      var k := 0;
      ReplayNone(env, storeId, localRows, events);
      while k < |events|
        invariant 0 <= k <= |events|
        invariant ReplayLog(env, storeId, localRows, events[..k]) ==
          Some(Replay(replayedHeads, insertedRecords, referencedLocals, previousEventId))
      {
        var row := events[k];
        var st := Replay(replayedHeads, insertedRecords, referencedLocals, previousEventId);
        if row.sequence != k + 1 || row.previousEventId != previousEventId || !PayloadOk(env, config.storeId, row)
          || !RecordsOk(st, row.payload) || !LocalsOk(localRows, row.payload)
        {
          ReplayStops(env, storeId, localRows, events, k);
          return None;
        }
        var available := insertedRecords + Elems(row.payload.insertedRecordIds);
        var ok, moved := ReplayHeads(replayedHeads, row, available);
        if !ok {
          ReplayStops(env, storeId, localRows, events, k);
          return None;
        }
        ReplayNext(env, storeId, localRows, events, k);
        replayedHeads := moved;
        insertedRecords := available;
        referencedLocals := referencedLocals + Elems(row.payload.localValues);
        previousEventId := Some(row.eventId);
        k := k + 1;
      }
      assert events[..k] == events;
      result := Some(Replay(replayedHeads, insertedRecords, referencedLocals, previousEventId));
    }

    static lemma {:induction false} ReplayNone(env: Env, storeId: Text, localRows: set<LocalId>, rows: seq<EventRow>)
      ensures ReplayLog(env, storeId, localRows, rows[..0]) == Some(Replay(map[], {}, {}, None))
    {
    }

    method VerifyState(anchor: Option<Anchor>) returns (valid: bool, head: Option<AuditHead>, matched: bool)
      ensures valid <==> Verified(env, config.storeId, Snapshot()) && AnchorHolds(config.storeId, Snapshot(), anchor)
      ensures matched == valid
      ensures head == AuditHeadOf(events)
    {
      hide ReplayLog, RecordTableOk, LocalTableOk;
      head := AuditHeadOf(events);
      if metadata != Metadata(config.storeId) { return false, head, false; }
      if !RecordTableOk(env, Snapshot()) || !LocalTableOk(env, Snapshot()) { return false, head, false; }
      var replay := ReplayEvents();
      if replay.None? || !Accounted(Snapshot(), replay.value) { return false, head, false; }
      matched := true;
      if anchor.Some? {
        var a := anchor.value;
        matched := a.storeId == config.storeId && 1 <= a.auditSequence <= |events|
          && events[a.auditSequence - 1].eventId == a.auditHeadId;
      }
      valid := matched;
    }

    method VerifyAudit(anchor: Option<Anchor>) returns (v: AuditVerification)
      ensures var t := Snapshot();
        v.valid <==> Verified(env, config.storeId, t) && AnchorHolds(config.storeId, t, anchor) && TrustedAnchorMatches(config, t)
      ensures v.storeId == config.storeId
      ensures v.auditHeadId == (if events == [] then EMPTY_AUDIT_ID else events[|events| - 1].eventId)
      ensures v.auditSequence == (if events == [] then 0 else events[|events| - 1].sequence)
      ensures var supplied := if anchor.None? then config.trustedAnchor else anchor;
        v.suppliedAnchorMatched <==>
          supplied.Some? && Verified(env, config.storeId, Snapshot()) && AnchorMatches(config.storeId, Snapshot(), supplied.value)
    {
      hide Verified;
      var effective := if anchor.None? then config.trustedAnchor else anchor;
      var valid, head, matched := VerifyState(effective);
      if config.trustedAnchor.Some? && anchor.Some? && anchor != config.trustedAnchor {
        var trustedValid, trustedHead, trustedMatched := VerifyState(config.trustedAnchor);
        valid := valid && trustedValid && trustedMatched;
        if trustedHead != head { valid := false; }
      }
      if head.None? {
        v := AuditVerification(config.storeId, 0, EMPTY_AUDIT_ID, false, valid && effective.None?);
      } else {
        v := AuditVerification(config.storeId, head.value.sequence, head.value.eventId, effective.Some? && matched, valid);
      }
    }

    /** An anchor for the tip of a nonempty log that verifies; anything else is refused. */
    method MakeAnchor() returns (r: Result<Anchor, StoreError>)
      ensures r.Ok? <==>
        events != [] && Verified(env, config.storeId, Snapshot()) && TrustedAnchorMatches(config, Snapshot())
      ensures r.Ok? ==> AnchorMatches(config.storeId, Snapshot(), r.value) && r.value.auditSequence == |events|
      ensures r.Err? ==> r.error == Integrity
    {
      hide Verified;
      var v := VerifyAudit(None);
      if !v.valid { return Err(Integrity); }
      if events != [] {
        LastSequence(env, config.storeId, Snapshot());
      }
      if v.auditSequence == 0 { return Err(Integrity); }
      r := Ok(Anchor(config.storeId, v.auditSequence, v.auditHeadId));
    }

    static lemma {:induction false} LastSequence(env: Env, storeId: Text, t: Tables)
      requires Verified(env, storeId, t) && t.events != []
      ensures t.events[|t.events| - 1].sequence == |t.events|
    {
      hide ReplayLog, RecordTableOk, LocalTableOk;
      HasChange(env, storeId, t.locals.Keys, t.events, |t.events| - 1);
    }

    // ----- the steps of a transaction -----

    method FindRetry(signature: Signature) returns (receipt: Option<Receipt>)
      ensures receipt == ExistingRetryReceipt(events, heads, signature)
    {
      hide EventSignature, ExistingRetryReceipt;
      var cs := signature.changes;
      var k := |events|;
      assert events[..k] == events;
      while k > 0
        invariant 0 <= k <= |events|
        invariant ExistingRetryReceipt(events, heads, signature) == ExistingRetryReceipt(events[..k], heads, signature)
      {
        RetryNext(events, heads, signature, k);
        k := k - 1;
        var row := events[k];
        if EventSignature(row.payload) == signature {
          var found: seq<(Name, HeadState)> := [];
          var c := 0;
          while c < |cs| && Get(heads, cs[c].name) == Some(HeadState(cs[c].newRecordId, row.eventId, row.sequence))
            invariant 0 <= c <= |cs|
            invariant found == ReceiptHeads(cs, row.eventId, row.sequence)[..c]
            invariant forall i :: 0 <= i < c ==>
              Get(heads, cs[i].name) == Some(HeadState(cs[i].newRecordId, row.eventId, row.sequence))
          {
            found := found + [(cs[c].name, HeadState(cs[c].newRecordId, row.eventId, row.sequence))];
            c := c + 1;
          }
          if c == |cs| {
            assert found == ReceiptHeads(cs, row.eventId, row.sequence);
            return Some(Receipt(found, row.payload.insertedRecordIds));
          }
        }
      }
      NothingToRetry(events, heads, signature);
      receipt := None;
    }

    static lemma {:induction false} NothingToRetry(rows: seq<EventRow>, heads: map<Name, HeadState>,
          signature: Signature)
      ensures ExistingRetryReceipt(rows[..0], heads, signature).None?
    {
    }

    method CheckHeads(changes: map<Name, HeadChange>) returns (ok: bool)
      ensures ok <==> HeadsExpected(heads, changes)
    {
      hide SortSet, StrictlySorted;
      var names := SortSet(changes.Keys);
      var i := 0;
      assert forall j :: 0 <= j < |names| ==> names[j] in names && names[j] in changes;
      while i < |names|
        invariant 0 <= i <= |names|
        invariant forall j :: 0 <= j < i ==> Get(heads, names[j]) == changes[names[j]].expected
      {
        var name := names[i];
        assert name in names;
        if Get(heads, name) != changes[name].expected { return false; }
        i := i + 1;
      }
      forall name | name in changes ensures Get(heads, name) == changes[name].expected {
        assert name in names;
      }
      ok := true;
    }

    /** Adds one record unless one with its identifier is stored. */
    method InsertRecord(id: Id, content: Content) returns (contradicted: bool, added: bool)
      modifies this`records
      ensures contradicted <==> id in old(records) && old(records)[id] != content
      ensures added <==> id !in old(records)
      ensures records == if added then old(records)[id := content] else old(records)
    {
      if id in records { return records[id] != content, false; }
      records := records[id := content];
      return false, true;
    }

    method InsertRecords(supplied: map<Id, Content>) returns (ok: bool, inserted: seq<Id>)
      modifies this`records
      ensures ok <==> !Contradicts(old(records), supplied)
      ensures ok ==> records == supplied + old(records) && inserted == NewIds(old(records), supplied)
    {
      hide InsertedUpTo, Contradicts, NewIds, SortSet;
      var ids := SortSet(supplied.Keys);
      ghost var before := records;
      InsertStart(before, supplied);
      inserted := [];
      var i := 0;
      while i < |ids|
        invariant 0 <= i <= |ids|
        invariant InsertedUpTo(before, supplied, ids, i, records, inserted)
      {
        InsertStep(before, supplied, ids, i, records, inserted);
        var contradicted, added := InsertRecord(ids[i], supplied[ids[i]]);
        if contradicted { return false, inserted; }
        if added { inserted := inserted + [ids[i]]; }
        i := i + 1;
      }
      InsertEnd(before, supplied, records, inserted);
      ok := true;
    }

    static lemma {:induction false} ListedOnce(ls: set<LocalId>)
      ensures forall l :: l in ListLocals(ls) <==> l in ls
      ensures Distinct(ListLocals(ls))
    {
      hide ListLocals;
      ListLocalsFacts(ls);
      assert forall l :: l in ListLocals(ls) <==> l in Elems(ListLocals(ls));
    }

    method InsertLocals(supplied: map<LocalId, Bytes>) returns (ok: bool)
      modifies this`locals
      ensures ok <==> forall l :: l in supplied && l in old(locals) ==> old(locals)[l] == supplied[l]
      ensures ok ==> locals == old(locals) + supplied
    {
      hide ListLocals, LocalsSorted;
      var ls := ListLocals(supplied.Keys);
      ListedOnce(supplied.Keys);
      var i := 0;
      while i < |ls|
        invariant 0 <= i <= |ls|
        invariant forall l :: l in locals <==> l in old(locals) || l in ls[..i]
        invariant forall l :: l in old(locals) ==> locals[l] == old(locals)[l]
        invariant forall l :: l in ls[..i] ==> locals[l] == supplied[l]
      {
        var l := ls[i];
        assert ls[..i + 1] == ls[..i] + [l];
        if l in locals {
          if locals[l] != supplied[l] { return false; }
        } else {
          locals := locals[l := supplied[l]];
        }
        i := i + 1;
      }
      assert ls[..i] == ls;
      assert forall l :: l in locals <==> l in old(locals) + supplied;
      assert forall l :: l in locals ==> locals[l] == (old(locals) + supplied)[l];
      ok := true;
    }

    method NewHeadsPresent(changes: map<Name, HeadChange>) returns (ok: bool)
      ensures ok <==> forall name :: name in changes ==> changes[name].newRecordId in records
    {
      hide SortSet, StrictlySorted;
      var names := SortSet(changes.Keys);
      assert forall j :: 0 <= j < |names| ==> names[j] in names && names[j] in changes;
      var i := 0;
      while i < |names|
        invariant 0 <= i <= |names|
        invariant forall j :: 0 <= j < i ==> changes[names[j]].newRecordId in records
      {
        var name := names[i];
        assert name in names;
        if changes[name].newRecordId !in records { return false; }
        i := i + 1;
      }
      forall name | name in changes ensures changes[name].newRecordId in records {
        assert name in names;
      }
      ok := true;
    }

    /** Upserts the heads in name order and lists them for the receipt. */
    method UpsertHeads(cs: seq<HeadChange>, eventId: Id, sequence: int) returns (listed: seq<(Name, HeadState)>)
      modifies this`heads
      ensures heads == MoveHeads(old(heads), cs, eventId, sequence)
      ensures listed == ReceiptHeads(cs, eventId, sequence)
    {
      var c := 0;
      listed := [];
      MoveNone(heads, cs, eventId, sequence);
      while c < |cs|
        invariant 0 <= c <= |cs|
        invariant heads == MoveHeads(old(heads), cs[..c], eventId, sequence)
        invariant listed == ReceiptHeads(cs, eventId, sequence)[..c]
      {
        MoveNext(old(heads), cs, eventId, sequence, c);
        var head := HeadState(cs[c].newRecordId, eventId, sequence);
        heads := heads[cs[c].name := head];
        listed := listed + [(cs[c].name, head)];
        c := c + 1;
      }
      assert cs[..c] == cs;
    }

    /** ROLLBACK: the tables as the transaction found them. */
    method Rollback(saved: Tables)
      modifies this
      ensures Snapshot() == saved
    {
      records, locals, events, heads := saved.records, saved.locals, saved.events, saved.heads;
      metadata := saved.metadata;
    }

    // ----- transactions -----

    /** The checks a transaction makes before it writes. */
    method CheckBeforeWriting(p: Plan, d: EventDraft) returns (decision: Decision)
      ensures decision.Admitted? ==>
        && Verified(env, config.storeId, Snapshot()) && (p.locals == map[] || events == [])
        && Decide(env, config, Snapshot(), p, d) ==
             if RowsRefused(Snapshot(), p, d) || EventIdTaken(env, config.storeId, Snapshot(), p, d) then Refused(Integrity)
             else Admitted
      ensures !decision.Admitted? ==> decision == Decide(env, config, Snapshot(), p, d)
    {
      hide Verified, ExistingRetryReceipt, TransactionSignature, HeadsExpected, RowsRefused, EventIdTaken;
      var valid, head, matched := VerifyState(config.trustedAnchor);
      if !valid { return Refused(Integrity); }
      var retry := FindRetry(TransactionSignature(config.storeId, p, d));
      if retry.Some? { return Retried(retry.value); }
      if p.locals != map[] && head.Some? { return Refused(LocalsAfterGenesis); }
      var ok := CheckHeads(p.changes);
      if !ok { return Refused(Conflict); }
      decision := Admitted;
    }

    /** Writes the records and local values and checks that what the event names is there. */
    method WriteRows(p: Plan, d: EventDraft, fault: FaultPoint) returns (stop: Option<StoreError>, inserted: seq<Id>)
      requires p.locals == map[] || locals == map[]
      modifies this`records, this`locals
      ensures stop.Some? ==>
        || (stop.value == Integrity && RowsRefused(old(Snapshot()), p, d))
        || (stop.value == Fault && fault == AfterRecords)
      ensures stop.None? ==>
        && fault != AfterRecords && !RowsRefused(old(Snapshot()), p, d)
        && records == p.records + old(records) && locals == old(locals) + p.locals
        && inserted == NewIds(old(records), p.records)
    {
      hide Contradicts, NewIds;
      var ok;
      ok, inserted := InsertRecords(p.records);
      if !ok { return Some(Integrity), inserted; }
      ok := InsertLocals(p.locals);
      if !ok { return Some(Integrity), inserted; }
      if d.subjectId !in records { return Some(Integrity), inserted; }
      if fault == AfterRecords { return Some(Fault), inserted; }
      ok := NewHeadsPresent(p.changes);
      if !ok { return Some(Integrity), inserted; }
      stop := None;
    }

    /** The payload of the next event, behind the last one of the log. */
    method NextPayload(p: Plan, d: EventDraft, inserted: seq<Id>, ghost saved: Tables) returns (payload: EventPayload)
      requires Verified(env, config.storeId, saved) && events == saved.events && inserted == NewIds(saved.records, p.records)
      ensures payload == BuildPayload(config.storeId, saved, p, d)
    {
      hide Verified, ListChanges, ListLocals, NewIds, SortSet;
      if saved.events != [] { LastSequence(env, config.storeId, saved); }
      var previous := AuditHeadOf(events);
      var sequence := if previous.None? then 1 else previous.value.sequence + 1;
      var previousId := if previous.None? then None else Some(previous.value.eventId);
      payload := EventPayload(
        d.details, HeadUpdates(false, ListChanges(p.changes)), inserted, d.kind, ListLocals(p.locals.Keys), d.logicalTime,
        previousId, SortSet(p.records.Keys), sequence, config.storeId, d.subjectId);
    }

    /** Appends the event and moves the heads. */
    method AppendEvent(payload: EventPayload, fault: FaultPoint) returns (interrupted: bool,
          listed: seq<(Name, HeadState)>)
      modifies this`events, this`heads
      ensures interrupted <==> fault == AfterAudit || fault == AfterHead || fault == BeforeCommit
      ensures !interrupted ==>
        && events == old(events) + [EventRow(payload.sequence, env.eventIdOf(payload), payload.previousEventId, payload, true)]
        && heads == MoveHeads(old(heads), payload.headUpdates.changes, env.eventIdOf(payload), payload.sequence)
        && listed == ReceiptHeads(payload.headUpdates.changes, env.eventIdOf(payload), payload.sequence)
    {
      hide MoveHeads, ReceiptHeads;
      var eventId := env.eventIdOf(payload);
      events := events + [EventRow(payload.sequence, eventId, payload.previousEventId, payload, true)];
      if fault == AfterAudit { return true, []; }
      listed := UpsertHeads(payload.headUpdates.changes, eventId, payload.sequence);
      interrupted := fault == AfterHead || fault == BeforeCommit;
    }

    /** The writes of a transaction, undone when a later check or a fault stops it. */
    method Write(p: Plan, d: EventDraft, fault: FaultPoint) returns (outcome: Transacted)
      requires Verified(env, config.storeId, Snapshot()) && (p.locals == map[] || events == [])
      modifies this
      ensures var before := old(Snapshot());
        Follows(outcome,
                if RowsRefused(before, p, d) || EventIdTaken(env, config.storeId, before, p, d) then Refused(Integrity) else Admitted,
                fault, CommitReceipt(env, config.storeId, before, p, d))
      ensures Snapshot() ==
        if outcome.Done? then Committed(env, config.storeId, old(Snapshot()), p, d) else old(Snapshot())
    {
      hide Verified, RowsRefused, EventIdTaken, MoveHeads, NewIds, ReceiptHeads, BuildPayload, Committed, CommitReceipt,
        Metadata, ListChanges;
      BuiltChanges(config.storeId, Snapshot(), p, d);
      var saved := Snapshot();
      if events == [] { NoLocalsYet(env, config.storeId, saved); }
      var stop, inserted := WriteRows(p, d, fault);
      if stop.Some? { Rollback(saved); return Failed(stop.value); }
      var payload := NextPayload(p, d, inserted, saved);
      // the unique column refuses a second event with this identifier
      if EventIdTaken(env, config.storeId, saved, p, d) { Rollback(saved); return Failed(Integrity); }
      var interrupted, listed := AppendEvent(payload, fault);
      if interrupted { Rollback(saved); return Failed(Fault); }
      CommittedRows(env, config.storeId, saved, p, d);
      outcome := Done(Receipt(listed, inserted));
    }

    /** The tables and the receipt of a commit, in terms of its payload. */
    static lemma {:induction false} CommittedRows(env: Env, storeId: Text, t: Tables, p: Plan, d: EventDraft)
      ensures var payload := BuildPayload(storeId, t, p, d);
        var id := env.eventIdOf(payload);
        && Committed(env, storeId, t, p, d) == Tables(
             p.records + t.records, t.locals + p.locals,
             t.events + [EventRow(payload.sequence, id, payload.previousEventId, payload, true)],
             MoveHeads(t.heads, ListChanges(p.changes), id, payload.sequence), t.metadata)
        && CommitReceipt(env, storeId, t, p, d) ==
             Receipt(ReceiptHeads(ListChanges(p.changes), id, payload.sequence), NewIds(t.records, p.records))
    {
      hide BuildPayload, MoveHeads, ReceiptHeads, NewIds, ListChanges;
    }

    method Transact(r: Request, fault: FaultPoint) returns (outcome: Transacted)
      modifies this
      ensures var before := old(Snapshot());
        && (Normalize(env, r).Ok? ==>
              Follows(outcome, Attempt(env, config, before, r), fault,
                      CommitReceipt(env, config.storeId, before, Normalize(env, r).value, r.event)))
        && (Normalize(env, r).Err? ==> outcome == Failed(Attempt(env, config, before, r).error))
        && (outcome.Done? ==> Normalize(env, r).Ok?)
        && Snapshot() ==
             if outcome.Done? then Committed(env, config.storeId, before, Normalize(env, r).value, r.event) else before
    {
      hide Verified, Normalize, Decide, RowsRefused, EventIdTaken, CommitReceipt, Committed;
      if config.readOnly { return Failed(Validation); }
      var n := Normalizers.NormalizeRequest(env, r);
      if n.Err? { return Failed(n.error); }
      var decision := CheckBeforeWriting(n.value, r.event);
      match decision {
        case Refused(e) => outcome := Failed(e);
        case Retried(receipt) => outcome := AlreadyThere(receipt);
        case Admitted => outcome := Write(n.value, r.event, fault);
      }
    }

    method ReconcileCommitted(receipt: Receipt, supplied: map<Id, Content>) returns (ok: bool)
      ensures ok <==> Reconciled(env, config, Snapshot(), receipt, supplied)
    {
      hide Verified, AnchorMatches, ValidRecord;
      var valid, head, matched := VerifyState(config.trustedAnchor);
      if !valid || head.None? || receipt.heads == [] { return false; }
      var i := 0;
      while i < |receipt.heads|
        invariant 0 <= i <= |receipt.heads|
        invariant forall j :: 0 <= j < i ==>
          && AuditHead(receipt.heads[j].1.auditEventId, receipt.heads[j].1.auditSequence) == AuditHeadOf(events).value
          && Get(heads, receipt.heads[j].0) == Some(receipt.heads[j].1)
      {
        var name, installed := receipt.heads[i].0, receipt.heads[i].1;
        if AuditHead(installed.auditEventId, installed.auditSequence) != head.value { return false; }
        if Get(heads, name) != Some(installed) { return false; }
        i := i + 1;
      }
      ok := forall id :: id in supplied ==>
        id in records && ValidRecord(env, id, records[id]) && records[id] == supplied[id];
    }

    /** `commit_many`. `others` are the requests other connections get in between this
        transaction's COMMIT and its readback. Nothing but an admitted transaction that reaches
        COMMIT changes the tables; then its event is in the log for good, and the call reports
        success exactly when none of the other requests is admitted to the tables it leaves, so
        that no other transaction gets in before the readback. */
    method CommitMany(r: Request, fault: FaultPoint, others: seq<Request>) returns (result: Result<Receipt, StoreError>)
      requires DraftOk(env, r.event) && forall i :: 0 <= i < |others| ==> DraftOk(env, others[i].event)
      modifies this
      ensures match Attempt(env, config, old(Snapshot()), r)
        case Refused(e) =>
          Snapshot() == old(Snapshot()) && (result == Err(e) || (fault == AfterRecords && result == Err(Fault)))
        case Retried(receipt) => Snapshot() == old(Snapshot()) && result == Ok(receipt)
        case Admitted =>
          var before := old(Snapshot());
          var p := Normalize(env, r).value;
          var mine := Committed(env, config.storeId, before, p, r.event);
          if InterruptsCommit(fault) then Snapshot() == before && result == Err(Fault)
          else
            && |mine.events| == |before.events| + 1 && before.events <= mine.events <= events
            && Verified(env, config.storeId, Snapshot())
            && Snapshot() == AfterAll(env, config, mine, others)
            && (events == mine.events <==> Snapshot() == mine) && (Snapshot() == mine <==> NoneAdmitted(env, config, mine, others))
            && result == if NoneAdmitted(env, config, mine, others)
                         then Ok(CommitReceipt(env, config.storeId, before, p, r.event)) else Err(Integrity)
    {
      hide Verified, Normalize, Decide, CommitReceipt, Committed, Reconciled, DraftOk, NoneAdmitted;
      var outcome := Transact(r, fault);
      match outcome {
        case Failed(e) => return Err(e);
        case AlreadyThere(receipt) => return Ok(receipt);
        case Done(receipt) =>
      }
      var receipt := outcome.receipt;
      ghost var before := old(Snapshot());
      var p := Normalize(env, r).value;
      ghost var mine := Committed(env, config.storeId, before, p, r.event);
      NormalizeOk(env, r);
      CommitKeepsVerified(env, config, before, p, r.event);
      CommitAppends(env, config.storeId, before, p, r.event);
      ReceiptSequence(env, config.storeId, before, p, r.event);
      AfterNone(env, config, mine, others);
      var i := 0;
      while i < |others|
        invariant 0 <= i <= |others|
        invariant Verified(env, config.storeId, Snapshot())
        invariant Snapshot() == mine || (mine.events <= events && |events| > |mine.events|)
        invariant Snapshot() == AfterAll(env, config, mine, others[..i])
      {
        ghost var now := Snapshot();
        AfterNext(env, config, mine, others, i);
        var other := Transact(others[i], NoFault);
        if other.Done? {
          NormalizeOk(env, others[i]);
          CommitKeepsVerified(env, config, now, Normalize(env, others[i]).value, others[i].event);
          CommitAppends(env, config.storeId, now, Normalize(env, others[i]).value, others[i].event);
        }
        i := i + 1;
      }
      assert others[..i] == others;
      AfterAllUnchanged(env, config, mine, others);
      if Snapshot() == mine {
        ReadbackSucceeds(env, config, before, p, r.event);
      } else {
        ReadbackOvertaken(env, config, Snapshot(), receipt, p.records);
      }
      var ok := ReconcileCommitted(receipt, p.records);
      result := if ok then Ok(receipt) else Err(Integrity);
    }
  }
}
