/** The checkpoints of a session: one linear history, found again by walking parent links. */
module History {
  import opened Orders
  import opened Utf8
  import opened Store
  import opened StoreLaws
  import opened StoreRuns
  import opened Session
  import SqliteStore
  import Canonical
  import SessionLaws

  // ----- the events that moved the session head -----

  /** Positions of the events that moved the head, oldest first. */
  ghost function Moves(rows: seq<EventRow>, name: Name): (hs: seq<int>)
    ensures forall k :: 0 <= k < |hs| ==> 0 <= hs[k] < |rows| && Changes(rows[hs[k]].payload.headUpdates.changes, name)
  {
    if rows == [] then []
    else
      var n := |rows| - 1;
      var before := Moves(rows[..n], name);
      if Changes(rows[n].payload.headUpdates.changes, name) then before + [n] else before
  }

  /** The head that the event at this position installed. */
  ghost function HeadAt(rows: seq<EventRow>, name: Name, i: int): HeadState
    requires 0 <= i < |rows| && Changes(rows[i].payload.headUpdates.changes, name)
  {
    HeadState(NewRecordFor(rows[i].payload.headUpdates.changes, name), rows[i].eventId, i + 1)
  }

  lemma {:induction false} LastMove(env: Env, storeId: Text, localRows: set<LocalId>, rows: seq<EventRow>, name: Name)
    requires ReplayLog(env, storeId, localRows, rows).Some?
    ensures var hs := Moves(rows, name);
      Get(ReplayLog(env, storeId, localRows, rows).value.heads, name)
        == if hs == [] then None else Some(HeadAt(rows, name, hs[|hs| - 1]))
  {
    hide RowOk, Advance, Changes, NewRecordFor;
    if rows != [] {
      var n := |rows| - 1;
      ReplayPrefix(env, storeId, localRows, rows, n);
      assert rows[..n + 1] == rows;
      LastMove(env, storeId, localRows, rows[..n], name);
      AdvanceHeads(env, storeId, localRows, ReplayLog(env, storeId, localRows, rows[..n]).value, rows[n], n + 1, name);
    }
  }

  /** The first move installs a checkpoint without parent, and every later one a child of the
      checkpoint installed by the move before it, made for that very event. */
  ghost predicate Linear(records: map<Id, Content>, rows: seq<EventRow>, name: Name, k: int)
    requires 0 <= k < |Moves(rows, name)|
  {
    var hs := Moves(rows, name);
    var id := HeadAt(rows, name, hs[k]).recordId;
    && id in records && records[id].CheckpointContent?
    && var cp := records[id].checkpoint;
    if k == 0 then
      cp.parentId == None && cp.auditParentId == None && cp.intentId in records && records[cp.intentId].IntentContent?
    else
      var before := HeadAt(rows, name, hs[k - 1]);
      && before.recordId in records && records[before.recordId].CheckpointContent?
      && LinksTo(cp, records[before.recordId].checkpoint, before)
  }

  lemma {:induction false} LinearPrefix(records: map<Id, Content>, rows: seq<EventRow>, name: Name, n: nat, k: nat)
    requires n + 1 == |rows| && k < |Moves(rows[..n], name)| && Linear(records, rows[..n], name, k)
    ensures k < |Moves(rows, name)| && Linear(records, rows, name, k)
  {
    hide Changes, NewRecordFor;
  }

  lemma {:induction false} ChangeOf(records: map<Id, Content>, row: EventRow, name: Name) returns (c: nat)
    requires Changes(row.payload.headUpdates.changes, name) && ChangesSorted(row.payload.headUpdates.changes)
    requires RowChained(records, row, name)
    ensures c < |row.payload.headUpdates.changes| && row.payload.headUpdates.changes[c].name == name
    ensures row.payload.headUpdates.changes[c].newRecordId == NewRecordFor(row.payload.headUpdates.changes, name)
    ensures LinkedChange(records, row.payload.headUpdates.changes[c])
  {
    hide LinkedChange;
    var cs := row.payload.headUpdates.changes;
    c :| 0 <= c < |cs| && cs[c].name == name;
    NewRecordAt(cs, c);
  }

  lemma {:induction false} MoveIsLinear(env: Env, storeId: Text, localRows: set<LocalId>, records: map<Id, Content>,
        rows: seq<EventRow>, name: Name)
    requires ReplayLog(env, storeId, localRows, rows).Some? && rows != []
    requires RowChained(records, rows[|rows| - 1], name)
    requires Changes(rows[|rows| - 1].payload.headUpdates.changes, name)
    ensures var k := |Moves(rows, name)| - 1; k >= 0 && Linear(records, rows, name, k)
  {
    hide RowOk, Advance, ReplayLog, Changes, NewRecordFor, RowChained, ChangesSorted;
    var n := |rows| - 1;
    ReplayPrefix(env, storeId, localRows, rows, n);
    LastMove(env, storeId, localRows, rows[..n], name);
    HasChange(env, storeId, localRows, rows, n);
    AdvanceHeads(env, storeId, localRows, ReplayLog(env, storeId, localRows, rows[..n]).value, rows[n], n + 1, name);
    var c := ChangeOf(records, rows[n], name);
  }

  lemma {:induction false} LogIsLinear(env: Env, storeId: Text, localRows: set<LocalId>, records: map<Id, Content>,
        rows: seq<EventRow>, name: Name, k: nat)
    requires ReplayLog(env, storeId, localRows, rows).Some?
    requires forall i :: 0 <= i < |rows| ==> RowChained(records, rows[i], name)
    requires k < |Moves(rows, name)|
    ensures Linear(records, rows, name, k)
  {
    hide RowOk, Advance, Changes, Linear, RowChained;
    var n := |rows| - 1;
    ReplayPrefix(env, storeId, localRows, rows, n);
    if k < |Moves(rows[..n], name)| {
      LogIsLinear(env, storeId, localRows, records, rows[..n], name, k);
      LinearPrefix(records, rows, name, n, k);
    } else {
      MoveIsLinear(env, storeId, localRows, records, rows, name);
    }
  }

  /** The checkpoint installed by the k-th move. */
  ghost function Nth(t: Tables, name: Name, k: int): Checkpoint
    requires 0 <= k < |Moves(t.events, name)| && Linear(t.records, t.events, name, k)
  {
    t.records[HeadAt(t.events, name, Moves(t.events, name)[k]).recordId].checkpoint
  }

  lemma {:induction false} ProtectedKept(t: Tables, name: Name, k: nat)
    requires forall j :: 0 <= j < |Moves(t.events, name)| ==> Linear(t.records, t.events, name, j)
    requires k < |Moves(t.events, name)|
    ensures SameProtected(Nth(t, name, k), Nth(t, name, 0))
  {
    hide Changes, NewRecordFor, Moves;
    if k > 0 {
      assert Linear(t.records, t.events, name, k - 1) && Linear(t.records, t.events, name, k);
      ProtectedKept(t, name, k - 1);
    }
  }

  /** The session head is the tip of one linear chain: each checkpoint was installed over its
      parent and carries the event that installed the parent, only the first has no parent, and
      no protected field ever changes. */
  ghost predicate LinearSession(t: Tables, name: Name) {
    var hs := Moves(t.events, name);
    && (name in t.heads <==> hs != [])
    && (hs != [] ==> t.heads[name] == HeadAt(t.events, name, hs[|hs| - 1]))
    && (forall k :: 0 <= k < |hs| ==> Linear(t.records, t.events, name, k))
    && forall k :: 0 <= k < |hs| ==>
         && SameProtected(Nth(t, name, k), Nth(t, name, 0))
         && (Nth(t, name, k).parentId == None <==> k == 0)
  }

  lemma {:induction false} SessionIsLinear(env: Env, storeId: Text, t: Tables, name: Name)
    requires Verified(env, storeId, t) && Linked(t, name)
    ensures LinearSession(t, name)
  {
    hide Verified, Linked, Linear, Nth, SameProtected, Moves, HeadAt, Changes, NewRecordFor;
    AllLinear(env, storeId, t, name);
    forall k | 0 <= k < |Moves(t.events, name)|
      ensures SameProtected(Nth(t, name, k), Nth(t, name, 0))
        && (Nth(t, name, k).parentId == None <==> k == 0)
    {
      ProtectedKept(t, name, k);
      ParentOnlyFirst(t, name, k);
    }
  }

  /** Every state of every interleaving of calls has such a session. */
  lemma {:induction false} EveryStateIsLinear(env: Env, storeId: Text, name: Name, ws: seq<World>, i: nat)
    requires Behaviour(env, storeId, name, ws) && i < |ws|
    ensures LinearSession(ws[i].tables, name)
  {
    hide Behaviour, Verified, Linked, LinearSession, CallOk;
    SessionLaws.Safety(env, storeId, name, ws, i);
    SessionIsLinear(env, storeId, ws[i].tables, name);
  }

  lemma {:induction false} AllLinear(env: Env, storeId: Text, t: Tables, name: Name)
    requires Verified(env, storeId, t) && Linked(t, name)
    ensures var hs := Moves(t.events, name);
      && (name in t.heads <==> hs != [])
      && (hs != [] ==> t.heads[name] == HeadAt(t.events, name, hs[|hs| - 1]))
    ensures forall k :: 0 <= k < |Moves(t.events, name)| ==> Linear(t.records, t.events, name, k)
  {
    hide RecordTableOk, LocalTableOk, ReplayLog, RowChained, Linear, Moves, HeadAt;
    LastMove(env, storeId, t.locals.Keys, t.events, name);
    forall k | 0 <= k < |Moves(t.events, name)| ensures Linear(t.records, t.events, name, k) {
      LogIsLinear(env, storeId, t.locals.Keys, t.records, t.events, name, k);
    }
  }

  lemma {:induction false} ParentOnlyFirst(t: Tables, name: Name, k: nat)
    requires k < |Moves(t.events, name)| && Linear(t.records, t.events, name, k)
    ensures Nth(t, name, k).parentId == None <==> k == 0
  {
    hide Moves, Changes, NewRecordFor;
  }

  // ----- initialising a session that exists -----

  /** The record the first checkpoint of the session was made for, if there is one. */
  ghost function FirstIntent(t: Tables, name: Name): Option<Content> {
    var hs := Moves(t.events, name);
    if hs == [] then None
    else
      var id := HeadAt(t.events, name, hs[0]).recordId;
      if id !in t.records || !t.records[id].CheckpointContent? then None
      else Get(t.records, t.records[id].checkpoint.intentId)
  }

  /** The current checkpoint was made for the same intent as the first one. */
  lemma {:induction false} HeadKeepsIntent(env: Env, storeId: Text, t: Tables, name: Name)
    requires Verified(env, storeId, t) && Linked(t, name) && name in t.heads
    ensures t.heads[name].recordId in t.records && t.records[t.heads[name].recordId].CheckpointContent?
    ensures var id := t.records[t.heads[name].recordId].checkpoint.intentId;
      id in t.records && t.records[id].IntentContent? && FirstIntent(t, name) == Some(t.records[id])
  {
    hide Verified, Moves, Linked, HeadAt, Changes, NewRecordFor;
    SessionIsLinear(env, storeId, t, name);
    var last := |Moves(t.events, name)| - 1;
    assert Linear(t.records, t.events, name, last) && Linear(t.records, t.events, name, 0);
    assert SameProtected(Nth(t, name, last), Nth(t, name, 0));
  }

  /** Whatever checkpoints were made since, an `initialize` with the intent of the first one is
      reconciled to the current head, and one with any other intent is refused. */
  lemma {:induction false} InitializeAgain(env: Env, storeId: Text, t: Tables, name: Name, intent: Intent)
    requires Verified(env, storeId, t) && Linked(t, name) && name in t.heads
    ensures FirstIntent(t, name).Some? && FirstIntent(t, name).value.IntentContent?
    ensures ReconcileExisting(env, t, name, intent) ==
      if FirstIntent(t, name) == Some(IntentContent(intent)) then Ok(t.heads[name]) else Err(AlreadyInitialized)
  {
    hide LocalTableOk, ReplayLog, Linked, FirstIntent;
    HeadKeepsIntent(env, storeId, t, name);
  }

  /** A commit is refused as a conflict only when the head is not where the call read it. */
  lemma {:induction false} ConflictMeansMoved(env: Env, config: Config, t: Tables, r: Request, u: HeadChange)
    requires r.headUpdates == [u] && SqliteStore.Attempt(env, config, t, r) == Refused(Conflict)
    ensures Get(t.heads, u.name) != u.expected
  {
    hide Verified, ExistingRetryReceipt, TransactionSignature, RowsRefused, EventIdTaken, NormalizeRecords,
      NormalizeLocals;
    ChangesByNameOk(r.headUpdates);
    assert u in [u];
  }

  // ----- calls that meet no rival -----

  lemma {:induction false} ChildPlanned(env: Env, name: Name, head: HeadState, parent: Checkpoint, createdAt: Text,
        details: Canonical.Json)
    ensures var r := ChildRequest(env, name, head, parent, createdAt, details); var record := r.records[0];
      Normalize(env, r) == Ok(Plan(map[record.recordId := record.content], map[], map[name := r.headUpdates[0]]))
  {
    var r := ChildRequest(env, name, head, parent, createdAt, details);
    assert r.records[..0] == [] && r.headUpdates[..0] == [];
    assert NormalizeRecords(env, r.records[..0]) == Ok(map[]);
    assert ChangesByName(r.headUpdates[..0]) == Ok(map[]);
  }

  /** A content or the event of the request has the identifier of another that is stored. */
  ghost predicate Clashes(env: Env, storeId: Text, t: Tables, r: Request) {
    var n := Normalize(env, r);
    n.Ok? && (Contradicts(t.records, n.value.records) || EventIdTaken(env, storeId, t, n.value, r.event))
  }

  /** A change that expects the current head is in no event of the log. */
  lemma {:induction false} CurrentNeverRetried(env: Env, config: Config, t: Tables, r: Request, u: HeadChange)
    requires Verified(env, config.storeId, t) && r.headUpdates == [u] && u.expected.Some?
    requires Get(t.heads, u.name) == u.expected
    ensures !SqliteStore.Attempt(env, config, t, r).Retried?
  {
    hide Verified, Decide, Normalize, ListChanges;
    if SqliteStore.Attempt(env, config, t, r).Retried? {
      var p := Normalize(env, r).value;
      SessionLaws.SingleChange(env, r, u);
      var i := SessionLaws.RetriedReceipt(env, config, t, p, r.event);
      LogReplays(env, config.storeId, t);
      HasChange(env, config.storeId, t.locals.Keys, t.events, i);
      ExpectedEarlier(env, config.storeId, t.locals.Keys, t.events, i, 0);
      assert false;
    }
  }

  /** A checkpoint committed over the current head is never a conflict and never a retry: it goes
      in exactly when the store is writable, the trusted anchor matches, and no two different
      contents or events share an identifier. */
  lemma {:induction false} UncontendedCheckpoint(env: Env, config: Config, t: Tables, name: Name, parent: Checkpoint,
        createdAt: Text, details: Canonical.Json)
    requires Verified(env, config.storeId, t)
    requires name in t.heads && t.heads[name].recordId in t.records
    requires t.records[t.heads[name].recordId] == CheckpointContent(parent)
    ensures var r := ChildRequest(env, name, t.heads[name], parent, createdAt, details);
      && Normalize(env, r).Ok?
      && SqliteStore.Attempt(env, config, t, r) ==
           if config.readOnly then Refused(Validation)
           else if !TrustedAnchorMatches(config, t) || Clashes(env, config.storeId, t, r) then Refused(Integrity)
           else Admitted
  {
    hide Verified, TrustedAnchorMatches, ExistingRetryReceipt, TransactionSignature, Contradicts, EventIdTaken,
      Normalize;
    var r := ChildRequest(env, name, t.heads[name], parent, createdAt, details);
    ChildPlanned(env, name, t.heads[name], parent, createdAt, details);
    CurrentNeverRetried(env, config, t, r, r.headUpdates[0]);
  }

  /** The first initialize of a store goes in whenever its request can be planned. */
  lemma {:induction false} FirstInitialize(env: Env, config: Config, name: Name, g: Genesis)
    requires !config.readOnly && config.trustedAnchor.None?
    requires Normalize(env, GenesisRequest(env, name, g)).Ok?
    ensures SqliteStore.Attempt(env, config, Empty(config.storeId), GenesisRequest(env, name, g)) == Admitted
  {
    hide Verified, TransactionSignature, BuildPayload, NormalizeRecords, NormalizeLocals;
    var r := GenesisRequest(env, name, g);
    EmptyVerified(env, config.storeId);
    SessionLaws.RecordPlanned(env, r, |g.others| + 1);
    ChangesByNameOk(r.headUpdates);
  }
}
