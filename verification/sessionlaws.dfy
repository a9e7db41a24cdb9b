/** What holds in every reachable state of the session protocol. */
module SessionLaws {
  import opened Orders
  import opened Utf8
  import opened Store
  import opened StoreLaws
  import opened StoreRuns
  import opened Session
  import SqliteStore
  import Canonical

  // ----- single-head commits -----

  lemma {:induction false} SingleChange(env: Env, r: Request, u: HeadChange)
    requires r.headUpdates == [u] && Normalize(env, r).Ok?
    ensures ListChanges(Normalize(env, r).value.changes) == [u]
  {
    hide NormalizeRecords, NormalizeLocals, ListChanges;
    ChangesByNameOk(r.headUpdates);
    var changes := Normalize(env, r).value.changes;
    ListChangesFacts(changes);
    var cs := ListChanges(changes);
    assert u in [u] && changes[u.name] == u;
    assert forall i :: 0 <= i < |cs| ==> changes[cs[i].name] in [u];
    var k :| 0 <= k < |cs| && cs[k] == u;
    assert |cs| == 1;
  }

  lemma {:induction false} RetryFound(rows: seq<EventRow>, heads: map<Name, HeadState>,
        signature: Signature) returns (i: nat)
    requires ExistingRetryReceipt(rows, heads, signature).Some?
    ensures i < |rows| && EventSignature(rows[i].payload) == signature && HeadsStillAt(heads, signature.changes, rows[i])
    ensures ExistingRetryReceipt(rows, heads, signature).value ==
      Receipt(ReceiptHeads(signature.changes, rows[i].eventId, rows[i].sequence), rows[i].payload.insertedRecordIds)
  {
    hide EventSignature, HeadsStillAt, ReceiptHeads;
    var row := rows[|rows| - 1];
    if EventSignature(row.payload) == signature && HeadsStillAt(heads, signature.changes, row) {
      i := |rows| - 1;
    } else {
      i := RetryFound(rows[..|rows| - 1], heads, signature);
    }
  }

  /** A receipt names an event of the log that installed the requested record. */
  lemma {:induction false} ReceiptTruthful(env: Env, config: Config, t: Tables, r: Request, t': Tables,
        o: Result<HeadState, StoreError>, u: HeadChange)
    requires Verified(env, config.storeId, t) && CommitStep(env, config, t, r, t', o)
    requires r.headUpdates == [u] && o.Ok?
    ensures Installed(t'.events, u.name, o.value) && o.value.recordId == u.newRecordId
  {
    hide Verified, Decide, Normalize, DraftOk, Changes, NewRecordFor, PlanOk, ListLocals, SortSet, MoveHeads,
      ListChanges;
    SingleChangeInstalls(u);
    var p := Normalize(env, r).value;
    SingleChange(env, r, u);
    if SqliteStore.Attempt(env, config, t, r).Retried? {
      RetriedInstalls(env, config, t, p, r.event, u);
    }
  }

  /** The head a commit installs is the one its receipt names. */
  lemma {:induction false} CommittedHead(env: Env, config: Config, t: Tables, r: Request, u: HeadChange)
    requires r.headUpdates == [u] && Normalize(env, r).Ok?
    ensures var p := Normalize(env, r).value;
      var receipt := CommitReceipt(env, config.storeId, t, p, r.event);
      && receipt.heads != [] && receipt.heads[0].1.recordId == u.newRecordId
      && Get(Committed(env, config.storeId, t, p, r.event).heads, u.name) == Some(receipt.heads[0].1)
  {
    hide Normalize, MoveHeads, ListChanges, ListLocals, SortSet, NewIds, Changes, NewRecordFor;
    SingleChange(env, r, u);
    SingleChangeInstalls(u);
    var payload := BuildPayload(config.storeId, t, Normalize(env, r).value, r.event);
    MoveHeadsAt(t.heads, [u], env.eventIdOf(payload), payload.sequence, u.name);
  }

  lemma {:induction false} SingleChangeInstalls(u: HeadChange)
    ensures Changes([u], u.name) && NewRecordFor([u], u.name) == u.newRecordId
  {
    assert [u][0].name == u.name;
  }

  /** The event a resubmitted request is answered from. */
  lemma {:induction false} RetriedReceipt(env: Env, config: Config, t: Tables, p: Plan, d: EventDraft) returns (i: nat)
    requires Decide(env, config, t, p, d).Retried?
    ensures i < |t.events| && EventSignature(t.events[i].payload) == TransactionSignature(config.storeId, p, d)
    ensures HeadsStillAt(t.heads, ListChanges(p.changes), t.events[i])
    ensures Decide(env, config, t, p, d).receipt ==
      Receipt(ReceiptHeads(ListChanges(p.changes), t.events[i].eventId, t.events[i].sequence),
              t.events[i].payload.insertedRecordIds)
  {
    hide Verified, ExistingRetryReceipt, ListChanges, ListLocals, SortSet, RowsRefused, EventIdTaken, HeadsExpected,
      HeadsStillAt, EventSignature, ReceiptHeads;
    i := RetryFound(t.events, t.heads, TransactionSignature(config.storeId, p, d));
  }

  lemma {:induction false} RetriedInstalls(env: Env, config: Config, t: Tables, p: Plan, d: EventDraft, u: HeadChange)
    requires Verified(env, config.storeId, t) && Decide(env, config, t, p, d).Retried?
    requires ListChanges(p.changes) == [u]
    ensures var receipt := Decide(env, config, t, p, d).receipt;
      && receipt.heads != [] && Installed(t.events, u.name, receipt.heads[0].1)
      && receipt.heads[0].1.recordId == u.newRecordId
  {
    hide Verified, Decide, ListChanges, ListLocals, SortSet, HeadsStillAt;
    var i := RetriedReceipt(env, config, t, p, d);
    LogReplays(env, config.storeId, t);
    HasChange(env, config.storeId, t.locals.Keys, t.events, i);
    SingleChangeInstalls(u);
  }

  /** Every supplied record is in the table after a commit, with the supplied content. */
  lemma {:induction false} SuppliedKept(env: Env, config: Config, t: Tables, r: Request, k: nat)
    requires SqliteStore.Attempt(env, config, t, r) == Admitted && k < |r.records|
    ensures var t' := Committed(env, config.storeId, t, Normalize(env, r).value, r.event);
      r.records[k].recordId in t'.records && t'.records[r.records[k].recordId] == r.records[k].content
  {
    hide Normalize, BuildPayload, MoveHeads, ListChanges, Decide, Verified, TrustedAnchorMatches, ExistingRetryReceipt,
      TransactionSignature, HeadsExpected;
    var p := Normalize(env, r).value;
    RecordPlanned(env, r, k);
    AdmittedFacts(env, config, t, p, r.event);
  }

  lemma {:induction false} RecordPlanned(env: Env, r: Request, k: nat)
    requires Normalize(env, r).Ok? && k < |r.records|
    ensures var p := Normalize(env, r).value;
      r.records[k].recordId in p.records && p.records[r.records[k].recordId] == r.records[k].content
  {
    hide NormalizeRecords, NormalizeLocals, NormalizeUpdates, ValidRecord;
    NormalizeRecordsOk(env, r.records);
    assert r.records[k] in r.records;
  }

  lemma {:induction false} ChildLinked(env: Env, name: Name, config: Config, t: Tables, head: HeadState,
        parent: Checkpoint,
                                       createdAt: Text, details: Canonical.Json)
    requires var r := ChildRequest(env, name, head, parent, createdAt, details);
      SqliteStore.Attempt(env, config, t, r) == Admitted
    requires head.recordId in t.records && t.records[head.recordId] == CheckpointContent(parent)
    ensures var r := ChildRequest(env, name, head, parent, createdAt, details);
      LinkedChange(Committed(env, config.storeId, t, Normalize(env, r).value, r.event).records, r.headUpdates[0])
  {
    hide Normalize, SqliteStore.Attempt, BuildPayload, MoveHeads;
    var r := ChildRequest(env, name, head, parent, createdAt, details);
    SuppliedKept(env, config, t, r, 0);
  }

  lemma {:induction false} GenesisLinked(env: Env, name: Name, config: Config, t: Tables, g: Genesis)
    requires SqliteStore.Attempt(env, config, t, GenesisRequest(env, name, g)) == Admitted
    ensures var r := GenesisRequest(env, name, g);
      LinkedChange(Committed(env, config.storeId, t, Normalize(env, r).value, r.event).records, r.headUpdates[0])
  {
    hide Normalize, SqliteStore.Attempt, BuildPayload, MoveHeads;
    var r := GenesisRequest(env, name, g);
    SuppliedKept(env, config, t, r, |g.others|);
    SuppliedKept(env, config, t, r, |g.others| + 1);
  }

  // ----- every step keeps the invariant -----

  lemma {:induction false} HeadInstalled(env: Env, storeId: Text, t: Tables, name: Name)
    requires Verified(env, storeId, t) && name in t.heads
    ensures Installed(t.events, name, t.heads[name])
  {
    hide Verified, Changes, NewRecordFor;
    HeadsAreLastWritten(env, storeId, t, name);
  }

  lemma {:induction false} ReconciledOk(env: Env, storeId: Text, t: Tables, name: Name, intent: Intent)
    requires Verified(env, storeId, t)
    ensures CallOk(t, name, Ended(ReconcileExisting(env, t, name, intent)))
  {
    hide Verified, Installed, ValidRecord;
    if name in t.heads {
      HeadInstalled(env, storeId, t, name);
    }
  }

  lemma {:induction false} CallsKept(t: Tables, t': Tables, name: Name, calls: seq<Call>, calls': seq<Call>, c: nat,
        call: Call)
    requires forall i :: 0 <= i < |calls| ==> CallOk(t, name, calls[i])
    requires Grows(t, t') && c < |calls| && CallOk(t', name, call) && calls' == calls[c := call]
    ensures forall i :: 0 <= i < |calls'| ==> CallOk(t', name, calls'[i])
  {
    hide CallOk, Grows;
    forall i | 0 <= i < |calls'| ensures CallOk(t', name, calls'[i]) {
      CallKept(t, t', name, calls[i]);
    }
  }

  lemma {:induction false} ReadKeeps(env: Env, storeId: Text, name: Name, w: World, w': World, c: nat, admitted: bool)
    requires Inv(env, storeId, name, w) && ReadHead(env, name, w, w', c, admitted)
    ensures Inv(env, storeId, name, w')
  {
    hide Verified, Installed, Linked, ValidRecord;
    if name in w.tables.heads {
      HeadInstalled(env, storeId, w.tables, name);
    }
    assert CallOk(w.tables, name, w.calls[c]);
    var call := AfterRead(env, w.tables, name, if w.calls[c].Again? then w.calls[c].attempt else 0, admitted);
    CallsKept(w.tables, w'.tables, name, w.calls, w'.calls, c, call);
  }

  lemma {:induction false} StartKeeps(env: Env, storeId: Text, name: Name, w: World, w': World, c: nat, g: Genesis)
    requires Inv(env, storeId, name, w) && StartInitialize(env, name, w, w', c, g)
    ensures Inv(env, storeId, name, w')
  {
    hide Verified, Installed, Linked, ReconcileExisting;
    ReconciledOk(env, storeId, w.tables, name, g.intent);
    var call := if name in w.tables.heads then Ended(ReconcileExisting(env, w.tables, name, g.intent)) else Initializing(g);
    CallsKept(w.tables, w'.tables, name, w.calls, w'.calls, c, call);
  }

  lemma {:induction false} CommitInitializeKeeps(env: Env, name: Name, config: Config, w: World, w': World, c: nat,
        o: Result<HeadState, StoreError>)
    requires Inv(env, config.storeId, name, w) && CommitInitialize(env, name, config, w, w', c, o)
    ensures Inv(env, config.storeId, name, w')
  {
    hide Verified, Installed, Linked, CommitStep, GenesisRequest, ReconcileExisting, Grows;
    var g := w.calls[c].genesis;
    var r := GenesisRequest(env, name, g);
    CommitGrows(env, config, w.tables, r, w'.tables, o);
    InitializeLinked(env, name, config, w.tables, g, w'.tables, o);
    ReconciledOk(env, config.storeId, w'.tables, name, g.intent);
    if o.Ok? {
      GenesisUpdate(env, name, g);
      ReceiptTruthful(env, config, w.tables, r, w'.tables, o, r.headUpdates[0]);
    }
    CallsKept(w.tables, w'.tables, name, w.calls, w'.calls, c, InitializeEnds(env, w'.tables, name, g, o));
  }

  lemma {:induction false} GenesisUpdate(env: Env, name: Name, g: Genesis)
    ensures |GenesisRequest(env, name, g).headUpdates| == 1
    ensures GenesisRequest(env, name, g).headUpdates == [GenesisRequest(env, name, g).headUpdates[0]]
    ensures GenesisRequest(env, name, g).headUpdates[0].name == name
  {
  }

  lemma {:induction false} InitializeLinked(env: Env, name: Name, config: Config, t: Tables, g: Genesis, t': Tables,
        o: Result<HeadState, StoreError>)
    requires Verified(env, config.storeId, t) && Linked(t, name)
    requires CommitStep(env, config, t, GenesisRequest(env, name, g), t', o)
    ensures Linked(t', name)
  {
    hide Verified, Linked, LinkedChange, SqliteStore.Attempt, Normalize, Committed, CommitReceipt, DraftOk;
    var r := GenesisRequest(env, name, g);
    if t' != t {
      GenesisLinked(env, name, config, t, g);
    }
    CommitLinked(env, config, t, r, t', o, name);
  }

  lemma {:induction false} CheckpointLinked(env: Env, name: Name, config: Config, t: Tables, head: HeadState,
        parent: Checkpoint,
                                            createdAt: Text, details: Canonical.Json, t': Tables, o: Result<HeadState, StoreError>)
    requires Verified(env, config.storeId, t) && Linked(t, name)
    requires head.recordId in t.records && t.records[head.recordId] == CheckpointContent(parent)
    requires CommitStep(env, config, t, ChildRequest(env, name, head, parent, createdAt, details), t', o)
    ensures Linked(t', name)
  {
    hide Verified, Linked, LinkedChange, SqliteStore.Attempt, Normalize, Committed, CommitReceipt, DraftOk;
    var r := ChildRequest(env, name, head, parent, createdAt, details);
    if t' != t {
      ChildLinked(env, name, config, t, head, parent, createdAt, details);
    }
    CommitLinked(env, config, t, r, t', o, name);
  }

  lemma {:induction false} CommitCheckpointKeeps(env: Env, name: Name, config: Config, w: World, w': World, c: nat,
        createdAt: Text, details: Canonical.Json, o: Result<HeadState, StoreError>)
    requires Inv(env, config.storeId, name, w)
    requires CommitCheckpoint(env, name, config, w, w', c, createdAt, details, o)
    ensures Inv(env, config.storeId, name, w')
  {
    hide Verified, Installed, Linked, CommitStep, Grows;
    var call := w.calls[c];
    assert CallOk(w.tables, name, call);
    var r := ChildRequest(env, name, call.head, call.parent, createdAt, details);
    CommitGrows(env, config, w.tables, r, w'.tables, o);
    CheckpointLinked(env, name, config, w.tables, call.head, call.parent, createdAt, details, w'.tables, o);
    if o.Ok? {
      ReceiptTruthful(env, config, w.tables, r, w'.tables, o, r.headUpdates[0]);
    }
    CallsKept(w.tables, w'.tables, name, w.calls, w'.calls, c, CheckpointEnds(call.attempt, o));
  }

  lemma {:induction false} OtherKeeps(env: Env, name: Name, config: Config, w: World, w': World, r: Request,
        o: Result<HeadState, StoreError>)
    requires Inv(env, config.storeId, name, w) && OtherTransaction(env, name, config, w, w', r, o)
    ensures Inv(env, config.storeId, name, w')
  {
    hide Verified, Installed, Linked, CommitStep, Grows, CallOk;
    CommitGrows(env, config, w.tables, r, w'.tables, o);
    CommitLinked(env, config, w.tables, r, w'.tables, o, name);
    forall c | 0 <= c < |w'.calls| ensures CallOk(w'.tables, name, w'.calls[c]) {
      CallKept(w.tables, w'.tables, name, w.calls[c]);
    }
  }

  lemma {:induction false} NextKeeps(env: Env, storeId: Text, name: Name, w: World, w': World)
    requires Inv(env, storeId, name, w) && Next(env, storeId, name, w, w')
    ensures Inv(env, storeId, name, w')
  {
    hide Inv, StartInitialize, CommitInitialize, ReadHead, CommitCheckpoint, OtherTransaction, Return;
    if c: nat, g :| StartInitialize(env, name, w, w', c, g) {
      StartKeeps(env, storeId, name, w, w', c, g);
    } else if config: Config, c: nat, o :| config.storeId == storeId && CommitInitialize(env, name, config, w, w', c, o) {
      CommitInitializeKeeps(env, name, config, w, w', c, o);
    } else if c: nat, admitted :| ReadHead(env, name, w, w', c, admitted) {
      ReadKeeps(env, storeId, name, w, w', c, admitted);
    } else if config: Config, c: nat, createdAt, details, o :|
        config.storeId == storeId && CommitCheckpoint(env, name, config, w, w', c, createdAt, details, o) {
      CommitCheckpointKeeps(env, name, config, w, w', c, createdAt, details, o);
    } else if config: Config, r, o :| config.storeId == storeId && OtherTransaction(env, name, config, w, w', r, o) {
      OtherKeeps(env, name, config, w, w', r, o);
    } else {
      var c: nat :| Return(w, w', c);
      ReturnKeeps(env, storeId, name, w, w', c);
    }
  }

  lemma {:induction false} ReturnKeeps(env: Env, storeId: Text, name: Name, w: World, w': World, c: nat)
    requires Inv(env, storeId, name, w) && Return(w, w', c)
    ensures Inv(env, storeId, name, w')
  {
    hide Verified, Linked;
    CallsKept(w.tables, w.tables, name, w.calls, w'.calls, c, Idle);
  }

  /** In every state of every interleaving: the tables verify, every session checkpoint is
      linked to the head it replaced, and every receipt handed out names an event of the log. */
  lemma {:induction false} Safety(env: Env, storeId: Text, name: Name, ws: seq<World>, i: nat)
    requires Behaviour(env, storeId, name, ws) && i < |ws|
    ensures Inv(env, storeId, name, ws[i])
  {
    hide Next, Verified;
    if i == 0 {
      EmptyVerified(env, storeId);
    } else {
      Safety(env, storeId, name, ws, i - 1);
      assert Next(env, storeId, name, ws[i - 1], ws[i - 1 + 1]);
      NextKeeps(env, storeId, name, ws[i - 1], ws[i]);
    }
  }
}
