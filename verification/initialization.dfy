/** `initialize` under races (api.py): whatever other calls do between its read of the head and
    its commit, and over whole interleavings, an answer of success or refusal tells the truth
    about the intent the session was begun for. */
module Initialization {
  import opened Orders
  import opened Utf8
  import opened Store
  import opened StoreLaws
  import opened Session
  import opened SessionLaws
  import opened History
  import opened Retries
  import Drafts
  import SqliteStore

  // ----- what the session was begun for -----

  /** A stored content has the identifier of this one and is another. */
  ghost predicate Shares(env: Env, t: Tables, content: Content) {
    var id := env.recordIdOf(content);
    id in t.records && t.records[id] != content
  }

  /** One of the two records that name the call's intent shares its identifier. */
  ghost predicate Collides(env: Env, t: Tables, g: Genesis) {
    Shares(env, t, CheckpointContent(GenesisCheckpoint(env, g))) || Shares(env, t, IntentContent(g.intent))
  }

  /** The session was begun for the intent of this call. */
  ghost predicate BegunFor(t: Tables, name: Name, g: Genesis) {
    FirstIntent(t, name) == Some(IntentContent(g.intent))
  }

  // ----- one commit -----

  lemma {:induction false} GenesisChange(env: Env, name: Name, g: Genesis)
    requires Normalize(env, GenesisRequest(env, name, g)).Ok?
    ensures var r := GenesisRequest(env, name, g); var p := Normalize(env, r).value;
      && r.headUpdates == [HeadChange(name, None, env.recordIdOf(CheckpointContent(GenesisCheckpoint(env, g))))]
      && ListChanges(p.changes) == r.headUpdates && name in p.changes && p.changes[name].expected == None
  {
    hide NormalizeRecords, NormalizeLocals, ListChanges;
    var r := GenesisRequest(env, name, g);
    SingleChange(env, r, r.headUpdates[0]);
    ChangesByNameOk(r.headUpdates);
    assert r.headUpdates[0] in r.headUpdates;
  }

  /** Over a head that exists the genesis request is never admitted. */
  lemma {:induction false} NeverAdmittedTwice(env: Env, config: Config, t: Tables, name: Name, g: Genesis)
    requires name in t.heads
    ensures !SqliteStore.Attempt(env, config, t, GenesisRequest(env, name, g)).Admitted?
  {
    hide Normalize, GenesisRequest, Decide;
    var r := GenesisRequest(env, name, g);
    if SqliteStore.Attempt(env, config, t, r).Admitted? {
      GenesisChange(env, name, g);
      AdmittedFacts(env, config, t, Normalize(env, r).value, r.event);
      assert false;
    }
  }

  /** A genesis request found in the log: its checkpoint is still the head. */
  lemma {:induction false} RetriedHead(env: Env, config: Config, t: Tables, name: Name, g: Genesis)
    requires SqliteStore.Attempt(env, config, t, GenesisRequest(env, name, g)).Retried?
    ensures var receipt := SqliteStore.Attempt(env, config, t, GenesisRequest(env, name, g)).receipt;
      && receipt.heads != [] && name in t.heads && receipt.heads[0].1 == t.heads[name]
      && t.heads[name].recordId == env.recordIdOf(CheckpointContent(GenesisCheckpoint(env, g)))
  {
    hide Decide, Normalize, GenesisRequest, ListChanges, EventSignature, TransactionSignature;
    var r := GenesisRequest(env, name, g);
    GenesisChange(env, name, g);
    var p := Normalize(env, r).value;
    var i := RetriedReceipt(env, config, t, p, r.event);
    assert Get(t.heads, r.headUpdates[0].name).Some?;
  }

  /** When the head is the checkpoint of this call, the session was begun for its intent. */
  lemma {:induction false} OwnCheckpoint(env: Env, storeId: Text, t: Tables, name: Name, g: Genesis)
    requires Verified(env, storeId, t) && Linked(t, name) && name in t.heads
    requires t.heads[name].recordId == env.recordIdOf(CheckpointContent(GenesisCheckpoint(env, g)))
    ensures BegunFor(t, name, g) || Collides(env, t, g)
  {
    hide Verified, Linked, FirstIntent;
    HeadKeepsIntent(env, storeId, t, name);
  }

  /** A commit that finds a head changes nothing, and reports success only for the checkpoint
      that is the head. */
  lemma {:induction false} CommitFindsHead(env: Env, config: Config, t: Tables, name: Name, g: Genesis, t': Tables,
        o: Result<HeadState, StoreError>)
    requires Verified(env, config.storeId, t) && Linked(t, name) && name in t.heads
    requires CommitStep(env, config, t, GenesisRequest(env, name, g), t', o)
    ensures t' == t
    ensures o.Ok? ==>
      && o.value == t.heads[name]
      && o.value.recordId == env.recordIdOf(CheckpointContent(GenesisCheckpoint(env, g)))
      && (BegunFor(t, name, g) || Collides(env, t, g))
  {
    hide Verified, Linked, SqliteStore.Attempt, GenesisRequest, GenesisCheckpoint, DraftOk, BegunFor, Collides, Normalize,
      Committed, CommitReceipt;
    NeverAdmittedTwice(env, config, t, name, g);
    if o.Ok? {
      RetriedHead(env, config, t, name, g);
      OwnCheckpoint(env, config.storeId, t, name, g);
    }
  }

  /** A commit that finds no head reports success only if it installed its own checkpoint. */
  lemma {:induction false} CommitFindsNone(env: Env, config: Config, t: Tables, name: Name, g: Genesis, t': Tables,
        o: Result<HeadState, StoreError>)
    requires Verified(env, config.storeId, t) && Linked(t, name) && name !in t.heads
    requires CommitStep(env, config, t, GenesisRequest(env, name, g), t', o)
    ensures o.Ok? ==>
      && name in t'.heads && o.value == t'.heads[name] && BegunFor(t', name, g)
      && o.value.recordId == env.recordIdOf(CheckpointContent(GenesisCheckpoint(env, g)))
    ensures o != Err(Conflict)
  {
    hide Verified, Linked, SqliteStore.Attempt, GenesisRequest, DraftOk, FirstIntent, Normalize, Committed,
      CommitReceipt;
    var r := GenesisRequest(env, name, g);
    if o == Err(Conflict) {
      NoConflict(env, config, t, name, g);
      assert false;
    }
    if o.Ok? {
      if SqliteStore.Attempt(env, config, t, r).Retried? {
        RetriedHead(env, config, t, name, g);
      } else {
        GenesisInstalled(env, config, t, name, g);
        CommitGrows(env, config, t, r, t', o);
        InitializeLinked(env, name, config, t, g, t', o);
        HeadKeepsIntent(env, config.storeId, t', name);
      }
    }
  }

  lemma {:induction false} NoConflict(env: Env, config: Config, t: Tables, name: Name, g: Genesis)
    requires name !in t.heads
    ensures SqliteStore.Attempt(env, config, t, GenesisRequest(env, name, g)) != Refused(Conflict)
  {
    hide SqliteStore.Attempt, GenesisCheckpoint;
    var r := GenesisRequest(env, name, g);
    if SqliteStore.Attempt(env, config, t, r) == Refused(Conflict) {
      ConflictMeansMoved(env, config, t, r, r.headUpdates[0]);
      assert false;
    }
  }

  /** An admitted genesis request stores its checkpoint and its intent, and makes the checkpoint
      the head. */
  lemma {:induction false} GenesisInstalled(env: Env, config: Config, t: Tables, name: Name, g: Genesis)
    requires SqliteStore.Attempt(env, config, t, GenesisRequest(env, name, g)).Admitted?
    ensures var r := GenesisRequest(env, name, g); var p := Normalize(env, r).value;
      var t' := Committed(env, config.storeId, t, p, r.event);
      var receipt := CommitReceipt(env, config.storeId, t, p, r.event);
      var cp := GenesisCheckpoint(env, g);
      && receipt.heads != [] && name in t'.heads && receipt.heads[0].1 == t'.heads[name]
      && t'.heads[name].recordId == env.recordIdOf(CheckpointContent(cp))
      && Get(t'.records, env.recordIdOf(CheckpointContent(cp))) == Some(CheckpointContent(cp))
      && Get(t'.records, cp.intentId) == Some(IntentContent(g.intent))
  {
    hide SqliteStore.Attempt, Normalize, MoveHeads, ListChanges, ListLocals, SortSet, NewIds, Changes, NewRecordFor;
    var r := GenesisRequest(env, name, g);
    assert SqliteStore.Attempt(env, config, t, r) == Admitted;
    SqliteStore.AdmittedPlan(env, config, t, r);
    SuppliedKept(env, config, t, r, |g.others|);
    SuppliedKept(env, config, t, r, |g.others| + 1);
    GenesisUpdate(env, name, g);
    CommittedHead(env, config, t, r, r.headUpdates[0]);
  }

  /** The session as a first `initialize` leaves it: a head without parents over the identifiers of
      the intent, every record that came with the call, and an event of the call's own time,
      details and local values. */
  ghost predicate Begun(env: Env, t: Tables, head: HeadState, g: Genesis) {
    && head.recordId in t.records && t.records[head.recordId].CheckpointContent?
    && var cp := t.records[head.recordId].checkpoint;
    && cp.parentId == None && cp.auditParentId == None && cp.createdAt == g.createdAt && cp.carried == g.carried
    && cp.targetId == g.intent.targetId && cp.goalId == g.intent.goalId && cp.criterionIds == g.intent.criterionIds
    && cp.instructionId == g.intent.instructionId && cp.policyId == g.intent.policyId
    && cp.rulesetId == g.intent.rulesetId
    && cp.intentId == env.recordIdOf(IntentContent(g.intent))
    && Get(t.records, cp.intentId) == Some(IntentContent(g.intent))
    && (forall k :: 0 <= k < |g.others| ==> Get(t.records, g.others[k].recordId) == Some(g.others[k].content))
    && 1 <= head.auditSequence <= |t.events|
    && var e := t.events[head.auditSequence - 1].payload;
    && e.kind == INITIALIZE_KIND && e.logicalTime == g.createdAt && e.details == g.details && e.subjectId == head.recordId
    && (forall l :: l in e.localValues <==> exists k :: 0 <= k < |g.locals| && Drafts.LocalKey(g.locals[k]) == l)
    && (forall id :: id in e.recordIds <==>
          id == head.recordId || id == cp.intentId || exists k :: 0 <= k < |g.others| && g.others[k].recordId == id)
  }

  lemma {:induction false} GenesisOthers(env: Env, config: Config, t: Tables, name: Name, g: Genesis)
    requires SqliteStore.Attempt(env, config, t, GenesisRequest(env, name, g)).Admitted?
    ensures var r := GenesisRequest(env, name, g);
      var t' := Committed(env, config.storeId, t, Normalize(env, r).value, r.event);
      forall k :: 0 <= k < |g.others| ==> Get(t'.records, g.others[k].recordId) == Some(g.others[k].content)
  {
    hide Normalize, Committed, Decide;
    var r := GenesisRequest(env, name, g);
    var t' := Committed(env, config.storeId, t, Normalize(env, r).value, r.event);
    assert SqliteStore.Attempt(env, config, t, r) == Admitted;
    forall k | 0 <= k < |g.others| ensures Get(t'.records, g.others[k].recordId) == Some(g.others[k].content) {
      SuppliedKept(env, config, t, r, k);
      assert r.records[k] == g.others[k];
    }
  }

  lemma {:induction false} GenesisEvent(env: Env, storeId: Text, name: Name, g: Genesis, e: EventPayload)
    requires SameRequest(storeId, e, GenesisRequest(env, name, g))
    ensures var id := env.recordIdOf(CheckpointContent(GenesisCheckpoint(env, g)));
      && e.kind == INITIALIZE_KIND && e.logicalTime == g.createdAt && e.details == g.details && e.subjectId == id
      && (forall l :: l in e.localValues <==> exists k :: 0 <= k < |g.locals| && Drafts.LocalKey(g.locals[k]) == l)
      && forall i :: i in e.recordIds <==>
           || i == id || i == env.recordIdOf(IntentContent(g.intent))
           || exists k :: 0 <= k < |g.others| && g.others[k].recordId == i
  {
    hide GenesisCheckpoint;
    var r := GenesisRequest(env, name, g);
    var n := |g.others|;
    assert r.records[n].recordId == env.recordIdOf(IntentContent(g.intent));
    assert r.records[n + 1].recordId == env.recordIdOf(CheckpointContent(GenesisCheckpoint(env, g)));
    assert forall k :: 0 <= k < n ==> r.records[k] == g.others[k];
  }

  /** A commit that finds no head and succeeds has begun the session. */
  lemma {:induction false} GenesisWritten(env: Env, config: Config, t: Tables, name: Name, g: Genesis, t': Tables,
        o: Result<HeadState, StoreError>)
    requires Verified(env, config.storeId, t) && name !in t.heads
    requires CommitStep(env, config, t, GenesisRequest(env, name, g), t', o) && o.Ok?
    ensures Begun(env, t', o.value, g)
  {
    hide Verified, SqliteStore.Attempt, DraftOk, Normalize, Committed, CommitReceipt, SameRequest;
    var r := GenesisRequest(env, name, g);
    if SqliteStore.Attempt(env, config, t, r).Retried? {
      RetriedHead(env, config, t, name, g);
      assert false;
    } else {
      GenesisInstalled(env, config, t, name, g);
      GenesisOthers(env, config, t, name, g);
      GenesisUpdate(env, name, g);
      AnswerHolds(env, config, t, r, t', o, r.headUpdates[0]);
      GenesisEvent(env, config.storeId, name, g, t'.events[o.value.auditSequence - 1].payload);
    }
  }

  // ----- one call -----

  /** What a call answers when its commit found a head: the outcome of the commit, or, after a
      conflict, what reconciling finds. */
  ghost predicate Answered(env: Env, t: Tables, name: Name, g: Genesis, o: Result<HeadState, StoreError>,
        result: Result<HeadState, SessionError>)
    requires name in t.heads
  {
    match o
    case Ok(head) => head == t.heads[name] && result == Ok(head) && (BegunFor(t, name, g) || Collides(env, t, g))
    case Err(Conflict) => result == if BegunFor(t, name, g) then Ok(t.heads[name]) else Err(AlreadyInitialized)
    case Err(LocalsAfterGenesis) => result == if BegunFor(t, name, g) then Ok(t.heads[name]) else Err(AlreadyInitialized)
    case Err(e) => result == Err(StoreFailed(e))
  }

  /** The answer to a commit that found a head. */
  lemma {:induction false} RacedAnswer(env: Env, config: Config, t: Tables, name: Name, g: Genesis, t': Tables,
        o: Result<HeadState, StoreError>)
    requires Verified(env, config.storeId, t) && Linked(t, name) && name in t.heads
    requires CommitStep(env, config, t, GenesisRequest(env, name, g), t', o)
    ensures t' == t && InitializeEnds(env, t', name, g, o).Ended?
    ensures Answered(env, t, name, g, o, InitializeEnds(env, t', name, g, o).outcome)
  {
    hide Verified, Linked, ReconcileExisting, GenesisRequest, GenesisCheckpoint, CommitStep, Collides, FirstIntent;
    CommitFindsHead(env, config, t, name, g, t', o);
    InitializeAgain(env, config.storeId, t, name, g.intent);
  }

  /** A call of `initialize` that read no head, in any state other calls may have led to, whose
      commit finds one: the tables stay as they are; a success of the commit is the current head
      itself, made of this call's own genesis; and the call ends with the current head when the
      session was begun for its intent, with `AlreadyInitialized` when it was begun for another,
      and otherwise with the failure of the store. */
  lemma {:induction false} InitializeRaced(env: Env, name: Name, config: Config, w: World, w': World, c: nat,
        o: Result<HeadState, StoreError>)
    requires Inv(env, config.storeId, name, w) && CommitInitialize(env, name, config, w, w', c, o)
    requires name in w.tables.heads
    ensures w'.tables == w.tables
    ensures FirstIntent(w.tables, name).Some? && FirstIntent(w.tables, name).value.IntentContent?
    ensures o.Ok? ==>
      && o.value == w.tables.heads[name]
      && o.value.recordId == env.recordIdOf(CheckpointContent(GenesisCheckpoint(env, w.calls[c].genesis)))
    ensures w'.calls[c].Ended? && Answered(env, w.tables, name, w.calls[c].genesis, o, w'.calls[c].outcome)
  {
    hide Verified, Linked, CallOk, GenesisRequest, GenesisCheckpoint, CommitStep, Answered, FirstIntent, ReconcileExisting;
    var g := w.calls[c].genesis;
    CommitFindsHead(env, config, w.tables, name, g, w'.tables, o);
    InitializeAgain(env, config.storeId, w.tables, name, g.intent);
    RacedAnswer(env, config, w.tables, name, g, w'.tables, o);
  }

  /** Nothing but the intent decides: with a writable store whose anchor matches, a request that
      can be planned, no fault, and no identifier shared, the raced call succeeds exactly when
      the session was begun for its intent, and is refused as `AlreadyInitialized` otherwise. */
  lemma {:induction false} RacedDecidedByIntent(env: Env, name: Name, config: Config, w: World, w': World, c: nat,
        o: Result<HeadState, StoreError>)
    requires Inv(env, config.storeId, name, w) && CommitInitialize(env, name, config, w, w', c, o)
    requires name in w.tables.heads && !config.readOnly && TrustedAnchorMatches(config, w.tables) && o != Err(Fault)
    requires Normalize(env, GenesisRequest(env, name, w.calls[c].genesis)).Ok?
    requires !Collides(env, w.tables, w.calls[c].genesis)
    ensures w'.calls[c] == Ended(
      if BegunFor(w.tables, name, w.calls[c].genesis) then Ok(w.tables.heads[name]) else Err(AlreadyInitialized))
  {
    hide Verified, Linked, CallOk, GenesisRequest, Collides, BegunFor, Normalize, SqliteStore.Attempt, TrustedAnchorMatches,
      InitializeEnds, DraftOk, Committed, CommitReceipt;
    var g := w.calls[c].genesis;
    InitializeRaced(env, name, config, w, w', c, o);
    RacedDecision(env, config, w.tables, name, g);
  }

  lemma {:induction false} RacedDecision(env: Env, config: Config, t: Tables, name: Name, g: Genesis)
    requires Verified(env, config.storeId, t) && TrustedAnchorMatches(config, t) && !config.readOnly && name in t.heads
    requires Normalize(env, GenesisRequest(env, name, g)).Ok?
    ensures var d := SqliteStore.Attempt(env, config, t, GenesisRequest(env, name, g));
      d.Retried? || d == Refused(LocalsAfterGenesis) || d == Refused(Conflict)
  {
    hide Verified, Normalize, GenesisRequest, TrustedAnchorMatches, TransactionSignature, ExistingRetryReceipt,
      RowsRefused, EventIdTaken;
    GenesisChange(env, name, g);
  }

  /** In this step the call c of `initialize` for g ends with this result. */
  ghost predicate EndsAs(env: Env, storeId: Text, name: Name, w: World, w': World, c: nat, g: Genesis,
        result: Result<HeadState, SessionError>)
  {
    && c < |w.calls| && c < |w'.calls| && w'.calls[c] == Ended(result)
    && (|| StartInitialize(env, name, w, w', c, g)
        || (w.calls[c] == Initializing(g)
            && exists config: Config, o :: config.storeId == storeId && CommitInitialize(env, name, config, w, w', c, o)))
  }

  /** What an answer says about the tables it leaves. */
  ghost predicate Truthful(env: Env, t: Tables, name: Name, g: Genesis, result: Result<HeadState, SessionError>) {
    && (result.Ok? ==>
          name in t.heads && result.value == t.heads[name] && (BegunFor(t, name, g) || Collides(env, t, g)))
    && (result == Err(AlreadyInitialized) ==> FirstIntent(t, name).Some? && !BegunFor(t, name, g))
  }

  lemma {:induction false} StartTruthful(env: Env, storeId: Text, name: Name, w: World, w': World, c: nat, g: Genesis,
        result: Result<HeadState, SessionError>)
    requires Inv(env, storeId, name, w) && StartInitialize(env, name, w, w', c, g) && w'.calls[c] == Ended(result)
    ensures w'.tables == w.tables && Truthful(env, w'.tables, name, g, result)
  {
    hide Verified, Linked, CallOk, FirstIntent, ReconcileExisting, Collides;
    assert name in w.tables.heads;
    InitializeAgain(env, storeId, w.tables, name, g.intent);
  }

  lemma {:induction false} CommitTruthful(env: Env, name: Name, config: Config, w: World, w': World, c: nat, g: Genesis,
        o: Result<HeadState, StoreError>, result: Result<HeadState, SessionError>)
    requires Inv(env, config.storeId, name, w) && CommitInitialize(env, name, config, w, w', c, o)
    requires w.calls[c] == Initializing(g) && w'.calls[c] == Ended(result)
    ensures Truthful(env, w'.tables, name, g, result)
    ensures name in w.tables.heads ==> w'.tables == w.tables
  {
    hide Verified, Linked, CallOk, GenesisRequest, GenesisCheckpoint, CommitStep, FirstIntent, Collides, ReconcileExisting;
    var r := GenesisRequest(env, name, g);
    if name in w.tables.heads {
      InitializeRaced(env, name, config, w, w', c, o);
    } else {
      CommitFindsNone(env, config, w.tables, name, g, w'.tables, o);
      CommitGrows(env, config, w.tables, r, w'.tables, o);
      InitializeLinked(env, name, config, w.tables, g, w'.tables, o);
      if name in w'.tables.heads {
        InitializeAgain(env, config.storeId, w'.tables, name, g.intent);
      }
    }
  }

  /** Every answer of `initialize` is truthful, and over a head nothing is written. */
  lemma {:induction false} EndedTruthful(env: Env, storeId: Text, name: Name, w: World, w': World, c: nat, g: Genesis,
        result: Result<HeadState, SessionError>)
    requires Inv(env, storeId, name, w) && EndsAs(env, storeId, name, w, w', c, g, result)
    ensures Truthful(env, w'.tables, name, g, result)
    ensures name in w.tables.heads ==> w'.tables == w.tables
  {
    hide Inv, StartInitialize, CommitInitialize, Truthful;
    if StartInitialize(env, name, w, w', c, g) {
      StartTruthful(env, storeId, name, w, w', c, g, result);
    } else {
      var config: Config, o :| config.storeId == storeId && CommitInitialize(env, name, config, w, w', c, o);
      CommitTruthful(env, name, config, w, w', c, g, o, result);
    }
  }

  // ----- whole interleavings -----

  lemma {:induction false} NextGrows(env: Env, storeId: Text, name: Name, w: World, w': World)
    requires Inv(env, storeId, name, w) && Next(env, storeId, name, w, w')
    ensures Grows(w.tables, w'.tables)
  {
    hide Verified, Linked, CallOk, CommitStep, GenesisRequest, ChildRequest, InitializeEnds, AfterRead, CheckpointEnds;
    if config: Config, c: nat, o :| config.storeId == storeId && CommitInitialize(env, name, config, w, w', c, o) {
      CommitGrows(env, config, w.tables, GenesisRequest(env, name, w.calls[c].genesis), w'.tables, o);
    } else if config: Config, c: nat, createdAt, details, o :|
        config.storeId == storeId && CommitCheckpoint(env, name, config, w, w', c, createdAt, details, o) {
      CommitGrows(env, config, w.tables,
                  ChildRequest(env, name, w.calls[c].head, w.calls[c].parent, createdAt, details), w'.tables, o);
    } else if config: Config, r, o :| config.storeId == storeId && OtherTransaction(env, name, config, w, w', r, o) {
      CommitGrows(env, config, w.tables, r, w'.tables, o);
    } else {
      assert w'.tables == w.tables;
    }
  }

  lemma {:induction false} BehaviourGrows(env: Env, storeId: Text, name: Name, ws: seq<World>, i: nat, j: nat)
    requires Behaviour(env, storeId, name, ws) && i <= j < |ws|
    ensures Grows(ws[i].tables, ws[j].tables)
    decreases j
  {
    hide Next, Inv;
    if i < j {
      BehaviourGrows(env, storeId, name, ws, i, j - 1);
      Safety(env, storeId, name, ws, j - 1);
      assert Next(env, storeId, name, ws[j - 1], ws[j - 1 + 1]);
      NextGrows(env, storeId, name, ws[j - 1], ws[j]);
    }
  }

  lemma {:induction false} FirstMoveStays(rows: seq<EventRow>, rows': seq<EventRow>, name: Name)
    requires rows <= rows' && Moves(rows, name) != []
    ensures Moves(rows', name) != [] && Moves(rows', name)[0] == Moves(rows, name)[0]
  {
    hide Changes;
    if |rows| == |rows'| {
      assert rows == rows';
    } else {
      FirstMoveStays(rows, rows'[..|rows'| - 1], name);
    }
  }

  /** What the session was begun for never changes. */
  lemma {:induction false} FirstIntentStays(t: Tables, t': Tables, name: Name)
    requires Grows(t, t') && FirstIntent(t, name).Some?
    ensures FirstIntent(t', name) == FirstIntent(t, name)
  {
    hide Moves, Changes, NewRecordFor;
    FirstMoveStays(t.events, t'.events, name);
  }

  lemma {:induction false} BegunForStays(env: Env, t: Tables, t': Tables, name: Name, g: Genesis)
    requires Grows(t, t') && (BegunFor(t, name, g) || Collides(env, t, g))
    ensures BegunFor(t', name, g) || Collides(env, t', g)
  {
    hide FirstIntent, GenesisCheckpoint;
    if BegunFor(t, name, g) {
      FirstIntentStays(t, t', name);
    }
  }

  lemma {:induction false} AnswerStays(env: Env, storeId: Text, name: Name, ws: seq<World>, i: nat, c: nat, g: Genesis,
        result: Result<HeadState, SessionError>)
    requires Behaviour(env, storeId, name, ws) && i + 1 < |ws|
    requires EndsAs(env, storeId, name, ws[i], ws[i + 1], c, g, result)
    ensures var t := ws[|ws| - 1].tables;
      && (result.Ok? ==> BegunFor(t, name, g) || Collides(env, t, g))
      && (result == Err(AlreadyInitialized) ==> FirstIntent(t, name).Some? && !BegunFor(t, name, g))
  {
    hide Behaviour, Inv, EndsAs, Grows, FirstIntent, Collides;
    Safety(env, storeId, name, ws, i);
    EndedTruthful(env, storeId, name, ws[i], ws[i + 1], c, g, result);
    BehaviourGrows(env, storeId, name, ws, i + 1, |ws| - 1);
    if result.Ok? {
      BegunForStays(env, ws[i + 1].tables, ws[|ws| - 1].tables, name, g);
    }
    if result == Err(AlreadyInitialized) {
      FirstIntentStays(ws[i + 1].tables, ws[|ws| - 1].tables, name);
    }
  }

  /** Agreement: in one interleaving, however many calls of `initialize` race, all that succeed
      were made for one intent, and every call refused as `AlreadyInitialized` was made for
      another one than theirs, unless two contents in the store share an identifier. */
  lemma {:induction false} InitializeAgreement(env: Env, storeId: Text, name: Name, ws: seq<World>, i: nat, c: nat,
        g: Genesis, head: HeadState, j: nat, d: nat, h: Genesis, result: Result<HeadState, SessionError>)
    requires Behaviour(env, storeId, name, ws) && i + 1 < |ws| && j + 1 < |ws|
    requires EndsAs(env, storeId, name, ws[i], ws[i + 1], c, g, Ok(head))
    requires EndsAs(env, storeId, name, ws[j], ws[j + 1], d, h, result)
    ensures var t := ws[|ws| - 1].tables;
      || Collides(env, t, g) || Collides(env, t, h)
      || ((result.Ok? ==> g.intent == h.intent) && (result == Err(AlreadyInitialized) ==> g.intent != h.intent))
  {
    hide Behaviour, EndsAs, FirstIntent, Collides;
    AnswerStays(env, storeId, name, ws, i, c, g, Ok(head));
    AnswerStays(env, storeId, name, ws, j, d, h, result);
  }
}
