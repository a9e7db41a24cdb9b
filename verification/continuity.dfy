/** The calls themselves (api.py), each run against a store that other callers may write to in
    between. */
module Continuities {
  import opened Orders
  import opened Utf8
  import opened Store
  import opened StoreLaws
  import opened StoreRuns
  import opened Session
  import opened SessionLaws
  import opened History
  import opened Initialization
  import opened Retries
  import opened SqliteStore
  import Canonical

  /** What another caller does while this one is between its read and its commit. */
  datatype Rival =
    | RivalCheckpoint(createdAt: Text, details: Canonical.Json)
    | RivalInitialize(genesis: Genesis)
    | RivalOther(request: Request)

  /** What the outside contributes to one attempt: whether the captures admit the transition,
      the clock, the event details, the rivals that act before the commit, where the commit is
      interrupted, and the rivals that act between COMMIT and its readback. */
  datatype AttemptInput = AttemptInput(
    admitted: bool, createdAt: Text, details: Canonical.Json, rivals: seq<Rival>, fault: FaultPoint, late: seq<Rival>)

  ghost predicate RivalOk(env: Env, name: Name, rival: Rival) {
    match rival
    case RivalCheckpoint(createdAt, details) => DraftOk(env, EventDraft(CHECKPOINT_KIND, 0, createdAt, details))
    case RivalInitialize(g) => DraftOk(env, EventDraft(INITIALIZE_KIND, 0, g.createdAt, g.details))
    case RivalOther(r) =>
      DraftOk(env, r.event) && forall i :: 0 <= i < |r.headUpdates| ==> r.headUpdates[i].name != name
  }

  ghost predicate RivalsOk(env: Env, name: Name, rivals: seq<Rival>) {
    forall i :: 0 <= i < |rivals| ==> RivalOk(env, name, rivals[i])
  }

  ghost predicate AttemptOk(env: Env, name: Name, input: AttemptInput) {
    && DraftOk(env, EventDraft(CHECKPOINT_KIND, 0, input.createdAt, input.details))
    && RivalsOk(env, name, input.rivals) && RivalsOk(env, name, input.late)
  }

  /** What a rival submits when it meets these tables; a checkpoint needs a head to build on. */
  function RivalRequest(env: Env, name: Name, t: Tables, rival: Rival): Option<Request> {
    match rival
    case RivalCheckpoint(createdAt, details) =>
      (match AfterRead(env, t, name, 0, true)
       case Ready(_, head, parent) => Some(ChildRequest(env, name, head, parent, createdAt, details))
       case _ => None)
    case RivalInitialize(g) => Some(GenesisRequest(env, name, g))
    case RivalOther(r) => Some(r)
  }

  /** What the rivals submit when they act one after the other, from these tables on. */
  function RivalRequests(env: Env, config: Config, name: Name, t: Tables, rivals: seq<Rival>): seq<Request> {
    if rivals == [] then []
    else
      var n := |rivals| - 1;
      var before := RivalRequests(env, config, name, t, rivals[..n]);
      match RivalRequest(env, name, AfterAll(env, config, t, before), rivals[n])
      case None => before
      case Some(r) => before + [r]
  }

  /** Nothing interrupts a commit that leaves these tables, and none of the rivals that act before
      its readback gets a transaction in. */
  ghost predicate Undisturbed(env: Env, config: Config, name: Name, mine: Tables, fault: FaultPoint, late: seq<Rival>) {
    !InterruptsCommit(fault) && NoneAdmitted(env, config, mine, RivalRequests(env, config, name, mine, late))
  }

  /** A checkpoint of the session goes through from these tables: there is a head to build on, the
      store is writable and its anchor matches, no identifier is shared, and nothing disturbs the
      commit. */
  ghost predicate GoesThrough(env: Env, config: Config, name: Name, t: Tables, input: AttemptInput) {
    match RivalRequest(env, name, t, RivalCheckpoint(input.createdAt, input.details))
    case None => false
    case Some(r) =>
      && !config.readOnly && TrustedAnchorMatches(config, t) && !Clashes(env, config.storeId, t, r)
      && Undisturbed(env, config, name, After(env, config, t, r), input.fault, input.late)
  }

  /** The record is a checkpoint made over this head: its parent and its audit parent are the
      head's record and event, and its protected fields are the parent's. */
  ghost predicate IsChild(records: map<Id, Content>, id: Id, head: HeadState) {
    LinkedChange(records, HeadChange(0, Some(head), id))
  }

  /** The head was installed by an event of kind checkpoint with this time and these details, about
      the one record it stores. */
  ghost predicate WrittenBy(t: Tables, head: HeadState, createdAt: Text, details: Canonical.Json) {
    && 1 <= head.auditSequence <= |t.events|
    && var e := t.events[head.auditSequence - 1].payload;
    && e.kind == CHECKPOINT_KIND && e.logicalTime == createdAt && e.details == details && e.subjectId == head.recordId
    && (forall id :: id in e.recordIds <==> id == head.recordId) && e.localValues == []
  }

  /** The record is a checkpoint created at this time. */
  ghost predicate Created(t: Tables, id: Id, createdAt: Text) {
    id in t.records && t.records[id].CheckpointContent? && t.records[id].checkpoint.createdAt == createdAt
  }

  /** The identifier of this record is also that of another content. */
  ghost predicate SharedId(env: Env, t: Tables, id: Id) {
    exists content: Content :: env.recordIdOf(content) == id && id in t.records && t.records[id] != content
  }

  /** The tables stayed as they were, or the log got longer. */
  ghost predicate Moved(t: Tables, t': Tables) {
    Grows(t, t') && (t' == t || |t'.events| > |t.events|)
  }

  lemma {:induction false} CommitMoves(env: Env, config: Config, t: Tables, r: Request, t': Tables,
        o: Result<HeadState, StoreError>)
    requires Verified(env, config.storeId, t) && CommitStep(env, config, t, r, t', o)
    ensures Moved(t, t') && Verified(env, config.storeId, t')
  {
    hide Verified, Attempt, Normalize, BuildPayload, MoveHeads, ListChanges, DraftOk, Grows, CommitReceipt;
    CommitGrows(env, config, t, r, t', o);
  }

  lemma {:induction false} ConflictOutcome(env: Env, config: Config, t: Tables, r: Request, t': Tables)
    requires CommitStep(env, config, t, r, t', Err(Conflict))
    ensures t' == t && Attempt(env, config, t, r) == Refused(Conflict)
  {
    hide Attempt, DraftOk, Committed, CommitReceipt, Normalize;
  }

  lemma {:induction false} RivalDraftOk(env: Env, name: Name, t: Tables, rival: Rival)
    requires RivalOk(env, name, rival) && RivalRequest(env, name, t, rival).Some?
    ensures DraftOk(env, RivalRequest(env, name, t, rival).value.event)
  {
    hide AfterRead;
  }

  lemma {:induction false} RivalDraftsOk(env: Env, config: Config, name: Name, t: Tables, rivals: seq<Rival>)
    requires RivalsOk(env, name, rivals)
    ensures forall r :: r in RivalRequests(env, config, name, t, rivals) ==> DraftOk(env, r.event)
  {
    hide RivalOk, DraftOk, RivalRequest, AfterAll;
    if rivals != [] {
      var n := |rivals| - 1;
      RivalDraftsOk(env, config, name, t, rivals[..n]);
      var now := AfterAll(env, config, t, RivalRequests(env, config, name, t, rivals[..n]));
      if RivalRequest(env, name, now, rivals[n]).Some? {
        RivalDraftOk(env, name, now, rivals[n]);
      }
    }
  }

  /** A rival that acts keeps the tables verified and the session linked. */
  lemma {:induction false} RivalKeeps(env: Env, config: Config, name: Name, t: Tables, rival: Rival, t': Tables,
        o: Result<HeadState, StoreError>)
    requires Verified(env, config.storeId, t) && Linked(t, name)
    requires RivalOk(env, name, rival) && RivalRequest(env, name, t, rival).Some?
    requires CommitStep(env, config, t, RivalRequest(env, name, t, rival).value, t', o)
    ensures Verified(env, config.storeId, t') && Linked(t', name) && Moved(t, t')
  {
    hide Verified, Linked, CommitStep, ChildRequest, GenesisRequest, Moved, DraftOk;
    CommitMoves(env, config, t, RivalRequest(env, name, t, rival).value, t', o);
    match rival {
      case RivalCheckpoint(createdAt, details) =>
        var ready := AfterRead(env, t, name, 0, true);
        CheckpointLinked(env, name, config, t, ready.head, ready.parent, createdAt, details, t', o);
      case RivalInitialize(g) => InitializeLinked(env, name, config, t, g, t', o);
      case RivalOther(r) => CommitLinked(env, config, t, r, t', o, name);
    }
  }

  lemma {:induction false} AfterIsCommit(env: Env, config: Config, t: Tables, r: Request)
    requires DraftOk(env, r.event) && After(env, config, t, r) != t
    ensures CommitStep(env, config, t, r, After(env, config, t, r), Err(Integrity))
  {
    hide Attempt, DraftOk, Committed, CommitReceipt, Normalize;
  }

  /** So do rivals acting one after the other. */
  lemma {:induction false} RivalsKeep(env: Env, config: Config, name: Name, t: Tables, rivals: seq<Rival>)
    requires Verified(env, config.storeId, t) && Linked(t, name) && RivalsOk(env, name, rivals)
    ensures var t' := AfterAll(env, config, t, RivalRequests(env, config, name, t, rivals));
      Verified(env, config.storeId, t') && Linked(t', name) && Moved(t, t')
  {
    hide Verified, Linked, RivalOk, DraftOk, CommitStep, RivalRequest, After;
    if rivals != [] {
      var n := |rivals| - 1;
      RivalsKeep(env, config, name, t, rivals[..n]);
      var before := RivalRequests(env, config, name, t, rivals[..n]);
      var now := AfterAll(env, config, t, before);
      var next := RivalRequest(env, name, now, rivals[n]);
      if next.Some? {
        var all := before + [next.value];
        assert all[..|all| - 1] == before;
        RivalDraftOk(env, name, now, rivals[n]);
        if After(env, config, now, next.value) != now {
          AfterIsCommit(env, config, now, next.value);
          RivalKeeps(env, config, name, now, rivals[n], After(env, config, now, next.value), Err(Integrity));
        }
      }
    }
  }

  lemma {:induction false} RetriedIsLinked(env: Env, config: Config, t: Tables, p: Plan, d: EventDraft, u: HeadChange)
    requires Verified(env, config.storeId, t) && Linked(t, u.name) && Decide(env, config, t, p, d).Retried?
    requires ListChanges(p.changes) == [u]
    ensures LinkedChange(t.records, u)
  {
    hide Verified, Decide, ListChanges, ListLocals, SortSet, LinkedChange, HeadsStillAt;
    var i := RetriedReceipt(env, config, t, p, d);
    assert RowChained(t.records, t.events[i], u.name);
    assert t.events[i].payload.headUpdates.changes[0] == u;
  }

  /** What a committed child is, whether it went in now or had gone in before. */
  lemma {:induction false} ChildStored(env: Env, config: Config, t: Tables, name: Name, head: HeadState,
        parent: Checkpoint, createdAt: Text, details: Canonical.Json, t': Tables,
          o: Result<HeadState, StoreError>)
    requires Verified(env, config.storeId, t) && Linked(t, name)
    requires head.recordId in t.records && t.records[head.recordId] == CheckpointContent(parent)
    requires CommitStep(env, config, t, ChildRequest(env, name, head, parent, createdAt, details), t', o) && o.Ok?
    ensures IsChild(t'.records, ChildRequest(env, name, head, parent, createdAt, details).headUpdates[0].newRecordId, head)
  {
    hide Verified, Linked, Decide, Normalize, DraftOk, Committed, CommitReceipt;
    var r := ChildRequest(env, name, head, parent, createdAt, details);
    if Attempt(env, config, t, r).Admitted? {
      ChildLinked(env, name, config, t, head, parent, createdAt, details);
    } else {
      SingleChange(env, r, r.headUpdates[0]);
      RetriedIsLinked(env, config, t, Normalize(env, r).value, r.event, r.headUpdates[0]);
    }
  }

  class Continuity {
    const name: Name
    const store: SQLiteStateStore

    ghost predicate Valid()
      reads this, store
    {
      Verified(store.env, store.config.storeId, store.Snapshot()) && Linked(store.Snapshot(), name)
    }

    constructor (store: SQLiteStateStore, name: Name)
      ensures this.store == store && this.name == name
    {
      this.store := store;
      this.name := name;
    }

    /** `commit`. `late` are the rivals that act between its COMMIT and its readback, and `mine`
        the tables that COMMIT leaves. */
    method Commit(r: Request, fault: FaultPoint, late: seq<Rival>)
      returns (o: Result<HeadState, StoreError>, ghost mine: Tables)
      requires DraftOk(store.env, r.event) && RivalsOk(store.env, name, late)
      requires Verified(store.env, store.config.storeId, store.Snapshot())
      modifies store
      ensures CommitStep(store.env, store.config, old(store.Snapshot()), r, mine, o)
      ensures || store.Snapshot() == mine
              || store.Snapshot() ==
                   AfterAll(store.env, store.config, mine, RivalRequests(store.env, store.config, name, mine, late))
      ensures o.Ok? || late == [] || mine == old(store.Snapshot()) ==> store.Snapshot() == mine
      ensures var t := old(store.Snapshot());
        Attempt(store.env, store.config, t, r).Admitted? ==>
          && (o.Ok? <==> Undisturbed(store.env, store.config, name, After(store.env, store.config, t, r), fault, late))
          && (o.Ok? ==> mine == After(store.env, store.config, t, r))
    {
      hide Verified, Normalize, DraftOk, Decide, Committed, RivalRequests, RivalsOk, NoneAdmitted;
      ghost var before := store.Snapshot();
      var others := RivalRequests(store.env, store.config, name, After(store.env, store.config, store.Snapshot(), r), late);
      RivalDraftsOk(store.env, store.config, name, After(store.env, store.config, before, r), late);
      NobodyLate(store.env, store.config, name, After(store.env, store.config, before, r), late);
      assert forall i :: 0 <= i < |others| ==> others[i] in others;
      var result := store.CommitMany(r, fault, others);
      mine := if store.Snapshot() == before then before else After(store.env, store.config, before, r);
      match result {
        case Err(e) => o := Err(e);
        case Ok(receipt) =>
          ReceiptNotEmpty(store.env, store.config, before, r);
          o := Ok(receipt.heads[0].1);
      }
    }

    static lemma {:induction false} NobodyLate(env: Env, config: Config, name: Name, t: Tables, late: seq<Rival>)
      ensures late == [] ==> RivalRequests(env, config, name, t, late) == []
    {
    }

    static lemma {:induction false} ReceiptNotEmpty(env: Env, config: Config, t: Tables, r: Request)
      ensures Attempt(env, config, t, r).Retried? ==> Attempt(env, config, t, r).receipt.heads != []
      ensures Attempt(env, config, t, r).Admitted? ==>
        CommitReceipt(env, config.storeId, t, Normalize(env, r).value, r.event).heads != []
    {
      hide Verified, Normalize, BuildPayload, NewIds, ListChanges, ListLocals, SortSet, ExistingRetryReceipt, HeadsExpected,
        RowsRefused, EventIdTaken, ValidRecord;
      var d := Attempt(env, config, t, r);
      if d.Retried? || d.Admitted? {
        var p := Normalize(env, r).value;
        NormalizeOk(env, r);
        assert |p.changes| != 0;
        if d.Retried? {
          var i := RetriedReceipt(env, config, t, p, r.event);
        }
      }
    }

    method Reconcile(intent: Intent) returns (result: Result<HeadState, SessionError>)
      ensures result == ReconcileExisting(store.env, store.Snapshot(), name, intent)
    {
      hide ValidRecord;
      var t := store.Snapshot();
      result := ReconcileExisting(store.env, t, name, intent);
    }

    /** `initialize`, from the point where the store is open: rivals may act between its read of
        the head and its commit, leaving the tables `raced`, and others between its COMMIT and
        its readback. When it read a head, or its commit meets one, nothing is written and the
        answer is what `Answered` says; a success always names the current head of a session
        begun for its intent, and `AlreadyInitialized` one begun for another. */
    method Initialize(g: Genesis, rivals: seq<Rival>, fault: FaultPoint, late: seq<Rival>)
      returns (result: Result<HeadState, SessionError>, ghost raced: Tables, ghost o: Result<HeadState, StoreError>)
      requires Valid() && RivalOk(store.env, name, RivalInitialize(g))
      requires RivalsOk(store.env, name, rivals) && RivalsOk(store.env, name, late)
      modifies store
      ensures Valid() && Moved(old(store.Snapshot()), raced) && Moved(raced, store.Snapshot())
      ensures rivals == [] ==> raced == old(store.Snapshot())
      ensures var t := old(store.Snapshot());
        name in t.heads ==>
          store.Snapshot() == t && result == if BegunFor(t, name, g) then Ok(t.heads[name]) else Err(AlreadyInitialized)
      ensures name !in old(store.heads) && name in raced.heads ==>
        && store.Snapshot() == raced && Answered(store.env, raced, name, g, o, result)
        && (o.Ok? ==> o.value.recordId == store.env.recordIdOf(CheckpointContent(GenesisCheckpoint(store.env, g))))
      ensures name !in raced.heads && o.Ok? ==> result == Ok(o.value) && Begun(store.env, store.Snapshot(), o.value, g)
      ensures result.Ok? ==> Installed(store.events, name, result.value)
      ensures Truthful(store.env, store.Snapshot(), name, g, result)
    {
      hide Verified, Linked, ReconcileExisting, GenesisRequest, GenesisCheckpoint, Installed, CommitStep, DraftOk,
        FirstIntent, Collides, RivalOk, RivalsOk, AfterAll, RivalRequests, Begun;
      raced := store.Snapshot();
      o := Err(Conflict);
      if name in store.heads {
        HeadInstalled(store.env, store.config.storeId, raced, name);
        InitializeAgain(store.env, store.config.storeId, raced, name, g.intent);
        result := Reconcile(g.intent);
        return;
      }
      Race(rivals);
      raced := store.Snapshot();
      ghost var mine;
      var outcome;
      GenesisRequestOk(store.env, name, g);
      outcome, mine := Commit(GenesisRequest(store.env, name, g), fault, late);
      o := outcome;
      GenesisCommitted(store.env, store.config, raced, name, g, mine, o);
      RivalsKeep(store.env, store.config, name, mine, late);
      result := AfterCommit(g, outcome);
      EndsTruthful(store.env, store.config, raced, name, g, mine, o, store.Snapshot());
    }

    /** What `initialize` makes of the outcome of its commit. */
    method AfterCommit(g: Genesis, o: Result<HeadState, StoreError>) returns (result: Result<HeadState, SessionError>)
      ensures Ended(result) == InitializeEnds(store.env, store.Snapshot(), name, g, o)
    {
      hide ReconcileExisting;
      match o {
        case Ok(head) => result := Ok(head);
        case Err(Conflict) => result := Reconcile(g.intent);
        case Err(LocalsAfterGenesis) =>
          if name in store.heads { result := Reconcile(g.intent); } else { result := Err(StoreFailed(LocalsAfterGenesis)); }
        case Err(e) => result := Err(StoreFailed(e));
      }
    }

    static lemma {:induction false} GenesisCommitted(env: Env, config: Config, t: Tables, name: Name, g: Genesis,
          mine: Tables, o: Result<HeadState, StoreError>)
      requires Verified(env, config.storeId, t) && Linked(t, name)
      requires CommitStep(env, config, t, GenesisRequest(env, name, g), mine, o)
      ensures Verified(env, config.storeId, mine) && Linked(mine, name) && Moved(t, mine)
      ensures name in t.heads ==> mine == t
    {
      hide Verified, Linked, GenesisRequest, CommitStep, Moved;
      CommitMoves(env, config, t, GenesisRequest(env, name, g), mine, o);
      InitializeLinked(env, name, config, t, g, mine, o);
      if name in t.heads {
        CommitFindsHead(env, config, t, name, g, mine, o);
      }
    }

    /** What the call answers, given the tables it ends with: those its commit left, or, when
        rivals came between COMMIT and readback, an extension of them. */
    static lemma {:induction false} EndsTruthful(env: Env, config: Config, t: Tables, name: Name, g: Genesis,
          mine: Tables, o: Result<HeadState, StoreError>, t': Tables)
      requires Verified(env, config.storeId, t) && Linked(t, name)
      requires CommitStep(env, config, t, GenesisRequest(env, name, g), mine, o)
      requires Verified(env, config.storeId, t') && Linked(t', name)
      requires o.Ok? || mine == t ==> t' == mine
      ensures InitializeEnds(env, t', name, g, o).Ended?
      ensures var result := InitializeEnds(env, t', name, g, o).outcome;
        && Truthful(env, t', name, g, result) && (result.Ok? ==> Installed(t'.events, name, result.value))
        && (name in t.heads ==> Answered(env, t, name, g, o, result))
      ensures name in t.heads && o.Ok? ==>
        o.value.recordId == env.recordIdOf(CheckpointContent(GenesisCheckpoint(env, g)))
      ensures name !in t.heads && o.Ok? ==> Begun(env, t', o.value, g)
    {
      hide Verified, Linked, GenesisRequest, GenesisCheckpoint, CommitStep, FirstIntent, Collides, ReconcileExisting,
        Installed, Begun;
      if name in t.heads {
        CommitFindsHead(env, config, t, name, g, mine, o);
        RacedAnswer(env, config, t, name, g, mine, o);
      } else {
        CommitFindsNone(env, config, t, name, g, mine, o);
        if o.Ok? { GenesisWritten(env, config, t, name, g, mine, o); }
      }
      if name in t'.heads {
        HeadInstalled(env, config.storeId, t', name);
        InitializeAgain(env, config.storeId, t', name, g.intent);
      }
    }

    static lemma {:induction false} GenesisRequestOk(env: Env, name: Name, g: Genesis)
      requires RivalOk(env, name, RivalInitialize(g))
      ensures var r := GenesisRequest(env, name, g);
        DraftOk(env, r.event)
    {
    }

    static lemma {:induction false} ChildRequestOk(env: Env, name: Name, head: HeadState, parent: Checkpoint,
          createdAt: Text, details: Canonical.Json)
      requires RivalOk(env, name, RivalCheckpoint(createdAt, details))
      ensures var r := ChildRequest(env, name, head, parent, createdAt, details);
        && DraftOk(env, r.event)
        && var child := Child(parent, head.recordId, head.auditEventId, createdAt);
        r.headUpdates == [HeadChange(name, Some(head), env.recordIdOf(CheckpointContent(child)))]
    {
    }

    /** The rivals act one after the other. */
    method Race(rivals: seq<Rival>)
      requires Valid() && RivalsOk(store.env, name, rivals)
      modifies store
      ensures Valid() && Moved(old(store.Snapshot()), store.Snapshot())
      ensures rivals == [] ==> store.Snapshot() == old(store.Snapshot())
    {
      hide Verified, Linked, CommitStep, DraftOk, RivalOk, RivalRequest, AfterAll, RivalRequests;
      var i := 0;
      while i < |rivals|
        invariant 0 <= i <= |rivals|
        invariant Valid() && Moved(old(store.Snapshot()), store.Snapshot())
        invariant i == 0 ==> store.Snapshot() == old(store.Snapshot())
      {
        ghost var before := store.Snapshot();
        var request := RivalRequest(store.env, name, store.Snapshot(), rivals[i]);
        if request.Some? {
          RivalDraftOk(store.env, name, before, rivals[i]);
          var o; ghost var mine;
          o, mine := Commit(request.value, NoFault, []);
          RivalKeeps(store.env, store.config, name, before, rivals[i], mine, o);
        }
        i := i + 1;
      }
    }

    /** Builds the child of the checkpoint that was read and commits it over that head. */
    method CommitChild(head: HeadState, parent: Checkpoint, createdAt: Text, details: Canonical.Json, fault: FaultPoint,
          late: seq<Rival>) returns (o: Result<HeadState, StoreError>)
      requires Valid() && RivalsOk(store.env, name, late) && RivalOk(store.env, name, RivalCheckpoint(createdAt, details))
      requires head.recordId in store.records && store.records[head.recordId] == CheckpointContent(parent)
      modifies store
      ensures Valid() && Moved(old(store.Snapshot()), store.Snapshot())
      ensures o.Ok? ==> Installed(store.events, name, o.value)
      ensures o.Ok? ==> IsChild(store.records, o.value.recordId, head)
      ensures o == Err(Conflict) ==> Get(old(store.heads), name) != Some(head) && store.Snapshot() == old(store.Snapshot())
      ensures o.Ok? ==>
        && WrittenBy(store.Snapshot(), o.value, createdAt, details)
        && (Created(store.Snapshot(), o.value.recordId, createdAt) || SharedId(store.env, store.Snapshot(), o.value.recordId))
      ensures var t := old(store.Snapshot());
        Get(t.heads, name) == Some(head) ==>
          && (o.Ok? <==> GoesThrough(store.env, store.config, name, t,
                                     AttemptInput(true, createdAt, details, [], fault, late)))
          && (o.Ok? ==>
                && Get(store.heads, name) == Some(o.value) && |store.events| == |t.events| + 1
                && Created(store.Snapshot(), o.value.recordId, createdAt))
    {
      hide Verified, Linked, Installed, DraftOk, ChildRequest, CommitStep, RivalsOk, AfterAll, RivalRequests, Undisturbed,
        GoesThrough, WrittenBy, Created, SharedId;
      ghost var before := store.Snapshot();
      ChildRequestOk(store.env, name, head, parent, createdAt, details);
      var r := ChildRequest(store.env, name, head, parent, createdAt, details);
      ghost var mine;
      o, mine := Commit(r, fault, late);
      ChildCommitted(store.env, store.config, before, name, head, parent, createdAt, details, mine, o);
      RivalsKeep(store.env, store.config, name, mine, late);
      if o.Ok? { ChildWritten(store.env, store.config, before, name, head, parent, createdAt, details, mine, o); }
      if Get(before.heads, name) == Some(head) {
        ghost var input := AttemptInput(true, createdAt, details, [], fault, late);
        ChildOverHead(store.env, store.config, before, name, parent, input, mine, o);
      }
    }

    /** The outcome of a child committed over the current head. */
    static lemma {:induction false} ChildOverHead(env: Env, config: Config, t: Tables, name: Name, parent: Checkpoint,
          input: AttemptInput, mine: Tables, o: Result<HeadState, StoreError>)
      requires Verified(env, config.storeId, t) && Linked(t, name) && name in t.heads
      requires t.heads[name].recordId in t.records && t.records[t.heads[name].recordId] == CheckpointContent(parent)
      requires var r := ChildRequest(env, name, t.heads[name], parent, input.createdAt, input.details);
        && CommitStep(env, config, t, r, mine, o)
        && (Attempt(env, config, t, r).Admitted? ==>
              && (o.Ok? <==> Undisturbed(env, config, name, After(env, config, t, r), input.fault, input.late))
              && (o.Ok? ==> mine == After(env, config, t, r)))
      ensures o.Ok? <==> GoesThrough(env, config, name, t, input)
      ensures o.Ok? ==>
        && Get(mine.heads, name) == Some(o.value) && |mine.events| == |t.events| + 1
        && Created(mine, o.value.recordId, input.createdAt)
    {
      hide Verified, Linked, Attempt, Normalize, ChildRequest, Committed, CommitReceipt, DraftOk, Undisturbed, Clashes,
        TrustedAnchorMatches, AfterRead;
      var r := ChildRequest(env, name, t.heads[name], parent, input.createdAt, input.details);
      HeadReady(env, config.storeId, t, name, 0);
      UncontendedCheckpoint(env, config, t, name, parent, input.createdAt, input.details);
      if o.Ok? {
        ChildUpdate(env, name, t.heads[name], parent, input.createdAt, input.details);
        CommittedHead(env, config, t, r, r.headUpdates[0]);
        ChildKept(env, config, t, name, t.heads[name], parent, input.createdAt, input.details);
        CommitAppends(env, config.storeId, t, Normalize(env, r).value, r.event);
      }
    }

    /** What the event and the record of a committed child hold. */
    static lemma {:induction false} ChildWritten(env: Env, config: Config, t: Tables, name: Name, head: HeadState,
          parent: Checkpoint, createdAt: Text, details: Canonical.Json, mine: Tables, o: Result<HeadState, StoreError>)
      requires Verified(env, config.storeId, t) && Linked(t, name)
      requires RivalOk(env, name, RivalCheckpoint(createdAt, details))
      requires head.recordId in t.records && t.records[head.recordId] == CheckpointContent(parent)
      requires CommitStep(env, config, t, ChildRequest(env, name, head, parent, createdAt, details), mine, o) && o.Ok?
      ensures WrittenBy(mine, o.value, createdAt, details)
      ensures Created(mine, o.value.recordId, createdAt) || SharedId(env, mine, o.value.recordId)
    {
      hide Verified, Linked, Attempt, Normalize, Committed, CommitReceipt, DraftOk, CommitStep;
      var r := ChildRequest(env, name, head, parent, createdAt, details);
      ChildUpdate(env, name, head, parent, createdAt, details);
      AnswerHolds(env, config, t, r, mine, o, r.headUpdates[0]);
      ChildStored(env, config, t, name, head, parent, createdAt, details, mine, o);
      var e := mine.events[o.value.auditSequence - 1].payload;
      assert r.records[0].recordId == o.value.recordId;
      NoElements(e.localValues);
      var content := CheckpointContent(Child(parent, head.recordId, head.auditEventId, createdAt));
      assert env.recordIdOf(content) == o.value.recordId;
    }

    static lemma {:induction false} NoElements<T>(s: seq<T>)
      ensures (forall x :: x !in s) ==> s == []
    {
      assert |s| > 0 ==> s[0] in s;
    }

    static lemma {:induction false} ChildKept(env: Env, config: Config, t: Tables, name: Name, head: HeadState,
          parent: Checkpoint, createdAt: Text, details: Canonical.Json)
      requires Attempt(env, config, t, ChildRequest(env, name, head, parent, createdAt, details)).Admitted?
      ensures var r := ChildRequest(env, name, head, parent, createdAt, details);
        Created(After(env, config, t, r), r.headUpdates[0].newRecordId, createdAt)
    {
      hide Attempt, Normalize, Committed;
      var r := ChildRequest(env, name, head, parent, createdAt, details);
      SuppliedKept(env, config, t, r, 0);
    }

    static lemma {:induction false} ChildUpdate(env: Env, name: Name, head: HeadState, parent: Checkpoint, createdAt: Text,
          details: Canonical.Json)
      ensures var r := ChildRequest(env, name, head, parent, createdAt, details);
        |r.headUpdates| == 1 && r.headUpdates == [r.headUpdates[0]] && r.headUpdates[0].name == name
    {
    }

    /** The head of a linked session can always be loaded. */
    static lemma {:induction false} HeadReady(env: Env, storeId: Text, t: Tables, name: Name, attempt: nat)
      requires Verified(env, storeId, t) && Linked(t, name) && name in t.heads
      ensures var head := t.heads[name];
        && head.recordId in t.records && t.records[head.recordId].CheckpointContent?
        && LoadCheckpoint(env, t, head.recordId) == Ok(Some(t.records[head.recordId].checkpoint))
        && AfterRead(env, t, name, attempt, true) == Ready(attempt, head, t.records[head.recordId].checkpoint)
    {
      hide Linked, LocalTableOk, ReplayLog, FirstIntent, ValidRecord;
      HeadKeepsIntent(env, storeId, t, name);
    }

    static lemma {:induction false} ChildCommitted(env: Env, config: Config, t: Tables, name: Name, head: HeadState,
          parent: Checkpoint, createdAt: Text, details: Canonical.Json, t': Tables,
          o: Result<HeadState, StoreError>)
      requires Verified(env, config.storeId, t) && Linked(t, name)
      requires RivalOk(env, name, RivalCheckpoint(createdAt, details))
      requires head.recordId in t.records && t.records[head.recordId] == CheckpointContent(parent)
      requires CommitStep(env, config, t, ChildRequest(env, name, head, parent, createdAt, details), t', o)
      ensures Verified(env, config.storeId, t') && Linked(t', name) && Moved(t, t')
      ensures o.Ok? ==> Installed(t'.events, name, o.value)
      ensures o.Ok? ==> IsChild(t'.records, o.value.recordId, head)
      ensures o == Err(Conflict) ==> Get(t.heads, name) != Some(head) && t' == t
    {
      hide Verified, Linked, Installed, DraftOk, ChildRequest, Moved, CommitStep;
      var r := ChildRequest(env, name, head, parent, createdAt, details);
      ChildRequestOk(env, name, head, parent, createdAt, details);
      CommitMoves(env, config, t, r, t', o);
      CheckpointLinked(env, name, config, t, head, parent, createdAt, details, t', o);
      if o.Ok? {
        ReceiptTruthful(env, config, t, r, t', o, r.headUpdates[0]);
        ChildStored(env, config, t, name, head, parent, createdAt, details, t', o);
      }
      if o == Err(Conflict) {
        ConflictOutcome(env, config, t, r, t');
        ConflictMeansMoved(env, config, t, r, r.headUpdates[0]);
      }
    }

    /** One attempt of `checkpoint`: nothing when a rival moved the head after it was read,
        otherwise the answer of the call. Alone, it goes through exactly when `GoesThrough` says.
        The head's record always loads in a linked session (`HeadReady`), so the answers for one
        that does not are left out. */
    method TryCheckpoint(input: AttemptInput) returns (answer: Option<Result<HeadState, SessionError>>)
      requires Valid() && AttemptOk(store.env, name, input)
      modifies store
      ensures Valid() && Moved(old(store.Snapshot()), store.Snapshot())
      ensures answer == Some(Err(Unavailable)) <==> name !in old(store.heads)
      ensures answer == Some(Err(TransitionRefused)) <==> name in old(store.heads) && !input.admitted
      ensures name !in old(store.heads) || !input.admitted ==> store.Snapshot() == old(store.Snapshot())
      ensures answer.None? ==> input.rivals != [] && |store.events| > |old(store.events)|
      ensures answer.Some? ==> answer.value != Err(HeadMoved) && answer.value != Err(AlreadyInitialized)
      ensures answer.Some? && answer.value.Ok? ==>
        && name in old(store.heads) && Installed(store.events, name, old(store.heads)[name])
        && Installed(store.events, name, answer.value.value)
        && IsChild(store.records, answer.value.value.recordId, old(store.heads)[name])
        && WrittenBy(store.Snapshot(), answer.value.value, input.createdAt, input.details)
        && (Created(store.Snapshot(), answer.value.value.recordId, input.createdAt)
            || SharedId(store.env, store.Snapshot(), answer.value.value.recordId))
      ensures name in old(store.heads) && input.admitted && input.rivals == [] ==>
        && answer.Some?
        && (answer.value.Ok? <==> GoesThrough(store.env, store.config, name, old(store.Snapshot()), input))
        && (answer.value.Ok? ==>
              && Get(store.heads, name) == Some(answer.value.value) && |store.events| == |old(store.events)| + 1
              && Created(store.Snapshot(), answer.value.value.recordId, input.createdAt))
    {
      hide Verified, Linked, Installed, DraftOk, Child, GoesThrough, AfterRead, LoadCheckpoint, WrittenBy, Created, SharedId,
        IsChild;
      ghost var read := store.Snapshot();
      if name !in store.heads { return Some(Err(Unavailable)); }
      var head := store.heads[name];
      HeadInstalled(store.env, store.config.storeId, read, name);
      HeadReady(store.env, store.config.storeId, read, name, 0);
      var loaded := LoadCheckpoint(store.env, store.Snapshot(), head.recordId);
      var parent := loaded.value.value;
      if !input.admitted { return Some(Err(TransitionRefused)); }
      Race(input.rivals);
      InstalledStays(read, store.Snapshot(), name, head);
      ghost var raced := store.Snapshot();
      var o := CommitChild(head, parent, input.createdAt, input.details, input.fault, input.late);
      InstalledStays(read, store.Snapshot(), name, head);
      SameInput(store.env, store.config, name, raced, input);
      match o {
        case Ok(installed) => answer := Some(Ok(installed));
        case Err(Conflict) =>
          assert raced != read;
          answer := None;
        case Err(e) => answer := Some(Err(StoreFailed(e)));
      }
    }

    /** What goes through does not depend on what the captures said or who came before. */
    static lemma {:induction false} SameInput(env: Env, config: Config, name: Name, t: Tables, input: AttemptInput)
      ensures GoesThrough(env, config, name, t, input) <==>
        GoesThrough(env, config, name, t, AttemptInput(true, input.createdAt, input.details, [], input.fault, input.late))
    {
      hide Undisturbed, Clashes, TrustedAnchorMatches, AfterRead;
    }

    /** `checkpoint`: up to three attempts, each reading the head anew. Without a head it is
        unavailable, a transition the captures do not admit is refused, and alone it succeeds
        exactly when `GoesThrough` says, with a child of the head it read as the new head. It
        reports that the head moved only after losing to a commit of somebody else on every
        attempt, so never when it is alone. */
    method Checkpoint(inputs: seq<AttemptInput>) returns (result: Result<HeadState, SessionError>)
      requires Valid() && |inputs| == CHECKPOINT_ATTEMPTS
      requires forall a :: 0 <= a < |inputs| ==> AttemptOk(store.env, name, inputs[a])
      modifies store
      ensures Valid() && Moved(old(store.Snapshot()), store.Snapshot())
      ensures result == Err(Unavailable) <==> name !in old(store.heads)
      ensures name in old(store.heads) && !inputs[0].admitted ==> result == Err(TransitionRefused)
      ensures name !in old(store.heads) || !inputs[0].admitted ==> store.Snapshot() == old(store.Snapshot())
      ensures result == Err(TransitionRefused) ==>
        exists a :: 0 <= a < |inputs| && !inputs[a].admitted && |store.events| >= |old(store.events)| + a
      ensures name in old(store.heads) && inputs[0].admitted && inputs[0].rivals == [] ==>
        && (result.Ok? <==> GoesThrough(store.env, store.config, name, old(store.Snapshot()), inputs[0]))
        && (result.Ok? ==>
              && IsChild(store.records, result.value.recordId, old(store.heads)[name])
              && Get(store.heads, name) == Some(result.value) && |store.events| == |old(store.events)| + 1
              && Created(store.Snapshot(), result.value.recordId, inputs[0].createdAt))
      ensures result.Ok? ==>
        && Installed(store.events, name, result.value)
        && (exists head: HeadState :: Installed(store.events, name, head) && IsChild(store.records, result.value.recordId, head))
        && exists a :: 0 <= a < |inputs|
             && WrittenBy(store.Snapshot(), result.value, inputs[a].createdAt, inputs[a].details)
             && (Created(store.Snapshot(), result.value.recordId, inputs[a].createdAt)
                 || SharedId(store.env, store.Snapshot(), result.value.recordId))
      ensures result == Err(HeadMoved) ==> |store.events| >= |old(store.events)| + CHECKPOINT_ATTEMPTS
      ensures (forall a :: 0 <= a < |inputs| ==> inputs[a].rivals == []) ==> result != Err(HeadMoved)
      ensures result != Err(AlreadyInitialized)
    {
      hide Verified, Linked, Installed, AttemptOk, GoesThrough, IsChild, WrittenBy, Created, SharedId;
      var attempt := 0;
      while attempt < CHECKPOINT_ATTEMPTS
        invariant 0 <= attempt <= CHECKPOINT_ATTEMPTS
        invariant Valid() && Moved(old(store.Snapshot()), store.Snapshot())
        invariant |store.events| >= |old(store.events)| + attempt
        invariant attempt == 0 ==> store.Snapshot() == old(store.Snapshot())
        invariant attempt > 0 ==> name in old(store.heads) && inputs[0].admitted && inputs[0].rivals != []
      {
        if name in old(store.heads) {
          HeadStays(store.env, store.config.storeId, old(store.Snapshot()), store.Snapshot(), name);
        }
        var answer := TryCheckpoint(inputs[attempt]);
        if answer.Some? { return answer.value; }
        attempt := attempt + 1;
      }
      result := Err(HeadMoved);
    }

    static lemma {:induction false} HeadStays(env: Env, storeId: Text, t: Tables, t': Tables, name: Name)
      requires Verified(env, storeId, t) && Verified(env, storeId, t') && t.events <= t'.events && name in t.heads
      ensures name in t'.heads
    {
      hide Verified, Changes;
      HeadsAreLastWritten(env, storeId, t, name);
      HeadsAreLastWritten(env, storeId, t', name);
      var i :| 0 <= i < |t.events| && Changes(t.events[i].payload.headUpdates.changes, name);
      assert t'.events[i] == t.events[i];
    }

    static lemma {:induction false} InstalledStays(t: Tables, t': Tables, name: Name, head: HeadState)
      requires Installed(t.events, name, head) && Grows(t, t')
      ensures Installed(t'.events, name, head)
    {
      hide Changes, NewRecordFor;
    }
  }
}
