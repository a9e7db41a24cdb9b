/** A commit that went through and is reported as a failure (store/sqlite.py, `commit_many`): two
    callers that share no head, record or value, and the readback of the first. */
module Overtaken {
  import opened Orders
  import opened Utf8
  import opened Store
  import opened StoreLaws
  import opened StoreRuns
  import opened SqliteStore
  import Canonical
  import LogicalTime

  // ----- two records the store accepts -----

  // the types A and B, the version v1 and the object {}
  const FIRST := OtherContent([65], [118, 49], [123, 125])
  const SECOND := OtherContent([66], [118, 49], [123, 125])

  lemma {:induction false} EmptyObject(nfc: Text -> Text)
    ensures Canonical.CanonicalLoads(nfc, [123, 125]) == Ok(Canonical.Obj([]))
    ensures Canonical.CanonicalBytes(nfc, Canonical.Obj([])).Ok?
  {
    var text: Text := [123, 125];
    assert Encode(text) == [123, 125];
    DecodeEncode(text);
    assert text[1..] == [125] && text[2..] == [];
    assert Canonical.ParseValue(text) == Ok((Canonical.Obj([]), []));
  }

  lemma {:induction false} RecordsValid(env: Env)
    ensures ValidRecord(env, env.recordIdOf(FIRST), FIRST) && ValidRecord(env, env.recordIdOf(SECOND), SECOND)
  {
    hide Canonical.CanonicalLoads, Canonical.CanonicalBytes;
    EmptyObject(env.nfc);
  }

  // ----- two requests that share nothing -----

  function NoAnchor(storeId: Text): Config {
    Config(storeId, None, false)
  }

  function DraftFor(env: Env, content: Content): EventDraft {
    EventDraft([97], env.recordIdOf(content), LogicalTime.NEW_YEAR, Canonical.Obj([]))
  }

  /** A request that stores one record and makes it the head of this name. */
  function StoreOne(env: Env, content: Content, name: Name): Request {
    var id := env.recordIdOf(content);
    Request([StoredRecord(id, content)], [], DraftFor(env, content), [HeadChange(name, None, id)])
  }

  function PlanOne(env: Env, content: Content, name: Name): Plan {
    var id := env.recordIdOf(content);
    Plan(map[id := content], map[], map[name := HeadChange(name, None, id)])
  }

  /** The store after the first request alone. */
  function AfterFirst(env: Env, storeId: Text, a: Name): Tables {
    Committed(env, storeId, Empty(storeId), PlanOne(env, FIRST, a), DraftFor(env, FIRST))
  }

  /** The hash tells the two records and the two events apart. */
  predicate TellsApart(env: Env, storeId: Text, a: Name, b: Name) {
    && env.recordIdOf(FIRST) != env.recordIdOf(SECOND)
    && env.eventIdOf(BuildPayload(storeId, Empty(storeId), PlanOne(env, FIRST, a), DraftFor(env, FIRST))) !=
       env.eventIdOf(BuildPayload(storeId, AfterFirst(env, storeId, a), PlanOne(env, SECOND, b), DraftFor(env, SECOND)))
  }

  lemma {:induction false} DraftsOk(env: Env, content: Content, name: Name)
    ensures DraftOk(env, StoreOne(env, content, name).event)
  {
    hide LogicalTime.Validate;
    LogicalTime.NewYearValid();
  }

  lemma {:induction false} Planned(env: Env, content: Content, name: Name)
    requires ValidRecord(env, env.recordIdOf(content), content)
    ensures Normalize(env, StoreOne(env, content, name)) == Ok(PlanOne(env, content, name))
  {
    hide ValidRecord;
    var r := StoreOne(env, content, name);
    assert r.records[..0] == [] && r.headUpdates[..0] == [];
    assert NormalizeRecords(env, r.records[..0]) == Ok(map[]);
    assert ChangesByName(r.headUpdates[..0]) == Ok(map[]);
  }

  /** The request for an unused head and a new record, with an unused event identifier. */
  lemma {:induction false} OneAdmitted(env: Env, storeId: Text, t: Tables, content: Content, name: Name)
    requires Verified(env, storeId, t) && ValidRecord(env, env.recordIdOf(content), content)
    requires name !in t.heads && env.recordIdOf(content) !in t.records
    requires !EventIdTaken(env, storeId, t, PlanOne(env, content, name), DraftFor(env, content))
    requires forall i :: 0 <= i < |t.events| ==> t.events[i].payload.subjectId != env.recordIdOf(content)
    ensures Decide(env, NoAnchor(storeId), t, PlanOne(env, content, name), DraftFor(env, content)) == Admitted
    ensures Attempt(env, NoAnchor(storeId), t, StoreOne(env, content, name)) == Admitted
    ensures PlanOk(env, PlanOne(env, content, name))
  {
    hide Verified, ExistingRetryReceipt, EventIdTaken, ListChanges, ListLocals, SortSet, ValidRecord, Normalize;
    Planned(env, content, name);
    NoMatch(t.events, t.heads, TransactionSignature(storeId, PlanOne(env, content, name), DraftFor(env, content)));
  }

  /** The first request is admitted to the empty store. */
  lemma {:induction false} MineAdmitted(env: Env, storeId: Text, a: Name)
    ensures Attempt(env, NoAnchor(storeId), Empty(storeId), StoreOne(env, FIRST, a)) == Admitted
    ensures PlanOk(env, PlanOne(env, FIRST, a))
    ensures Decide(env, NoAnchor(storeId), Empty(storeId), PlanOne(env, FIRST, a), DraftFor(env, FIRST)) == Admitted
  {
    hide Verified, ValidRecord, Attempt, Decide, PlanOk, BuildPayload, PlanOne, DraftFor;
    RecordsValid(env);
    EmptyVerified(env, storeId);
    OneAdmitted(env, storeId, Empty(storeId), FIRST, a);
  }

  /** The store after the first request: its record, its head, and its event. */
  lemma {:induction false} OneEvent(env: Env, storeId: Text, a: Name, id: Id, name: Name)
    requires id != env.recordIdOf(FIRST) && name != a
    ensures var t := AfterFirst(env, storeId, a);
      && Verified(env, storeId, t) && id !in t.records && name !in t.heads
      && |t.events| == 1
      && Get(t.heads, a) == Some(HeadState(env.recordIdOf(FIRST), t.events[0].eventId, 1))
      && t.events[0].eventId ==
           env.eventIdOf(BuildPayload(storeId, Empty(storeId), PlanOne(env, FIRST, a), DraftFor(env, FIRST)))
      && t.events[0].payload.subjectId == env.recordIdOf(FIRST)
  {
    hide Verified, Attempt, Decide, PlanOk, DraftOk, TransactionSignature, MoveHeads, ListChanges, ListLocals, SortSet,
      EventSignature;
    MineAdmitted(env, storeId, a);
    DraftsOk(env, FIRST, a);
    CommitKeepsVerified(env, NoAnchor(storeId), Empty(storeId), PlanOne(env, FIRST, a), DraftFor(env, FIRST));
    CommitEffect(env, NoAnchor(storeId), Empty(storeId), PlanOne(env, FIRST, a), DraftFor(env, FIRST), id, a);
    CommitEffect(env, NoAnchor(storeId), Empty(storeId), PlanOne(env, FIRST, a), DraftFor(env, FIRST), id, name);
  }

  /** And the second to the store the first leaves. */
  lemma {:induction false} TheirsAdmitted(env: Env, storeId: Text, a: Name, b: Name)
    requires a != b && TellsApart(env, storeId, a, b)
    ensures Attempt(env, NoAnchor(storeId), AfterFirst(env, storeId, a), StoreOne(env, SECOND, b)) == Admitted
    ensures PlanOk(env, PlanOne(env, SECOND, b))
    ensures Decide(env, NoAnchor(storeId), AfterFirst(env, storeId, a), PlanOne(env, SECOND, b), DraftFor(env, SECOND))
      == Admitted
  {
    hide Verified, Attempt, Decide, ValidRecord, PlanOk, BuildPayload, AfterFirst, PlanOne, DraftFor;
    RecordsValid(env);
    OneEvent(env, storeId, a, env.recordIdOf(SECOND), b);
    OneAdmitted(env, storeId, AfterFirst(env, storeId, a), SECOND, b);
  }

  lemma {:induction false} BothIn(env: Env, storeId: Text, a: Name, b: Name)
    requires a != b && TellsApart(env, storeId, a, b)
    ensures var mine := AfterFirst(env, storeId, a);
      var both := AfterAll(env, NoAnchor(storeId), mine, [StoreOne(env, SECOND, b)]);
      && |mine.events| == 1 && |both.events| == 2 && mine.events <= both.events
      && Get(both.heads, a) == Some(HeadState(env.recordIdOf(FIRST), mine.events[0].eventId, 1))
  {
    hide Attempt, Decide, ValidRecord, Normalize, Verified, PlanOk, Committed, EventSignature, TransactionSignature, AfterFirst,
      BuildPayload;
    var mine := AfterFirst(env, storeId, a);
    var theirs := StoreOne(env, SECOND, b);
    RecordsValid(env);
    Planned(env, SECOND, b);
    OneEvent(env, storeId, a, env.recordIdOf(SECOND), b);
    TheirsAdmitted(env, storeId, a, b);
    AfterNone(env, NoAnchor(storeId), mine, [theirs]);
    AfterNext(env, NoAnchor(storeId), mine, [theirs], 0);
    assert [theirs][..1] == [theirs];
    CommitEffect(env, NoAnchor(storeId), mine, PlanOne(env, SECOND, b), DraftFor(env, SECOND), 0, a);
  }

  /** Nothing connects the two transactions, both go through, and yet the first caller is told
      that the store is damaged: its event is in the log and its head in place when `commit_many`
      reports an integrity failure. So it is under every hash that tells the two records and the
      two events apart. */
  method CommitOvertaken(env: Env, storeId: Text, a: Name, b: Name)
    returns (store: SQLiteStateStore, result: Result<Receipt, StoreError>)
    requires a != b && TellsApart(env, storeId, a, b)
    ensures result == Err(Integrity)
    ensures Verified(env, storeId, store.Snapshot()) && |store.events| == 2
    ensures AfterFirst(env, storeId, a).events == [store.events[0]]
    ensures Get(store.heads, a) == Some(HeadState(env.recordIdOf(FIRST), store.events[0].eventId, 1))
  {
    hide Verified, Normalize, Attempt, AfterAll, Committed, DraftOk, ValidRecord, TellsApart, NoneAdmitted, BuildPayload,
      CommitReceipt, Decide, PlanOk;
    store := new SQLiteStateStore(env, NoAnchor(storeId));
    DraftsOk(env, FIRST, a);
    DraftsOk(env, SECOND, b);
    RecordsValid(env);
    Planned(env, FIRST, a);
    MineAdmitted(env, storeId, a);
    BothIn(env, storeId, a, b);
    result := store.CommitMany(StoreOne(env, FIRST, a), NoFault, [StoreOne(env, SECOND, b)]);
  }

  /** There is such a hash for every store and every two heads. */
  lemma {:induction false} CanTellApart(storeId: Text, a: Name, b: Name) returns (env: Env)
    ensures TellsApart(env, storeId, a, b)
  {
    hide ListChanges, ListLocals, SortSet, MoveHeads;
    env := Env((c: Content) => if c == FIRST then 1 else 2, (p: EventPayload) => p.sequence, (d: Bytes) => 0, (s: Text) => s);
    CommitAppends(env, storeId, Empty(storeId), PlanOne(env, FIRST, a), DraftFor(env, FIRST));
  }
}
