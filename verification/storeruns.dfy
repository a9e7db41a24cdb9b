/** The audited store over whole runs: what a verified log determines, submitting a request
    again, and anchors. */
module StoreRuns {
  import opened Orders
  import opened Utf8
  import opened Store
  import opened StoreLaws

  // ----- runs -----

  /** One transaction by some connection: it goes through, or it leaves the tables alone. */
  ghost predicate Step(env: Env, storeId: Text, t: Tables, t': Tables) {
    || t' == t
    || exists config: Config, r: Request ::
         config.storeId == storeId && DraftOk(env, r.event) && Commits(env, config, t, r, t')
  }

  ghost predicate Commits(env: Env, config: Config, t: Tables, r: Request, t': Tables) {
    var n := Normalize(env, r);
    n.Ok? && Decide(env, config, t, n.value, r.event) == Admitted
    && t' == Committed(env, config.storeId, t, n.value, r.event)
  }

  ghost predicate Run(env: Env, storeId: Text, states: seq<Tables>) {
    states != [] && forall i :: 0 <= i < |states| - 1 ==> Step(env, storeId, states[i], states[i + 1])
  }

  /** A store with no history. */
  function Empty(storeId: Text): Tables {
    Tables(map[], map[], [], map[], Metadata(storeId))
  }

  lemma {:induction false} EmptyVerified(env: Env, storeId: Text)
    ensures Verified(env, storeId, Empty(storeId))
  {
  }

  lemma {:induction false} StepKeeps(env: Env, storeId: Text, t: Tables, t': Tables)
    requires Verified(env, storeId, t) && Step(env, storeId, t, t')
    ensures Verified(env, storeId, t') && t.events <= t'.events
  {
    hide Verified, Committed, Decide, Normalize, DraftOk, PlanOk;
    if t' != t {
      var config: Config, r: Request :|
        config.storeId == storeId && DraftOk(env, r.event) && Commits(env, config, t, r, t');
      NormalizeOk(env, r);
      CommitKeepsVerified(env, config, t, Normalize(env, r).value, r.event);
      CommitAppends(env, storeId, t, Normalize(env, r).value, r.event);
    }
  }

  /** Every state of a run that starts from verified tables is verified, and the log of a later
      state extends the log of an earlier one. */
  lemma {:induction false} RunKeeps(env: Env, storeId: Text, states: seq<Tables>, i: nat, j: nat)
    requires Run(env, storeId, states) && Verified(env, storeId, states[0])
    requires i <= j < |states|
    ensures Verified(env, storeId, states[j]) && states[i].events <= states[j].events
    decreases j
  {
    hide Verified, Step;
    if j > 0 {
      RunKeeps(env, storeId, states, if i < j then i else 0, j - 1);
      assert Step(env, storeId, states[j - 1], states[j - 1 + 1]);
      StepKeeps(env, storeId, states[j - 1], states[j]);
    }
  }

  // ----- what a verified log determines -----

  lemma {:induction false} InsertedOnce(env: Env, storeId: Text, localRows: set<LocalId>, rows: seq<EventRow>, i: nat)
    requires ReplayLog(env, storeId, localRows, rows).Some? && i < |rows|
    ensures Elems(rows[i].payload.insertedRecordIds) <= ReplayLog(env, storeId, localRows, rows).value.inserted
    ensures Elems(rows[i].payload.insertedRecordIds) !!
      (ReplayPrefix(env, storeId, localRows, rows, i); ReplayLog(env, storeId, localRows, rows[..i]).value.inserted)
  {
    hide PayloadOk, LocalsOk, HeadsOk, MoveHeads;
    var n := |rows| - 1;
    ReplayPrefix(env, storeId, localRows, rows, i);
    ReplayPrefix(env, storeId, localRows, rows, n);
    assert rows[..n + 1] == rows;
    if i < n {
      InsertedOnce(env, storeId, localRows, rows[..n], i);
    }
  }

  lemma {:induction false} InsertedBy(env: Env, storeId: Text, localRows: set<LocalId>, rows: seq<EventRow>,
        id: Id) returns (i: nat)
    requires ReplayLog(env, storeId, localRows, rows).Some?
    requires id in ReplayLog(env, storeId, localRows, rows).value.inserted
    ensures i < |rows| && id in rows[i].payload.insertedRecordIds
  {
    hide PayloadOk, LocalsOk, HeadsOk, MoveHeads;
    var n := |rows| - 1;
    ReplayPrefix(env, storeId, localRows, rows, n);
    assert rows[..n + 1] == rows;
    if id in rows[n].payload.insertedRecordIds {
      i := n;
    } else {
      i := InsertedBy(env, storeId, localRows, rows[..n], id);
    }
  }

  /** The record table is the disjoint union of what the events say they inserted. */
  lemma {:induction false} RecordsPartitioned(env: Env, storeId: Text, t: Tables)
    requires Verified(env, storeId, t)
    ensures forall i, j :: 0 <= i < j < |t.events| ==>
      Elems(t.events[i].payload.insertedRecordIds) !! Elems(t.events[j].payload.insertedRecordIds)
    ensures forall id :: id in t.records <==>
      exists i :: 0 <= i < |t.events| && id in t.events[i].payload.insertedRecordIds
  {
    hide ReplayLog, RecordTableOk, LocalTableOk;
    var rows := t.events;
    var keys := t.locals.Keys;
    forall i, j | 0 <= i < j < |rows|
      ensures Elems(rows[i].payload.insertedRecordIds) !! Elems(rows[j].payload.insertedRecordIds)
    {
      InsertedOnce(env, storeId, keys, rows, j);
      ReplayPrefix(env, storeId, keys, rows, j);
      InsertedOnce(env, storeId, keys, rows[..j], i);
    }
    forall id
      ensures id in t.records <==> exists i :: 0 <= i < |rows| && id in rows[i].payload.insertedRecordIds
    {
      if id in t.records {
        var i := InsertedBy(env, storeId, keys, rows, id);
      }
      if i :| 0 <= i < |rows| && id in rows[i].payload.insertedRecordIds {
        InsertedOnce(env, storeId, keys, rows, i);
        assert id in Elems(rows[i].payload.insertedRecordIds);
      }
    }
  }

  lemma {:induction false} LocalsReplayed(env: Env, storeId: Text, localRows: set<LocalId>, rows: seq<EventRow>)
    requires ReplayLog(env, storeId, localRows, rows).Some?
    ensures ReplayLog(env, storeId, localRows, rows).value.locals ==
      if rows == [] then {} else Elems(rows[0].payload.localValues)
    ensures forall i :: 0 < i < |rows| ==> rows[i].payload.localValues == []
  {
    hide RowOk, Advance;
    if rows != [] {
      var n := |rows| - 1;
      ReplayPrefix(env, storeId, localRows, rows, n);
      assert rows[..n + 1] == rows;
      LocalsReplayed(env, storeId, localRows, rows[..n]);
      LocalsAdvance(env, storeId, localRows, ReplayLog(env, storeId, localRows, rows[..n]).value, rows[n], n + 1);
      forall i | 0 < i < |rows| ensures rows[i].payload.localValues == [] {
        if i < n { assert rows[..n][i] == rows[i]; }
      }
    }
  }

  lemma {:induction false} LocalsAdvance(env: Env, storeId: Text, localRows: set<LocalId>, st: Replay, row: EventRow,
        n: int)
    requires RowOk(env, storeId, localRows, st, row, n)
    ensures Advance(st, row).locals == st.locals + Elems(row.payload.localValues)
    ensures n != 1 ==> row.payload.localValues == []
  {
    hide RecordsOk, HeadsOk, MoveHeads;
  }

  /** Local values come from the first event only. */
  lemma {:induction false} LocalsFromGenesis(env: Env, storeId: Text, t: Tables)
    requires Verified(env, storeId, t)
    ensures t.locals.Keys == if t.events == [] then {} else Elems(t.events[0].payload.localValues)
    ensures forall i :: 0 < i < |t.events| ==> t.events[i].payload.localValues == []
  {
    hide ReplayLog, RecordTableOk, LocalTableOk;
    LocalsReplayed(env, storeId, t.locals.Keys, t.events);
  }

  ghost predicate LastWriter(rows: seq<EventRow>, name: Name, i: int) {
    && 0 <= i < |rows| && Changes(rows[i].payload.headUpdates.changes, name)
    && forall j :: i < j < |rows| ==> !Changes(rows[j].payload.headUpdates.changes, name)
  }

  lemma {:induction false} HeadsReplayed(env: Env, storeId: Text, localRows: set<LocalId>, rows: seq<EventRow>,
        name: Name)
    requires ReplayLog(env, storeId, localRows, rows).Some?
    ensures var head := Get(ReplayLog(env, storeId, localRows, rows).value.heads, name);
      || (head.None? && forall i :: 0 <= i < |rows| ==> !Changes(rows[i].payload.headUpdates.changes, name))
      || (head.Some? && LastWriter(rows, name, head.value.auditSequence - 1)
          && head.value.auditEventId == rows[head.value.auditSequence - 1].eventId
          && head.value.recordId == NewRecordFor(rows[head.value.auditSequence - 1].payload.headUpdates.changes, name))
  {
    hide RowOk, Advance, Changes, NewRecordFor;
    if rows != [] {
      var n := |rows| - 1;
      ReplayPrefix(env, storeId, localRows, rows, n);
      assert rows[..n + 1] == rows;
      HeadsReplayed(env, storeId, localRows, rows[..n], name);
      AdvanceHeads(env, storeId, localRows, ReplayLog(env, storeId, localRows, rows[..n]).value, rows[n], n + 1, name);
    }
  }

  /** Each head is what the last event to move it installed. */
  lemma {:induction false} HeadsAreLastWritten(env: Env, storeId: Text, t: Tables, name: Name)
    requires Verified(env, storeId, t)
    ensures name in t.heads <==>
      exists i :: 0 <= i < |t.events| && Changes(t.events[i].payload.headUpdates.changes, name)
    ensures name in t.heads ==>
      && LastWriter(t.events, name, t.heads[name].auditSequence - 1)
      && t.heads[name].auditEventId == t.events[t.heads[name].auditSequence - 1].eventId
      && t.heads[name].recordId ==
           NewRecordFor(t.events[t.heads[name].auditSequence - 1].payload.headUpdates.changes, name)
  {
    hide ReplayLog, RecordTableOk, LocalTableOk, Changes, NewRecordFor;
    HeadsReplayed(env, storeId, t.locals.Keys, t.events, name);
  }

  // ----- submitting a request again -----

  lemma {:induction false} OnlyMatch(rows: seq<EventRow>, heads: map<Name, HeadState>, signature: Signature, i: nat)
    requires i < |rows| && EventSignature(rows[i].payload) == signature
    requires forall j :: 0 <= j < |rows| && j != i ==> EventSignature(rows[j].payload) != signature
    ensures ExistingRetryReceipt(rows, heads, signature) ==
      if HeadsStillAt(heads, signature.changes, rows[i])
      then Some(Receipt(ReceiptHeads(signature.changes, rows[i].eventId, rows[i].sequence), rows[i].payload.insertedRecordIds))
      else None
  {
    hide EventSignature, HeadsStillAt, ReceiptHeads;
    var n := |rows| - 1;
    if i < n {
      OnlyMatch(rows[..n], heads, signature, i);
    } else {
      NoMatch(rows[..n], heads, signature);
    }
  }

  lemma {:induction false} NoMatch(rows: seq<EventRow>, heads: map<Name, HeadState>, signature: Signature)
    requires forall j :: 0 <= j < |rows| ==> EventSignature(rows[j].payload) != signature
    ensures ExistingRetryReceipt(rows, heads, signature).None?
  {
    hide EventSignature, HeadsStillAt;
    if rows != [] {
      NoMatch(rows[..|rows| - 1], heads, signature);
    }
  }

  lemma {:induction false} StaleHeads(env: Env, storeId: Text, t: Tables, i: nat, p: Plan)
    requires Verified(env, storeId, t) && i < |t.events| && PlanOk(env, p)
    requires t.events[i].payload.headUpdates.changes == ListChanges(p.changes)
    ensures !HeadsExpected(t.heads, p.changes)
  {
    hide ReplayLog, RecordTableOk, LocalTableOk, ListChanges, ValidRecord;
    var cs := ListChanges(p.changes);
    ListChangesFacts(p.changes);
    HasChange(env, storeId, t.locals.Keys, t.events, i);
    var name := cs[0].name;
    ExpectedEarlier(env, storeId, t.locals.Keys, t.events, i, 0);
    assert Changes(cs, name);
    HeadsRise(env, storeId, t.locals.Keys, t.events, i, name);
    assert p.changes[name] == cs[0];
  }

  /** A request whose event is in the log: while its heads are where that event put them, the
      original receipt comes back; once one has moved, the request is refused. */
  lemma {:induction false} Resubmitted(env: Env, config: Config, t: Tables, i: nat, p: Plan, d: EventDraft)
    requires Verified(env, config.storeId, t) && TrustedAnchorMatches(config, t)
    requires PlanOk(env, p) && i < |t.events|
    requires EventSignature(t.events[i].payload) == TransactionSignature(config.storeId, p, d)
    ensures var row := t.events[i]; var cs := ListChanges(p.changes);
      if HeadsStillAt(t.heads, cs, row)
      then Decide(env, config, t, p, d) == Retried(Receipt(ReceiptHeads(cs, row.eventId, i + 1), row.payload.insertedRecordIds))
      else Decide(env, config, t, p, d).Refused?
  {
    hide Verified, HeadsExpected, Contradicts, HeadsStillAt, ExistingRetryReceipt, BuildPayload, PlanOk, ListChanges,
      ReceiptHeads;
    var sig := TransactionSignature(config.storeId, p, d);
    LogReplays(env, config.storeId, t);
    forall j | 0 <= j < |t.events| && j != i ensures EventSignature(t.events[j].payload) != sig {
      if j < i { SignaturesDiffer(env, config.storeId, t.locals.Keys, t.events, j, i); }
      else { SignaturesDiffer(env, config.storeId, t.locals.Keys, t.events, i, j); }
    }
    OnlyMatch(t.events, t.heads, sig, i);
    HasChange(env, config.storeId, t.locals.Keys, t.events, i);
    StaleHeads(env, config.storeId, t, i, p);
  }

  lemma {:induction false} LogReplays(env: Env, storeId: Text, t: Tables)
    requires Verified(env, storeId, t)
    ensures ReplayLog(env, storeId, t.locals.Keys, t.events).Some?
  {
    hide ReplayLog, RecordTableOk, LocalTableOk;
  }

  lemma {:induction false} OwnSignature(storeId: Text, t: Tables, p: Plan, d: EventDraft)
    ensures EventSignature(BuildPayload(storeId, t, p, d)) == TransactionSignature(storeId, p, d)
  {
    hide ListChanges, ListLocals, SortSet;
  }

  /** Once a head has moved on from what event k installed, it never comes back: its sequence
      stays above that event's in every extension of the log. */
  lemma {:induction false} HeadNeverReturns(env: Env, storeId: Text, t: Tables, t': Tables, k: nat, name: Name)
    requires Verified(env, storeId, t) && Verified(env, storeId, t') && t.events <= t'.events
    requires k < |t.events| && Changes(t.events[k].payload.headUpdates.changes, name)
    requires Get(t.heads, name) !=
      Some(HeadState(NewRecordFor(t.events[k].payload.headUpdates.changes, name), t.events[k].eventId, k + 1))
    ensures name in t'.heads && t'.heads[name].auditSequence > k + 1
  {
    hide Verified, ReplayLog, Changes, NewRecordFor;
    HeadsAreLastWritten(env, storeId, t, name);
    LogReplays(env, storeId, t');
    VerifiedReplay(env, storeId, t');
    HeadsRise(env, storeId, t'.locals.Keys, t'.events, t.heads[name].auditSequence - 1, name);
  }

  /** A request whose heads have moved stays so: at no later state are they still where its
      event put them. */
  lemma {:induction false} MovedForEver(env: Env, storeId: Text, t: Tables, t': Tables, k: nat)
    requires Verified(env, storeId, t) && Verified(env, storeId, t') && t.events <= t'.events && k < |t.events|
    requires !HeadsStillAt(t.heads, t.events[k].payload.headUpdates.changes, t.events[k])
    ensures !HeadsStillAt(t'.heads, t.events[k].payload.headUpdates.changes, t.events[k])
  {
    hide Verified, ReplayLog, Changes, NewRecordFor;
    var row := t.events[k];
    var cs := row.payload.headUpdates.changes;
    LogReplays(env, storeId, t);
    HasChange(env, storeId, t.locals.Keys, t.events, k);
    var c :| 0 <= c < |cs| && Get(t.heads, cs[c].name) != Some(HeadState(cs[c].newRecordId, row.eventId, row.sequence));
    NewRecordAt(cs, c);
    HeadNeverReturns(env, storeId, t, t', k, cs[c].name);
  }

  /** Exact retry over runs: after an admitted transaction and any further run, the same
      request gets the original receipt exactly while all its heads are still its own; once one
      has moved, at state i, it is refused at that state and at every later one. */
  lemma {:induction false} RetryLaw(env: Env, config: Config, t: Tables, r: Request, states: seq<Tables>, i: nat,
        j: nat, later: Config)
    requires Verified(env, config.storeId, t) && DraftOk(env, r.event)
    requires Normalize(env, r).Ok? && Decide(env, config, t, Normalize(env, r).value, r.event) == Admitted
    requires Run(env, config.storeId, states) && i <= j < |states|
    requires states[0] == Committed(env, config.storeId, t, Normalize(env, r).value, r.event)
    requires later.storeId == config.storeId && TrustedAnchorMatches(later, states[j])
    ensures var p := Normalize(env, r).value; var now := states[j];
      && |states[0].events| == |t.events| + 1 <= |now.events|
      && var row := states[0].events[|t.events|];
      && (HeadsStillAt(now.heads, ListChanges(p.changes), row) ==>
            Decide(env, later, now, p, r.event) == Retried(CommitReceipt(env, config.storeId, t, p, r.event)))
      && (!HeadsStillAt(now.heads, ListChanges(p.changes), row) ==> Decide(env, later, now, p, r.event).Refused?)
      && (!HeadsStillAt(states[i].heads, ListChanges(p.changes), row) ==>
            !HeadsStillAt(now.heads, ListChanges(p.changes), row))
  {
    hide Verified, Decide, Normalize, HeadsStillAt, ListChanges, DraftOk, PlanOk, Step, TrustedAnchorMatches, MoveHeads,
      TransactionSignature, EventSignature, NewIds, ListLocals, SortSet;
    var p := Normalize(env, r).value;
    NormalizeOk(env, r);
    CommitKeepsVerified(env, config, t, p, r.event);
    RunKeeps(env, config.storeId, states, 0, i);
    RunKeeps(env, config.storeId, states, 0, j);
    RunKeeps(env, config.storeId, states, i, j);
    OwnSignature(config.storeId, t, p, r.event);
    assert states[0].events[|t.events|] == states[i].events[|t.events|] == states[j].events[|t.events|];
    Resubmitted(env, later, states[j], |t.events|, p, r.event);
    if !HeadsStillAt(states[i].heads, ListChanges(p.changes), states[0].events[|t.events|]) {
      MovedForEver(env, config.storeId, states[i], states[j], |t.events|);
    }
  }

  // ----- anchors -----

  /** An anchor taken of verified tables matches after every run from there. */
  lemma {:induction false} AnchorPermanent(env: Env, storeId: Text, states: seq<Tables>)
    requires Run(env, storeId, states) && Verified(env, storeId, states[0]) && states[0].events != []
    ensures var rows := states[0].events;
      AnchorMatches(storeId, states[|states| - 1], Anchor(storeId, |rows|, rows[|rows| - 1].eventId))
  {
    hide Verified, Step;
    RunKeeps(env, storeId, states, 0, |states| - 1);
  }

  /** Two different payloads with one event identifier. */
  ghost predicate Collision(env: Env, a: seq<EventRow>, b: seq<EventRow>) {
    exists i, j :: 0 <= i < |a| && 0 <= j < |b|
      && a[i].payload != b[j].payload && env.eventIdOf(a[i].payload) == env.eventIdOf(b[j].payload)
  }

  lemma {:induction false} RowLinked(env: Env, storeId: Text, localRows: set<LocalId>, rows: seq<EventRow>, k: nat)
    requires ReplayLog(env, storeId, localRows, rows).Some? && k < |rows|
    ensures rows[k].sequence == k + 1 && rows[k].decodes && env.eventIdOf(rows[k].payload) == rows[k].eventId
    ensures rows[k].payload.previousEventId == rows[k].previousEventId
    ensures rows[k].previousEventId == if k == 0 then None else Some(rows[k - 1].eventId)
  {
    hide RecordsOk, LocalsOk, HeadsOk, Advance;
    ReplayPrefix(env, storeId, localRows, rows, k);
    ReplayEnd(env, storeId, localRows, rows[..k]);
  }

  lemma {:induction false} PrefixBound(env: Env, storeId: Text, l1: set<LocalId>, l2: set<LocalId>, a: seq<EventRow>,
        b: seq<EventRow>, n: nat)
    requires ReplayLog(env, storeId, l1, a).Some? && ReplayLog(env, storeId, l2, b).Some?
    requires n <= |a| && n <= |b| && (n > 0 ==> a[n - 1].eventId == b[n - 1].eventId)
    ensures a[..n] == b[..n] || Collision(env, a, b)
  {
    hide ReplayLog;
    if n > 0 {
      var k := n - 1;
      RowLinked(env, storeId, l1, a, k);
      RowLinked(env, storeId, l2, b, k);
      if a[k].payload == b[k].payload {
        PrefixBound(env, storeId, l1, l2, a, b, k);
        assert a[..n] == a[..k] + [a[k]] && b[..n] == b[..k] + [b[k]];
      }
    }
  }

  lemma {:induction false} SameHeads(env: Env, storeId: Text, l1: set<LocalId>, l2: set<LocalId>, rows: seq<EventRow>)
    requires ReplayLog(env, storeId, l1, rows).Some? && ReplayLog(env, storeId, l2, rows).Some?
    ensures ReplayLog(env, storeId, l1, rows) == ReplayLog(env, storeId, l2, rows)
  {
    hide RowOk;
    if rows != [] {
      SameHeads(env, storeId, l1, l2, rows[..|rows| - 1]);
    }
  }

  /** Two verified states of one store that both match an anchor agree on the events up to it
      and on everything replayed from them, unless they exhibit a hash collision. */
  lemma {:induction false} AnchorBinds(env: Env, storeId: Text, t: Tables, u: Tables, anchor: Anchor)
    requires Verified(env, storeId, t) && Verified(env, storeId, u)
    requires AnchorMatches(storeId, t, anchor) && AnchorMatches(storeId, u, anchor)
    ensures
      || Collision(env, t.events, u.events)
      || (var n := anchor.auditSequence;
          && t.events[..n] == u.events[..n]
          && ReplayLog(env, storeId, t.locals.Keys, t.events[..n]).Some?
          && ReplayLog(env, storeId, t.locals.Keys, t.events[..n]) == ReplayLog(env, storeId, u.locals.Keys, u.events[..n]))
  {
    hide ReplayLog, RecordTableOk, LocalTableOk, Collision;
    var n := anchor.auditSequence;
    PrefixBound(env, storeId, t.locals.Keys, u.locals.Keys, t.events, u.events, n);
    ReplayPrefix(env, storeId, t.locals.Keys, t.events, n);
    ReplayPrefix(env, storeId, u.locals.Keys, u.events, n);
    if !Collision(env, t.events, u.events) {
      SameHeads(env, storeId, t.locals.Keys, u.locals.Keys, t.events[..n]);
    }
  }
}
