/** Laws of the audited store: a transaction keeps the tables verifiable, and what a verified
    log determines. */
module StoreLaws {
  import opened Orders
  import opened Utf8
  import opened Store
  import AuditDetails

  // ----- head moves -----

  ghost predicate Changes(cs: seq<HeadChange>, name: Name) {
    exists i :: 0 <= i < |cs| && cs[i].name == name
  }

  ghost function NewRecordFor(cs: seq<HeadChange>, name: Name): Id
    requires Changes(cs, name)
  {
    if cs[|cs| - 1].name == name then cs[|cs| - 1].newRecordId
    else
      assert Changes(cs[..|cs| - 1], name) by {
        var i :| 0 <= i < |cs| && cs[i].name == name;
        assert cs[..|cs| - 1][i].name == name;
      }
      NewRecordFor(cs[..|cs| - 1], name)
  }

  /** After moving heads, each changed name points at its new record and this event, and every
      other name is where it was. */
  lemma {:induction false} MoveHeadsAt(heads: map<Name, HeadState>, cs: seq<HeadChange>, e: Id, s: int, name: Name)
    ensures Get(MoveHeads(heads, cs, e, s), name) ==
      if Changes(cs, name) then Some(HeadState(NewRecordFor(cs, name), e, s)) else Get(heads, name)
  {
    if cs != [] {
      var n := |cs| - 1;
      MoveHeadsAt(heads, cs[..n], e, s, name);
      if Changes(cs, name) && cs[n].name != name {
        var i :| 0 <= i < |cs| && cs[i].name == name;
        assert cs[..n][i].name == name;
      }
      if Changes(cs[..n], name) {
        var i :| 0 <= i < n && cs[..n][i].name == name;
        assert cs[i].name == name;
      }
      assert cs[n].name == name ==> Changes(cs, name);
    }
  }

  lemma {:induction false} NewRecordAt(cs: seq<HeadChange>, i: nat)
    requires ChangesSorted(cs) && i < |cs|
    ensures Changes(cs, cs[i].name) && NewRecordFor(cs, cs[i].name) == cs[i].newRecordId
  {
    var n := |cs| - 1;
    if i < n {
      assert cs[..n][i] == cs[i];
      NewRecordAt(cs[..n], i);
    }
  }

  // ----- replay of prefixes -----

  lemma {:induction false} ReplayPrefix(env: Env, storeId: Text, localRows: set<LocalId>, rows: seq<EventRow>, k: nat)
    requires ReplayLog(env, storeId, localRows, rows).Some? && k <= |rows|
    ensures ReplayLog(env, storeId, localRows, rows[..k]).Some?
    ensures k < |rows| ==>
      var st := ReplayLog(env, storeId, localRows, rows[..k]).value;
      && RowOk(env, storeId, localRows, st, rows[k], k + 1)
      && ReplayLog(env, storeId, localRows, rows[..k + 1]) == Some(Advance(st, rows[k]))
  {
    hide RowOk, Advance;
    var n := |rows| - 1;
    if k == |rows| {
      assert rows[..k] == rows;
    } else if k == n {
      assert rows[..k + 1] == rows;
    } else {
      ReplayPrefix(env, storeId, localRows, rows[..n], k);
      assert rows[..n][..k] == rows[..k] && rows[..n][..k + 1] == rows[..k + 1];
    }
  }

  lemma {:induction false} ReplayEnd(env: Env, storeId: Text, localRows: set<LocalId>, rows: seq<EventRow>)
    requires ReplayLog(env, storeId, localRows, rows).Some?
    ensures var st := ReplayLog(env, storeId, localRows, rows).value;
      st.previous == if rows == [] then None else Some(rows[|rows| - 1].eventId)
  {
    hide RowOk;
  }

  lemma {:induction false} AdvanceHeads(env: Env, storeId: Text, localRows: set<LocalId>, st: Replay, row: EventRow,
        n: int, name: Name)
    requires RowOk(env, storeId, localRows, st, row, n)
    ensures Get(Advance(st, row).heads, name) ==
      if Changes(row.payload.headUpdates.changes, name)
      then Some(HeadState(NewRecordFor(row.payload.headUpdates.changes, name), row.eventId, n))
      else Get(st.heads, name)
    ensures forall i :: 0 <= i < |row.payload.headUpdates.changes| ==>
      Get(st.heads, row.payload.headUpdates.changes[i].name) == row.payload.headUpdates.changes[i].expected
  {
    hide PayloadOk, RecordsOk, LocalsOk;
    MoveHeadsAt(st.heads, row.payload.headUpdates.changes, row.eventId, row.sequence, name);
  }

  /** Every head a replay has produced was installed by one of the events replayed. */
  lemma {:induction false} HeadsBounded(env: Env, storeId: Text, localRows: set<LocalId>, rows: seq<EventRow>,
        name: Name)
    requires ReplayLog(env, storeId, localRows, rows).Some?
    ensures var heads := ReplayLog(env, storeId, localRows, rows).value.heads;
      name in heads ==> 1 <= heads[name].auditSequence <= |rows|
  {
    hide RowOk, Advance;
    if rows != [] {
      var n := |rows| - 1;
      ReplayPrefix(env, storeId, localRows, rows, n);
      assert rows[..n + 1] == rows;
      HeadsBounded(env, storeId, localRows, rows[..n], name);
      AdvanceHeads(env, storeId, localRows, ReplayLog(env, storeId, localRows, rows[..n]).value, rows[n], n + 1, name);
    }
  }

  /** A head never goes back: once event i has moved it, its sequence stays above i. */
  lemma {:induction false} HeadsRise(env: Env, storeId: Text, localRows: set<LocalId>, rows: seq<EventRow>, i: nat,
        name: Name)
    requires ReplayLog(env, storeId, localRows, rows).Some? && i < |rows|
    requires Changes(rows[i].payload.headUpdates.changes, name)
    ensures var heads := ReplayLog(env, storeId, localRows, rows).value.heads;
      name in heads && heads[name].auditSequence > i
  {
    hide RowOk, Advance;
    var n := |rows| - 1;
    ReplayPrefix(env, storeId, localRows, rows, n);
    assert rows[..n + 1] == rows;
    AdvanceHeads(env, storeId, localRows, ReplayLog(env, storeId, localRows, rows[..n]).value, rows[n], n + 1, name);
    if i < n {
      HeadsRise(env, storeId, localRows, rows[..n], i, name);
    }
  }

  /** What event i expected of a head it moves was installed before it. */
  lemma {:induction false} ExpectedEarlier(env: Env, storeId: Text, localRows: set<LocalId>, rows: seq<EventRow>,
        i: nat, c: nat)
    requires ReplayLog(env, storeId, localRows, rows).Some? && i < |rows|
    requires c < |rows[i].payload.headUpdates.changes|
    ensures var change := rows[i].payload.headUpdates.changes[c];
      && ReplayLog(env, storeId, localRows, rows[..i]).Some?
      && Get(ReplayLog(env, storeId, localRows, rows[..i]).value.heads, change.name) == change.expected
      && (change.expected.Some? ==> change.expected.value.auditSequence <= i)
  {
    hide RowOk, Advance;
    ReplayPrefix(env, storeId, localRows, rows, i);
    var change := rows[i].payload.headUpdates.changes[c];
    AdvanceHeads(env, storeId, localRows, ReplayLog(env, storeId, localRows, rows[..i]).value, rows[i], i + 1, change.name);
    HeadsBounded(env, storeId, localRows, rows[..i], change.name);
  }

  lemma {:induction false} HasChange(env: Env, storeId: Text, localRows: set<LocalId>, rows: seq<EventRow>, i: nat)
    requires ReplayLog(env, storeId, localRows, rows).Some? && i < |rows|
    ensures rows[i].payload.headUpdates.changes != [] && ChangesSorted(rows[i].payload.headUpdates.changes)
    ensures rows[i].sequence == i + 1
  {
    hide PayloadOk, RecordsOk, LocalsOk, Advance;
    ReplayPrefix(env, storeId, localRows, rows, i);
  }

  /** No two events of a verified log carry the same transaction signature. */
  lemma {:induction false} SignaturesDiffer(env: Env, storeId: Text, localRows: set<LocalId>, rows: seq<EventRow>,
        i: nat, j: nat)
    requires ReplayLog(env, storeId, localRows, rows).Some? && i < j < |rows|
    ensures EventSignature(rows[i].payload) != EventSignature(rows[j].payload)
  {
    hide RowOk, Advance, ReplayLog;
    HasChange(env, storeId, localRows, rows, i);
    if EventSignature(rows[i].payload) == EventSignature(rows[j].payload) {
      var change := rows[i].payload.headUpdates.changes[0];
      ExpectedEarlier(env, storeId, localRows, rows, i, 0);
      ExpectedEarlier(env, storeId, localRows, rows, j, 0);
      ReplayPrefix(env, storeId, localRows, rows, j);
      assert Changes(rows[i].payload.headUpdates.changes, change.name);
      HeadsRise(env, storeId, localRows, rows[..j], i, change.name);
      assert false;
    }
  }

  // ----- a transaction keeps the tables verifiable -----

  /** What the normalisations of a request guarantee. */
  ghost predicate PlanOk(env: Env, p: Plan) {
    && (forall id :: id in p.records ==> ValidRecord(env, id, p.records[id]))
    && (forall l :: l in p.locals ==> l.kind != OtherKind && env.digestOf(p.locals[l]) == l.digest)
    && p.changes != map[]
    && (forall name :: name in p.changes ==> p.changes[name].name == name)
  }

  lemma {:induction false} NormalizeRecordsOk(env: Env, rs: seq<StoredRecord>)
    requires NormalizeRecords(env, rs).Ok?
    ensures var m := NormalizeRecords(env, rs).value;
      && (forall id :: id in m ==> ValidRecord(env, id, m[id]))
      && (forall r :: r in rs ==> r.recordId in m && m[r.recordId] == r.content)
      && (forall id :: id in m ==> StoredRecord(id, m[id]) in rs)
  {
    if rs != [] {
      var n := |rs| - 1;
      NormalizeRecordsOk(env, rs[..n]);
      assert rs == rs[..n] + [rs[n]];
    }
  }

  lemma {:induction false} NormalizeLocalsOk(env: Env, vs: seq<LocalDraft>)
    requires NormalizeLocals(env, vs).Ok?
    ensures var m := NormalizeLocals(env, vs).value;
      && (forall l :: l in m ==> l.kind != OtherKind && env.digestOf(m[l]) == l.digest)
      && (forall v :: v in vs ==> v.callerApproved && LocalId(v.digest, v.kind) in m && m[LocalId(v.digest, v.kind)] == v.value)
  {
    if vs != [] {
      var n := |vs| - 1;
      NormalizeLocalsOk(env, vs[..n]);
      assert vs == vs[..n] + [vs[n]];
    }
  }

  lemma {:induction false} ChangesByNameOk(us: seq<HeadChange>)
    requires ChangesByName(us).Ok?
    ensures var m := ChangesByName(us).value;
      && (forall name :: name in m ==> m[name].name == name && m[name] in us)
      && (forall u :: u in us ==> u.name in m && m[u.name] == u)
  {
    if us != [] {
      var n := |us| - 1;
      ChangesByNameOk(us[..n]);
      assert us == us[..n] + [us[n]];
    }
  }

  /** What a planned request guarantees. */
  lemma {:induction false} NormalizeOk(env: Env, r: Request)
    requires Normalize(env, r).Ok?
    ensures PlanOk(env, Normalize(env, r).value)
  {
    hide ValidRecord;
    NormalizeRecordsOk(env, r.records);
    NormalizeLocalsOk(env, r.localValues);
    ChangesByNameOk(r.headUpdates);
    var u := r.headUpdates[0];
    assert u in r.headUpdates;
  }

  lemma {:induction false} ListChangesFacts(changes: map<Name, HeadChange>)
    requires forall name :: name in changes ==> changes[name].name == name
    ensures ChangesSorted(ListChanges(changes))
    ensures forall i :: 0 <= i < |ListChanges(changes)| ==>
      var c := ListChanges(changes)[i]; c.name in changes && changes[c.name] == c
    ensures forall name :: name in changes ==> changes[name] in ListChanges(changes)
  {
    var names := SortSet(changes.Keys);
    var cs := ListChanges(changes);
    assert forall i :: 0 <= i < |names| ==> names[i] in names && names[i] in changes && cs[i] == changes[names[i]];
    forall name | name in changes ensures changes[name] in cs {
      assert name in names;
      var i :| 0 <= i < |names| && names[i] == name;
      assert cs[i] == changes[name];
    }
  }

  lemma {:induction false} LocalOrderInverse(l: LocalId)
    ensures LocalFromOrder(LocalOrder(l)) == l
  {
  }

  lemma {:induction false} ListLocalsFacts(ls: set<LocalId>)
    ensures LocalsSorted(ListLocals(ls))
    ensures Elems(ListLocals(ls)) == ls
  {
    var orders := SortSet(set l | l in ls :: LocalOrder(l));
    var r := ListLocals(ls);
    forall i | 0 <= i < |r| ensures LocalOrder(r[i]) == orders[i] && r[i] in ls {
      assert orders[i] in orders;
      var l :| l in ls && LocalOrder(l) == orders[i];
      LocalOrderInverse(l);
    }
    forall l | l in ls ensures l in r {
      assert LocalOrder(l) in orders;
      var i :| 0 <= i < |orders| && orders[i] == LocalOrder(l);
      LocalOrderInverse(l);
      assert r[i] == l;
    }
  }

  lemma {:induction false} SortSetOrdered(s: set<int>)
    ensures Ordered(SortSet(s)) && Elems(SortSet(s)) == s
  {
    hide SortSet;
  }

  lemma {:induction false} AppendedPayloadOk(env: Env, storeId: Text, t: Tables, p: Plan, d: EventDraft)
    requires DraftOk(env, d)
    ensures PayloadOk(env, storeId, Committed(env, storeId, t, p, d).events[|t.events|])
  {
    hide ListChanges, ListLocals, NewIds, MoveHeads, AuditDetails.PublicComponent;
  }

  lemma {:induction false} RecordSets(st: Replay, payload: EventPayload, supplied: set<Id>)
    requires Ordered(payload.recordIds) && Ordered(payload.insertedRecordIds)
    requires Elems(payload.recordIds) == supplied && Elems(payload.insertedRecordIds) == supplied - st.inserted
    requires payload.subjectId in st.inserted || payload.subjectId in supplied
    ensures RecordsOk(st, payload)
  {
    hide Ordered;
  }

  lemma {:induction false} AppendedRecordsOk(storeId: Text, t: Tables, st: Replay, p: Plan, d: EventDraft)
    requires t.records.Keys == st.inserted
    requires d.subjectId in t.records || d.subjectId in p.records
    ensures RecordsOk(st, BuildPayload(storeId, t, p, d))
    ensures st.inserted + Elems(BuildPayload(storeId, t, p, d).insertedRecordIds) == (p.records + t.records).Keys
  {
    hide ListChanges, ListLocals, SortSet, Ordered, RecordsOk;
    SortSetOrdered(p.records.Keys);
    SortSetOrdered(p.records.Keys - t.records.Keys);
    RecordSets(st, BuildPayload(storeId, t, p, d), p.records.Keys);
  }

  lemma {:induction false} NoLocals(ls: set<LocalId>)
    requires ls == {}
    ensures ListLocals(ls) == []
  {
    hide SortSet;
    assert (set l | l in ls :: LocalOrder(l)) == {};
    assert |ListLocals(ls)| == 0;
  }

  lemma {:induction false} AppendedLocalsOk(storeId: Text, t: Tables, p: Plan, d: EventDraft)
    requires p.locals == map[] || t.events == []
    ensures LocalsOk((t.locals + p.locals).Keys, BuildPayload(storeId, t, p, d))
    ensures Elems(BuildPayload(storeId, t, p, d).localValues) == p.locals.Keys
  {
    hide ListChanges, ListLocals, NewIds, LocalsSorted;
    ListLocalsFacts(p.locals.Keys);
    if t.events != [] {
      assert p.locals.Keys == {};
      NoLocals(p.locals.Keys);
    }
  }

  /** A record stored or supplied is available to the appended event. */
  lemma {:induction false} AppendedAvailable(storeId: Text, t: Tables, st: Replay, p: Plan, d: EventDraft, id: Id)
    requires t.records.Keys == st.inserted && (id in t.records || id in p.records)
    ensures id in st.inserted + Elems(BuildPayload(storeId, t, p, d).insertedRecordIds)
  {
    hide ListChanges, ListLocals, SortSet;
    SortSetOrdered(p.records.Keys - t.records.Keys);
  }

  lemma {:induction false} AppendedHeadsOk(storeId: Text, t: Tables, st: Replay, p: Plan, d: EventDraft)
    requires p.changes != map[] && forall name :: name in p.changes ==> p.changes[name].name == name
    requires t.heads == st.heads && t.records.Keys == st.inserted
    requires HeadsExpected(t.heads, p.changes)
    requires forall name :: name in t.heads ==> t.heads[name].auditSequence > 0
    requires forall name :: name in p.changes ==>
      p.changes[name].newRecordId in t.records || p.changes[name].newRecordId in p.records
    ensures HeadsOk(st, BuildPayload(storeId, t, p, d))
  {
    hide ListChanges, BuildPayload, ChangesSorted;
    ListChangesFacts(p.changes);
    BuiltChanges(storeId, t, p, d);
    var cs := ListChanges(p.changes);
    assert cs != [] by {
      assert |p.changes| != 0;
    }
    forall i | 0 <= i < |cs|
      ensures (cs[i].expected.Some? ==> cs[i].expected.value.auditSequence > 0)
        && Get(st.heads, cs[i].name) == cs[i].expected
        && cs[i].newRecordId in st.inserted + Elems(BuildPayload(storeId, t, p, d).insertedRecordIds)
    {
      assert p.changes[cs[i].name] == cs[i];
      AppendedAvailable(storeId, t, st, p, d, cs[i].newRecordId);
    }
  }

  lemma {:induction false} BuiltChanges(storeId: Text, t: Tables, p: Plan, d: EventDraft)
    ensures BuildPayload(storeId, t, p, d).headUpdates.changes == ListChanges(p.changes)
    ensures BuildPayload(storeId, t, p, d).insertedRecordIds == NewIds(t.records, p.records)
  {
    hide ListChanges, ListLocals, NewIds, SortSet;
  }

  lemma {:induction false} VerifiedHeadsPositive(env: Env, storeId: Text, t: Tables)
    requires Verified(env, storeId, t)
    ensures forall name :: name in t.heads ==> 1 <= t.heads[name].auditSequence <= |t.events|
  {
    hide RecordTableOk, LocalTableOk, ReplayLog;
    forall name | name in t.heads ensures 1 <= t.heads[name].auditSequence <= |t.events| {
      HeadsBounded(env, storeId, t.locals.Keys, t.events, name);
    }
  }

  lemma {:induction false} AdmittedFacts(env: Env, config: Config, t: Tables, p: Plan, d: EventDraft)
    requires Decide(env, config, t, p, d) == Admitted
    ensures Verified(env, config.storeId, t) && TrustedAnchorMatches(config, t)
    ensures ExistingRetryReceipt(t.events, t.heads, TransactionSignature(config.storeId, p, d)).None?
    ensures p.locals == map[] || t.events == []
    ensures HeadsExpected(t.heads, p.changes) && !Contradicts(t.records, p.records)
    ensures d.subjectId in t.records || d.subjectId in p.records
    ensures forall name :: name in p.changes ==>
      p.changes[name].newRecordId in t.records || p.changes[name].newRecordId in p.records
    ensures forall i :: 0 <= i < |t.events| ==>
      t.events[i].eventId != env.eventIdOf(BuildPayload(config.storeId, t, p, d))
  {
    hide Verified, ExistingRetryReceipt, TransactionSignature, BuildPayload, HeadsExpected, Contradicts;
  }

  /** The row appended by an admitted transaction passes every check of replay. */
  lemma {:induction false} AppendedRowOk(env: Env, config: Config, t: Tables, p: Plan, d: EventDraft)
    requires PlanOk(env, p) && DraftOk(env, d) && Decide(env, config, t, p, d) == Admitted
    ensures var t' := Committed(env, config.storeId, t, p, d);
      && ReplayLog(env, config.storeId, t.locals.Keys, t.events).Some?
      && RowOk(env, config.storeId, t'.locals.Keys, ReplayLog(env, config.storeId, t.locals.Keys, t.events).value,
               t'.events[|t.events|], |t.events| + 1)
  {
    hide ReplayLog, RecordTableOk, LocalTableOk, ListChanges, ListLocals, SortSet, ExistingRetryReceipt, Decide,
      DraftOk,
      PayloadOk, RecordsOk, LocalsOk, HeadsOk, Contradicts, HeadsExpected, NewIds;
    AdmittedFacts(env, config, t, p, d);
    var st := ReplayLog(env, config.storeId, t.locals.Keys, t.events).value;
    ReplayEnd(env, config.storeId, t.locals.Keys, t.events);
    VerifiedHeadsPositive(env, config.storeId, t);
    AppendedPayloadOk(env, config.storeId, t, p, d);
    AppendedRecordsOk(config.storeId, t, st, p, d);
    AppendedLocalsOk(config.storeId, t, p, d);
    AppendedHeadsOk(config.storeId, t, st, p, d);
  }

  lemma {:induction false} ReplayRowsLocal(env: Env, storeId: Text, l1: set<LocalId>, l2: set<LocalId>,
        rows: seq<EventRow>)
    requires l1 == l2 || rows == []
    ensures ReplayLog(env, storeId, l1, rows) == ReplayLog(env, storeId, l2, rows)
  {
  }

  /** An admitted transaction appends one event and leaves tables that verify again. */
  lemma {:induction false} CommitKeepsVerified(env: Env, config: Config, t: Tables, p: Plan, d: EventDraft)
    requires PlanOk(env, p) && DraftOk(env, d) && Decide(env, config, t, p, d) == Admitted
    ensures Verified(env, config.storeId, Committed(env, config.storeId, t, p, d))
    ensures TrustedAnchorMatches(config, Committed(env, config.storeId, t, p, d))
  {
    hide ListChanges, ListLocals, SortSet, ExistingRetryReceipt, Decide, DraftOk, RowOk,
      Contradicts, HeadsExpected, ReplayLog, Committed, Advance, AnchorMatches, PlanOk, RecordTableOk, LocalTableOk,
      Accounted;
    AdmittedFacts(env, config, t, p, d);
    AppendedReplay(env, config, t, p, d);
    var st := ReplayLog(env, config.storeId, t.locals.Keys, t.events).value;
    AppendedAccounted(env, config.storeId, t, st, p, d);
    AppendedTables(env, config.storeId, t, p, d);
    CommitAppends(env, config.storeId, t, p, d);
    if config.trustedAnchor.Some? {
      AnchorKept(config.storeId, t, Committed(env, config.storeId, t, p, d), config.trustedAnchor.value);
    }
  }

  /** An anchor that matches keeps matching however the log is extended. */
  lemma {:induction false} AnchorKept(storeId: Text, t: Tables, t': Tables, anchor: Anchor)
    requires AnchorMatches(storeId, t, anchor)
    requires t.events <= t'.events
    ensures AnchorMatches(storeId, t', anchor)
  {
  }

  lemma {:induction false} CommitAppends(env: Env, storeId: Text, t: Tables, p: Plan, d: EventDraft)
    ensures |Committed(env, storeId, t, p, d).events| == |t.events| + 1
    ensures t.events <= Committed(env, storeId, t, p, d).events
  {
    hide BuildPayload, MoveHeads, ListChanges;
  }

  lemma {:induction false} VerifiedReplay(env: Env, storeId: Text, t: Tables)
    requires Verified(env, storeId, t)
    ensures ReplayLog(env, storeId, t.locals.Keys, t.events).Some?
    ensures Accounted(t, ReplayLog(env, storeId, t.locals.Keys, t.events).value)
  {
    hide ReplayLog, Accounted, RecordTableOk, LocalTableOk;
  }

  lemma {:induction false} CommittedParts(env: Env, storeId: Text, t: Tables, p: Plan, d: EventDraft)
    ensures var t' := Committed(env, storeId, t, p, d);
      && |t'.events| == |t.events| + 1 && t'.events == t.events + [t'.events[|t.events|]]
      && t'.locals.Keys == t.locals.Keys + p.locals.Keys
      && (p.locals == map[] ==> t'.locals.Keys == t.locals.Keys)
  {
    hide BuildPayload, MoveHeads, ListChanges;
    SameLocals(t.locals, p.locals);
  }

  lemma {:induction false} AppendedReplay(env: Env, config: Config, t: Tables, p: Plan, d: EventDraft)
    requires PlanOk(env, p) && DraftOk(env, d) && Decide(env, config, t, p, d) == Admitted
    ensures var t' := Committed(env, config.storeId, t, p, d);
      var st := ReplayLog(env, config.storeId, t.locals.Keys, t.events);
      && |t'.events| == |t.events| + 1
      && st.Some? && Accounted(t, st.value)
      && ReplayLog(env, config.storeId, t'.locals.Keys, t'.events) == Some(Advance(st.value, t'.events[|t.events|]))
  {
    hide Committed, Verified, TransactionSignature, ExistingRetryReceipt, Decide, DraftOk, RowOk, Accounted,
      Advance, Contradicts, HeadsExpected, ReplayLog, BuildPayload, PlanOk;
    AdmittedFacts(env, config, t, p, d);
    AppendedRowOk(env, config, t, p, d);
    var storeId := config.storeId;
    VerifiedReplay(env, storeId, t);
    CommittedParts(env, storeId, t, p, d);
    var t' := Committed(env, storeId, t, p, d);
    ReplayRowsLocal(env, storeId, t.locals.Keys, t'.locals.Keys, t.events);
    ReplayAppended(env, storeId, t'.locals.Keys, t.events, t'.events[|t.events|]);
  }

  lemma {:induction false} SameLocals(a: map<LocalId, Bytes>, b: map<LocalId, Bytes>)
    ensures (a + b).Keys == a.Keys + b.Keys
    ensures b == map[] ==> (a + b).Keys == a.Keys
  {
  }

  lemma {:induction false} AppendedAccounted(env: Env, storeId: Text, t: Tables, st: Replay, p: Plan, d: EventDraft)
    requires Accounted(t, st)
    requires p.locals == map[] || t.events == []
    requires d.subjectId in t.records || d.subjectId in p.records
    ensures var t' := Committed(env, storeId, t, p, d); Accounted(t', Advance(st, t'.events[|t.events|]))
  {
    hide ListChanges, ListLocals, SortSet, NewIds, MoveHeads, LocalsOk, RecordsOk;
    AppendedRecordsOk(storeId, t, st, p, d);
    AppendedLocalsOk(storeId, t, p, d);
    SameLocals(t.locals, p.locals);
  }

  lemma {:induction false} ReplayAppended(env: Env, storeId: Text, localRows: set<LocalId>, rows: seq<EventRow>,
        row: EventRow)
    requires ReplayLog(env, storeId, localRows, rows).Some?
    requires RowOk(env, storeId, localRows, ReplayLog(env, storeId, localRows, rows).value, row, |rows| + 1)
    ensures ReplayLog(env, storeId, localRows, rows + [row]) ==
      Some(Advance(ReplayLog(env, storeId, localRows, rows).value, row))
  {
    hide RowOk, Advance;
    assert (rows + [row])[..|rows|] == rows;
  }

  lemma {:induction false} AppendedTables(env: Env, storeId: Text, t: Tables, p: Plan, d: EventDraft)
    requires RecordTableOk(env, t) && LocalTableOk(env, t) && PlanOk(env, p)
    ensures RecordTableOk(env, Committed(env, storeId, t, p, d)) && LocalTableOk(env, Committed(env, storeId, t, p, d))
    ensures Committed(env, storeId, t, p, d).metadata == t.metadata
  {
    hide BuildPayload, MoveHeads, ListChanges, ValidRecord;
  }

  // ----- what a transaction changes -----

  lemma {:induction false} ListedChange(changes: map<Name, HeadChange>, name: Name)
    requires forall n :: n in changes ==> changes[n].name == n
    ensures Changes(ListChanges(changes), name) <==> name in changes
    ensures name in changes ==> NewRecordFor(ListChanges(changes), name) == changes[name].newRecordId
  {
    hide ListChanges, NewRecordFor;
    ListChangesFacts(changes);
    var cs := ListChanges(changes);
    if name in changes {
      var i :| 0 <= i < |cs| && cs[i] == changes[name];
      NewRecordAt(cs, i);
    }
  }

  lemma {:induction false} ListedChanges(changes: map<Name, HeadChange>)
    requires forall n :: n in changes ==> changes[n].name == n
    ensures forall u :: u in ListChanges(changes) <==> u.name in changes && changes[u.name] == u
  {
    hide ListChanges;
    ListChangesFacts(changes);
    var cs := ListChanges(changes);
    forall u | u in cs ensures u.name in changes && changes[u.name] == u {
      var i :| 0 <= i < |cs| && cs[i] == u;
    }
  }

  /** An admitted transaction adds the supplied records and local values and nothing else,
      moves exactly the heads it names to its own event, and appends one event that is linked to
      the last one, says what was inserted and carries each field of the request. */
  lemma {:induction false} CommitEffect(env: Env, config: Config, t: Tables, p: Plan, d: EventDraft, id: Id, name: Name)
    requires PlanOk(env, p) && Decide(env, config, t, p, d) == Admitted
    ensures var t' := Committed(env, config.storeId, t, p, d);
      && Get(t'.records, id) == (if id in p.records then Some(p.records[id]) else Get(t.records, id))
      && Get(t'.records, id) == (if id in t.records then Some(t.records[id]) else Get(p.records, id))
      && t'.locals == t.locals + p.locals
      && |t'.events| == |t.events| + 1 && t.events <= t'.events
      && var row := t'.events[|t.events|];
      && EventSignature(row.payload) == TransactionSignature(config.storeId, p, d)
      && row.payload.details == d.details && row.payload.kind == d.kind && row.payload.logicalTime == d.logicalTime
      && row.payload.storeId == config.storeId && row.payload.subjectId == d.subjectId
      && Elems(row.payload.recordIds) == p.records.Keys && Elems(row.payload.localValues) == p.locals.Keys
      && (forall u :: u in row.payload.headUpdates.changes <==> u.name in p.changes && p.changes[u.name] == u)
      && Elems(row.payload.insertedRecordIds) == p.records.Keys - t.records.Keys
      && row.previousEventId == LastEventId(t) && row.sequence == |t'.events| && row.eventId == env.eventIdOf(row.payload)
      && Get(t'.heads, name) ==
           if name in p.changes then Some(HeadState(p.changes[name].newRecordId, row.eventId, row.sequence)) else Get(t.heads, name)
  {
    hide Decide, ListChanges, ListLocals, SortSet, MoveHeads, ValidRecord, Changes, NewRecordFor, Verified,
      TrustedAnchorMatches,
      ExistingRetryReceipt, HeadsExpected;
    AdmittedFacts(env, config, t, p, d);
    ListedChange(p.changes, name);
    SortSetOrdered(p.records.Keys - t.records.Keys);
    SortSetOrdered(p.records.Keys);
    ListLocalsFacts(p.locals.Keys);
    ListChangesFacts(p.changes);
    ListedChanges(p.changes);
    var payload := BuildPayload(config.storeId, t, p, d);
    MoveHeadsAt(t.heads, ListChanges(p.changes), env.eventIdOf(payload), payload.sequence, name);
  }
}
