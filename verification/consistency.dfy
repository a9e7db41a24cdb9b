/** What replay verification accepts (store/sqlite.py, `_verify_state`), stated on the rows by
    their positions: no replay state, and each condition on its own. */
module Consistency {
  import opened Orders
  import opened Utf8
  import opened Store
  import opened StoreLaws
  import AuditDetails
  import LogicalTime

  /** One of the first n events says it inserted the record. */
  ghost predicate InsertedBefore(rows: seq<EventRow>, n: nat, id: Id)
    requires n <= |rows|
  {
    exists j :: 0 <= j < n && id in rows[j].payload.insertedRecordIds
  }

  ghost predicate LocalBefore(rows: seq<EventRow>, n: nat, l: LocalId)
    requires n <= |rows|
  {
    exists j :: 0 <= j < n && l in rows[j].payload.localValues
  }

  /** This event moves the head to this state. */
  ghost predicate Installs(row: EventRow, name: Name, head: HeadState) {
    exists c :: 0 <= c < |row.payload.headUpdates.changes| && row.payload.headUpdates.changes[c].name == name
      && head == HeadState(row.payload.headUpdates.changes[c].newRecordId, row.eventId, row.sequence)
  }

  /** Where the head is after the first n events: where the last of them to move it put it. */
  ghost predicate HeadAfter(rows: seq<EventRow>, n: nat, name: Name, head: Option<HeadState>)
    requires n <= |rows|
  {
    match head
    case None => forall j :: 0 <= j < n ==> !Changes(rows[j].payload.headUpdates.changes, name)
    case Some(h) => exists j :: 0 <= j < n && Installs(rows[j], name, h) && Unmoved(rows, j + 1, n, name)
  }

  ghost predicate Unmoved(rows: seq<EventRow>, a: int, n: nat, name: Name)
    requires n <= |rows| && a >= 0
  {
    forall k :: a <= k < n ==> !Changes(rows[k].payload.headUpdates.changes, name)
  }

  /** The event links to the one before it, and its own fields are in order. */
  ghost predicate EventOk(env: Env, storeId: Text, rows: seq<EventRow>, i: nat)
    requires i < |rows|
  {
    var row := rows[i]; var p := row.payload;
    && row.decodes && row.eventId == env.eventIdOf(p) && p.storeId == storeId
    && row.sequence == i + 1 && p.sequence == i + 1
    && row.previousEventId == p.previousEventId == (if i == 0 then None else Some(rows[i - 1].eventId))
    && LogicalTime.Validate(p.logicalTime).Ok? && AuditDetails.PublicComponent(p.kind)
    && AuditDetails.NormalizeDetails(env.nfc, p.details, 0) == Ok(p.details)
    && Ordered(p.recordIds) && Ordered(p.insertedRecordIds) && LocalsSorted(p.localValues)
    && p.headUpdates.changes != [] && ChangesSorted(p.headUpdates.changes)
  }

  /** What the event refers to was there before, or is inserted by it for the first time. */
  ghost predicate ReferencesOk(localRows: set<LocalId>, rows: seq<EventRow>, i: nat)
    requires i < |rows|
  {
    var p := rows[i].payload; var cs := p.headUpdates.changes;
    && (forall id :: id in p.insertedRecordIds ==> id in p.recordIds && !InsertedBefore(rows, i, id))
    && (forall id :: id in p.recordIds ==> InsertedBefore(rows, i + 1, id))
    && InsertedBefore(rows, i + 1, p.subjectId)
    && (forall c :: 0 <= c < |cs| ==> InsertedBefore(rows, i + 1, cs[c].newRecordId))
    && (forall c :: 0 <= c < |cs| ==> HeadAfter(rows, i, cs[c].name, cs[c].expected))
    && (forall l :: l in p.localValues ==> i == 0 && l in localRows)
  }

  ghost predicate RowsOk(env: Env, storeId: Text, localRows: set<LocalId>, rows: seq<EventRow>, n: nat)
    requires n <= |rows|
  {
    forall i :: 0 <= i < n ==> EventOk(env, storeId, rows, i) && ReferencesOk(localRows, rows, i)
  }

  /** The replay state after n events. */
  ghost predicate StateAfter(rows: seq<EventRow>, n: nat, st: Replay)
    requires n <= |rows|
  {
    && (forall id :: id in st.inserted <==> InsertedBefore(rows, n, id))
    && (forall l :: l in st.locals <==> LocalBefore(rows, n, l))
    && st.previous == (if n == 0 then None else Some(rows[n - 1].eventId))
    && (forall name :: HeadAfter(rows, n, name, Get(st.heads, name)))
  }

  // ----- one event -----

  lemma {:induction false} OneChange(cs: seq<HeadChange>, a: int, b: int)
    requires ChangesSorted(cs) && 0 <= a < |cs| && 0 <= b < |cs| && cs[a].name == cs[b].name
    ensures a == b
  {
  }

  lemma {:induction false} InstallsOnce(row: EventRow, name: Name, g: HeadState, h: HeadState)
    requires ChangesSorted(row.payload.headUpdates.changes) && Installs(row, name, g) && Installs(row, name, h)
    ensures g == h
  {
    hide ChangesSorted;
    var cs := row.payload.headUpdates.changes;
    var a :| 0 <= a < |cs| && cs[a].name == name && g == HeadState(cs[a].newRecordId, row.eventId, row.sequence);
    var b :| 0 <= b < |cs| && cs[b].name == name && h == HeadState(cs[b].newRecordId, row.eventId, row.sequence);
    OneChange(cs, a, b);
  }

  lemma {:induction false} InstallsChanges(row: EventRow, name: Name, h: HeadState)
    requires Installs(row, name, h)
    ensures Changes(row.payload.headUpdates.changes, name)
  {
  }

  lemma {:induction false} HeadOnce(rows: seq<EventRow>, n: nat, name: Name, g: Option<HeadState>, h: Option<HeadState>)
    requires n <= |rows| && forall j :: 0 <= j < n ==> ChangesSorted(rows[j].payload.headUpdates.changes)
    requires HeadAfter(rows, n, name, g) && HeadAfter(rows, n, name, h)
    ensures g == h
  {
    hide Installs, Changes, ChangesSorted;
    if g.Some? {
      var a :| 0 <= a < n && Installs(rows[a], name, g.value) && Unmoved(rows, a + 1, n, name);
      InstallsChanges(rows[a], name, g.value);
    }
    if h.Some? {
      var b :| 0 <= b < n && Installs(rows[b], name, h.value) && Unmoved(rows, b + 1, n, name);
      InstallsChanges(rows[b], name, h.value);
    }
    if g.Some? && h.Some? {
      var a :| 0 <= a < n && Installs(rows[a], name, g.value) && Unmoved(rows, a + 1, n, name);
      var b :| 0 <= b < n && Installs(rows[b], name, h.value) && Unmoved(rows, b + 1, n, name);
      InstallsChanges(rows[a], name, g.value);
      InstallsChanges(rows[b], name, h.value);
      assert a == b;
      InstallsOnce(rows[a], name, g.value, h.value);
    }
  }

  lemma {:induction false} InsertedNext(rows: seq<EventRow>, n: nat, id: Id)
    requires n < |rows|
    ensures InsertedBefore(rows, n + 1, id) <==> InsertedBefore(rows, n, id) || id in rows[n].payload.insertedRecordIds
  {
  }

  lemma {:induction false} LocalNext(rows: seq<EventRow>, n: nat, l: LocalId)
    requires n < |rows|
    ensures LocalBefore(rows, n + 1, l) <==> LocalBefore(rows, n, l) || l in rows[n].payload.localValues
  {
  }

  lemma {:induction false} RecordsMean(rows: seq<EventRow>, n: nat, st: Replay)
    requires n < |rows| && StateAfter(rows, n, st)
    ensures var p := rows[n].payload;
      RecordsOk(st, p) <==>
        && Ordered(p.recordIds) && Ordered(p.insertedRecordIds)
        && (forall id :: id in p.insertedRecordIds ==> id in p.recordIds && !InsertedBefore(rows, n, id))
        && (forall id :: id in p.recordIds ==> InsertedBefore(rows, n + 1, id))
        && InsertedBefore(rows, n + 1, p.subjectId)
  {
    hide InsertedBefore, HeadAfter, LocalBefore;
    var p := rows[n].payload;
    forall id ensures InsertedBefore(rows, n + 1, id) <==> id in st.inserted + Elems(p.insertedRecordIds) {
      InsertedNext(rows, n, id);
    }
    SetsMean(p.insertedRecordIds, p.recordIds, st.inserted);
  }

  lemma {:induction false} SetsMean(a: seq<Id>, b: seq<Id>, s: set<Id>)
    ensures Elems(a) <= Elems(b) <==> forall id :: id in a ==> id in b
    ensures s !! Elems(a) <==> forall id :: id in a ==> id !in s
    ensures Elems(b) <= s + Elems(a) <==> forall id :: id in b ==> id in s + Elems(a)
  {
    var ea, eb := Elems(a), Elems(b);
    assert forall id :: id in ea <==> id in a;
    assert forall id :: id in eb <==> id in b;
    assert forall id :: id in a ==> id in ea;
    assert forall id :: id in b ==> id in eb;
    if forall id :: id in a ==> id in b {
      assert forall id :: id in ea ==> id in eb;
    }
    if forall id :: id in b ==> id in s + ea {
      assert forall id :: id in eb ==> id in s + ea;
    }
    if forall id :: id in a ==> id !in s {
      assert forall id :: id in ea ==> id !in s;
    }
  }

  lemma {:induction false} HeadsMean(rows: seq<EventRow>, n: nat, st: Replay)
    requires n < |rows| && StateAfter(rows, n, st)
    requires forall j :: 0 <= j < n ==> ChangesSorted(rows[j].payload.headUpdates.changes) && rows[j].sequence == j + 1
    ensures var p := rows[n].payload; var cs := p.headUpdates.changes;
      HeadsOk(st, p) <==>
        && cs != [] && ChangesSorted(cs)
        && (forall c :: 0 <= c < |cs| ==> InsertedBefore(rows, n + 1, cs[c].newRecordId))
        && (forall c :: 0 <= c < |cs| ==> HeadAfter(rows, n, cs[c].name, cs[c].expected))
  {
    hide InsertedBefore, HeadAfter, LocalBefore, ChangesSorted;
    var p := rows[n].payload;
    var cs := p.headUpdates.changes;
    forall c | 0 <= c < |cs|
      ensures Get(st.heads, cs[c].name) == cs[c].expected <==> HeadAfter(rows, n, cs[c].name, cs[c].expected)
      ensures HeadAfter(rows, n, cs[c].name, cs[c].expected) && cs[c].expected.Some? ==> cs[c].expected.value.auditSequence > 0
      ensures cs[c].newRecordId in st.inserted + Elems(p.insertedRecordIds) <==> InsertedBefore(rows, n + 1, cs[c].newRecordId)
    {
      InsertedNext(rows, n, cs[c].newRecordId);
      if HeadAfter(rows, n, cs[c].name, cs[c].expected) {
        HeadOnce(rows, n, cs[c].name, cs[c].expected, Get(st.heads, cs[c].name));
        if cs[c].expected.Some? { HeadPositive(rows, n, cs[c].name, cs[c].expected.value); }
      }
    }
  }

  lemma {:induction false} HeadPositive(rows: seq<EventRow>, n: nat, name: Name, h: HeadState)
    requires n <= |rows| && HeadAfter(rows, n, name, Some(h)) && forall j :: 0 <= j < n ==> rows[j].sequence == j + 1
    ensures h.auditSequence > 0
  {
  }

  lemma {:induction false} RowMeans(env: Env, storeId: Text, localRows: set<LocalId>, rows: seq<EventRow>, n: nat, st: Replay)
    requires n < |rows| && StateAfter(rows, n, st) && RowsOk(env, storeId, localRows, rows, n)
    ensures RowOk(env, storeId, localRows, st, rows[n], n + 1) <==>
      EventOk(env, storeId, rows, n) && ReferencesOk(localRows, rows, n)
  {
    hide InsertedBefore, HeadAfter, LocalBefore, ChangesSorted, LocalsSorted, Ordered, RecordsOk, HeadsOk,
      AuditDetails.NormalizeDetails, AuditDetails.PublicComponent, LogicalTime.Validate, Elems;
    RecordsMean(rows, n, st);
    forall j | 0 <= j < n ensures ChangesSorted(rows[j].payload.headUpdates.changes) && rows[j].sequence == j + 1 {
      assert EventOk(env, storeId, rows, j);
    }
    HeadsMean(rows, n, st);
    LocalsMean(localRows, rows[n].payload);
  }

  lemma {:induction false} LocalsMean(localRows: set<LocalId>, p: EventPayload)
    ensures LocalsOk(localRows, p) <==>
      LocalsSorted(p.localValues) && forall l :: l in p.localValues ==> p.sequence == 1 && l in localRows
  {
    assert forall l :: l in p.localValues <==> l in Elems(p.localValues);
    assert p.localValues != [] ==> p.localValues[0] in p.localValues;
  }

  lemma {:induction false} HeadNext(rows: seq<EventRow>, n: nat, st: Replay, name: Name)
    requires n < |rows| && HeadAfter(rows, n, name, Get(st.heads, name))
    requires ChangesSorted(rows[n].payload.headUpdates.changes)
    ensures HeadAfter(rows, n + 1, name, Get(Advance(st, rows[n]).heads, name))
  {
    hide ChangesSorted, MoveHeads, Elems;
    var row := rows[n];
    var cs := row.payload.headUpdates.changes;
    MoveHeadsAt(st.heads, cs, row.eventId, row.sequence, name);
    if Changes(cs, name) {
      var c :| 0 <= c < |cs| && cs[c].name == name;
      NewRecordAt(cs, c);
      assert Installs(row, name, HeadState(cs[c].newRecordId, row.eventId, row.sequence));
      assert Unmoved(rows, n + 1, n + 1, name);
    } else if Get(st.heads, name).Some? {
      var h := Get(st.heads, name).value;
      var j :| 0 <= j < n && Installs(rows[j], name, h) && Unmoved(rows, j + 1, n, name);
      assert Unmoved(rows, j + 1, n + 1, name);
    }
  }

  lemma {:induction false} StateNext(env: Env, storeId: Text, localRows: set<LocalId>, rows: seq<EventRow>, n: nat, st: Replay)
    requires n < |rows| && StateAfter(rows, n, st) && RowOk(env, storeId, localRows, st, rows[n], n + 1)
    ensures StateAfter(rows, n + 1, Advance(st, rows[n]))
  {
    hide InsertedBefore, HeadAfter, LocalBefore, ChangesSorted, PayloadOk, RecordsOk, LocalsOk, MoveHeads;
    var next := Advance(st, rows[n]);
    forall id ensures id in next.inserted <==> InsertedBefore(rows, n + 1, id) {
      InsertedNext(rows, n, id);
    }
    forall l ensures l in next.locals <==> LocalBefore(rows, n + 1, l) {
      LocalNext(rows, n, l);
    }
    forall name ensures HeadAfter(rows, n + 1, name, Get(next.heads, name)) {
      HeadNext(rows, n, st, name);
    }
  }

  // ----- the log and the tables -----

  lemma {:induction false} ReplayExactly(env: Env, storeId: Text, localRows: set<LocalId>, rows: seq<EventRow>, n: nat)
    requires n <= |rows|
    ensures var st := ReplayLog(env, storeId, localRows, rows[..n]);
      && (st.Some? <==> RowsOk(env, storeId, localRows, rows, n))
      && (st.Some? ==> StateAfter(rows, n, st.value))
  {
    hide RowOk, EventOk, ReferencesOk, Advance, StateAfter;
    if n == 0 {
      NothingReplayed(rows);
    } else {
      ReplayExactly(env, storeId, localRows, rows, n - 1);
      assert rows[..n][..n - 1] == rows[..n - 1];
      var st := ReplayLog(env, storeId, localRows, rows[..n - 1]);
      if st.Some? {
        RowMeans(env, storeId, localRows, rows, n - 1, st.value);
        if RowOk(env, storeId, localRows, st.value, rows[n - 1], n) {
          StateNext(env, storeId, localRows, rows, n - 1, st.value);
        }
      }
    }
  }

  lemma {:induction false} NothingReplayed(rows: seq<EventRow>)
    ensures StateAfter(rows, 0, GENESIS)
  {
  }

  /** The tables say what the log says: the records and local values the events inserted, each
      under its own hash, and every head where the last event to move it put it. */
  ghost predicate TablesOk(env: Env, t: Tables) {
    var n := |t.events|;
    && (forall id :: id in t.records <==> InsertedBefore(t.events, n, id))
    && (forall id :: id in t.records ==> ValidRecord(env, id, t.records[id]))
    && (forall l :: l in t.locals <==> LocalBefore(t.events, n, l))
    && (forall l :: l in t.locals ==> l.kind != OtherKind && l.digest == env.digestOf(t.locals[l]))
    && (forall name :: HeadAfter(t.events, n, name, Get(t.heads, name)))
  }

  /** The only metadata are the schema version, the text 1, and the identifier of the store. */
  ghost predicate MetadataOk(storeId: Text, t: Tables) {
    forall key, data: Bytes :: Get(t.metadata, key) == Some(data) <==>
      (key == SCHEMA_VERSION_KEY && data == [49]) || (key == STORE_ID_KEY && data == Encode(storeId))
  }

  lemma {:induction false} MetadataMeans(storeId: Text, t: Tables)
    ensures t.metadata == Metadata(storeId) <==> MetadataOk(storeId, t)
  {
    hide Encode;
    assert |SCHEMA_VERSION_KEY| != |STORE_ID_KEY|;
    if MetadataOk(storeId, t) {
      assert Get(t.metadata, SCHEMA_VERSION_KEY) == Some([49]);
      assert Get(t.metadata, STORE_ID_KEY) == Some(Encode(storeId));
      forall key ensures Get(t.metadata, key) == Get(Metadata(storeId), key) {
        if key in t.metadata {
          assert Get(t.metadata, key) == Some(t.metadata[key]);
        }
      }
      forall key ensures key in t.metadata <==> key in Metadata(storeId) {
        assert Get(t.metadata, key) == Get(Metadata(storeId), key);
      }
      forall key | key in t.metadata ensures t.metadata[key] == Metadata(storeId)[key] {
        assert Get(t.metadata, key) == Get(Metadata(storeId), key);
      }
    }
  }

  /** Verification accepts exactly the tables whose events are chained, in order and refer to what
      is there, and whose records, local values and heads are what the events say. */
  lemma {:induction false} VerifiedExactly(env: Env, storeId: Text, t: Tables)
    ensures Verified(env, storeId, t) <==>
      && MetadataOk(storeId, t)
      && (forall i :: 0 <= i < |t.events| ==>
            EventOk(env, storeId, t.events, i) && ReferencesOk(t.locals.Keys, t.events, i))
      && TablesOk(env, t)
  {
    hide MetadataOk, Metadata, EventOk, ReferencesOk, ReplayLog, InsertedBefore, LocalBefore, HeadAfter, ValidRecord;
    var n := |t.events|;
    assert t.events[..n] == t.events;
    ReplayExactly(env, storeId, t.locals.Keys, t.events, n);
    MetadataMeans(storeId, t);
    var st := ReplayLog(env, storeId, t.locals.Keys, t.events);
    if st.Some? {
      AccountedMeans(env, storeId, t, st.value);
    }
  }

  lemma {:induction false} AccountedMeans(env: Env, storeId: Text, t: Tables, st: Replay)
    requires StateAfter(t.events, |t.events|, st) && RowsOk(env, storeId, t.locals.Keys, t.events, |t.events|)
    ensures Accounted(t, st) && RecordTableOk(env, t) && LocalTableOk(env, t) <==> TablesOk(env, t)
  {
    hide ReferencesOk, InsertedBefore, LocalBefore, HeadAfter, ValidRecord;
    var n := |t.events|;
    if TablesOk(env, t) {
      forall j | 0 <= j < n ensures ChangesSorted(t.events[j].payload.headUpdates.changes) {
        assert EventOk(env, storeId, t.events, j);
      }
      forall name ensures Get(t.heads, name) == Get(st.heads, name) {
        HeadOnce(t.events, n, name, Get(t.heads, name), Get(st.heads, name));
      }
      SameMap(t.heads, st.heads);
      forall id ensures id in t.records.Keys <==> id in st.inserted {
        assert id in t.records <==> InsertedBefore(t.events, n, id);
      }
      forall l ensures l in t.locals.Keys <==> l in st.locals {
        assert l in t.locals <==> LocalBefore(t.events, n, l);
      }
      assert t.records.Keys == st.inserted && t.locals.Keys == st.locals;
    }
  }

  lemma {:induction false} SameMap<K(!new), V>(a: map<K, V>, b: map<K, V>)
    requires forall k :: Get(a, k) == Get(b, k)
    ensures a == b
  {
    forall k ensures k in a <==> k in b {
      assert Get(a, k) == Get(b, k);
    }
    forall k | k in a ensures a[k] == b[k] {
      assert Get(a, k) == Get(b, k);
    }
  }
}
