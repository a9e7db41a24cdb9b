/** Submitting a request again (store/sqlite.py): which requests are the same request, field by
    field, and exactly when one is answered with the receipt of an earlier event. */
module Retries {
  import opened Orders
  import opened Utf8
  import opened Store
  import opened StoreLaws
  import opened StoreRuns
  import opened SqliteStore
  import Drafts
  import opened Session
  import SessionLaws

  /** The event holds each field of the request: details, kind, time, store, subject, the
      identifiers of its records and local values, and its head updates. */
  ghost predicate SameRequest(storeId: Text, e: EventPayload, r: Request) {
    && e.details == r.event.details && e.kind == r.event.kind && e.logicalTime == r.event.logicalTime
    && e.storeId == storeId && e.subjectId == r.event.subjectId
    && (forall id :: id in e.recordIds <==> exists k :: 0 <= k < |r.records| && r.records[k].recordId == id)
    && (forall l :: l in e.localValues <==> exists k :: 0 <= k < |r.localValues| && Drafts.LocalKey(r.localValues[k]) == l)
    && (forall u :: u in e.headUpdates.changes <==> u in r.headUpdates)
  }

  /** Every head of the request is where this event put it. */
  ghost predicate HeadsInPlace(t: Tables, row: EventRow, r: Request) {
    forall u :: u in r.headUpdates ==> Get(t.heads, u.name) == Some(HeadState(u.newRecordId, row.eventId, row.sequence))
  }

  // ----- lists in order are determined by their elements -----

  ghost predicate InOrder<T>(s: seq<T>, key: T -> int) {
    forall i, j :: 0 <= i < j < |s| ==> key(s[i]) < key(s[j])
  }

  lemma {:induction false} FirstElement<T(!new)>(a: seq<T>, b: seq<T>, key: T -> int)
    requires InOrder(a, key) && InOrder(b, key) && a != []
    requires forall x :: x in a <==> x in b
    ensures b != [] && a[0] == b[0]
  {
    assert a[0] in a;
    assert b[0] in b;
  }

  lemma {:induction false} OtherElements<T(!new)>(s: seq<T>, key: T -> int, x: T)
    requires InOrder(s, key) && s != []
    ensures InOrder(s[1..], key)
    ensures x in s[1..] <==> x in s && x != s[0]
  {
    if x in s && x != s[0] {
      var i :| 0 <= i < |s| && s[i] == x;
      assert s[1..][i - 1] == x;
    }
  }

  lemma {:induction false} OrderedOnce<T(!new)>(a: seq<T>, b: seq<T>, key: T -> int)
    requires InOrder(a, key) && InOrder(b, key)
    requires forall x :: x in a <==> x in b
    ensures a == b
  {
    assert b != [] ==> b[0] in b;
    if a != [] {
      FirstElement(a, b, key);
      forall x ensures x in a[1..] <==> x in b[1..] {
        OtherElements(a, key, x);
        OtherElements(b, key, x);
      }
      OtherElements(a, key, a[0]);
      OtherElements(b, key, b[0]);
      OrderedOnce(a[1..], b[1..], key);
      assert a == [a[0]] + a[1..] && b == [b[0]] + b[1..];
    }
  }

  // ----- the fields behind a signature -----

  /** Two events have one signature exactly when these eight fields agree. */
  lemma {:induction false} SignatureFields(a: EventPayload, b: EventPayload)
    ensures EventSignature(a) == EventSignature(b) <==>
      && a.details == b.details && a.headUpdates.changes == b.headUpdates.changes && a.kind == b.kind
      && a.localValues == b.localValues && a.logicalTime == b.logicalTime && a.recordIds == b.recordIds
      && a.storeId == b.storeId && a.subjectId == b.subjectId
  {
  }

  lemma {:induction false} PlannedRecords(env: Env, r: Request, id: Id)
    requires Normalize(env, r).Ok?
    ensures id in Normalize(env, r).value.records <==> exists k :: 0 <= k < |r.records| && r.records[k].recordId == id
  {
    hide ValidRecord, NormalizeRecords, NormalizeLocals, NormalizeUpdates;
    NormalizeRecordsOk(env, r.records);
    var m := NormalizeRecords(env, r.records).value;
    if id in m {
      var k :| 0 <= k < |r.records| && r.records[k] == StoredRecord(id, m[id]);
    }
    if k :| 0 <= k < |r.records| && r.records[k].recordId == id {
      assert r.records[k] in r.records;
    }
  }

  lemma {:induction false} PlannedLocals(env: Env, r: Request, l: LocalId)
    requires Normalize(env, r).Ok?
    ensures l in Normalize(env, r).value.locals <==>
      exists k :: 0 <= k < |r.localValues| && Drafts.LocalKey(r.localValues[k]) == l
  {
    hide NormalizeRecords, NormalizeLocals, NormalizeUpdates;
    Drafts.LocalsKept(env, r.localValues);
  }

  lemma {:induction false} PlannedChanges(env: Env, r: Request, u: HeadChange)
    requires Normalize(env, r).Ok?
    ensures u in ListChanges(Normalize(env, r).value.changes) <==> u in r.headUpdates
    ensures ChangesSorted(ListChanges(Normalize(env, r).value.changes))
  {
    hide NormalizeRecords, NormalizeLocals, ChangesByName, ListChanges;
    ChangesByNameOk(r.headUpdates);
    var changes := Normalize(env, r).value.changes;
    ListChangesFacts(changes);
    var cs := ListChanges(changes);
    if u in cs {
      var i :| 0 <= i < |cs| && cs[i] == u;
      assert changes[u.name] == u;
    }
  }

  /** The lists of an event in a verified log are in order. */
  lemma {:induction false} EventOrdered(env: Env, storeId: Text, t: Tables, i: nat)
    requires Verified(env, storeId, t) && i < |t.events|
    ensures var e := t.events[i].payload;
      && t.events[i].sequence == i + 1
      && Ordered(e.recordIds) && Ordered(e.insertedRecordIds) && LocalsSorted(e.localValues)
      && e.headUpdates.changes != [] && ChangesSorted(e.headUpdates.changes)
  {
    hide Verified, ReplayLog, PayloadOk, Advance;
    LogReplays(env, storeId, t);
    ReplayPrefix(env, storeId, t.locals.Keys, t.events, i);
  }

  /** An event of a verified log has the signature of a request exactly when it holds each field
      of the request. */
  lemma {:induction false} SignatureMeaning(env: Env, storeId: Text, t: Tables, i: nat, r: Request)
    requires Verified(env, storeId, t) && i < |t.events| && Normalize(env, r).Ok?
    ensures EventSignature(t.events[i].payload) == TransactionSignature(storeId, Normalize(env, r).value, r.event) <==>
      SameRequest(storeId, t.events[i].payload, r)
  {
    hide Verified, Normalize, ListChanges, ListLocals, SortSet, ChangesSorted, LocalsSorted, Ordered;
    var e := t.events[i].payload;
    var p := Normalize(env, r).value;
    var ids, ls, cs := SortSet(p.records.Keys), ListLocals(p.locals.Keys), ListChanges(p.changes);
    EventOrdered(env, storeId, t, i);
    SortSetOrdered(p.records.Keys);
    ListLocalsFacts(p.locals.Keys);
    forall id ensures id in ids <==> exists k :: 0 <= k < |r.records| && r.records[k].recordId == id {
      PlannedRecords(env, r, id);
      assert id in ids <==> id in Elems(ids);
    }
    forall l ensures l in ls <==> exists k :: 0 <= k < |r.localValues| && Drafts.LocalKey(r.localValues[k]) == l {
      PlannedLocals(env, r, l);
      assert l in ls <==> l in Elems(ls);
    }
    forall u ensures u in cs <==> u in r.headUpdates {
      PlannedChanges(env, r, u);
    }
    PlannedChanges(env, r, e.headUpdates.changes[0]);
    ListsOnce(e, ids, ls, cs);
  }

  lemma {:induction false} ListsOnce(e: EventPayload, ids: seq<Id>, ls: seq<LocalId>, cs: seq<HeadChange>)
    requires Ordered(e.recordIds) && LocalsSorted(e.localValues) && ChangesSorted(e.headUpdates.changes)
    requires Ordered(ids) && LocalsSorted(ls) && ChangesSorted(cs)
    ensures e.recordIds == ids <==> forall id :: id in e.recordIds <==> id in ids
    ensures e.localValues == ls <==> forall l :: l in e.localValues <==> l in ls
    ensures e.headUpdates.changes == cs <==> forall u :: u in e.headUpdates.changes <==> u in cs
  {
    if forall id :: id in e.recordIds <==> id in ids { OrderedOnce(e.recordIds, ids, (x: Id) => x); }
    if forall l :: l in e.localValues <==> l in ls { OrderedOnce(e.localValues, ls, (l: LocalId) => LocalOrder(l)); }
    if forall u :: u in e.headUpdates.changes <==> u in cs {
      OrderedOnce(e.headUpdates.changes, cs, (u: HeadChange) => u.name);
    }
  }

  lemma {:induction false} PlaceOfHeads(env: Env, t: Tables, row: EventRow, r: Request)
    requires Normalize(env, r).Ok?
    ensures HeadsStillAt(t.heads, ListChanges(Normalize(env, r).value.changes), row) <==> HeadsInPlace(t, row, r)
  {
    hide Normalize, ListChanges, ChangesSorted;
    var cs := ListChanges(Normalize(env, r).value.changes);
    forall u ensures u in cs <==> u in r.headUpdates {
      PlannedChanges(env, r, u);
    }
    if HeadsStillAt(t.heads, cs, row) {
      forall u | u in r.headUpdates
        ensures Get(t.heads, u.name) == Some(HeadState(u.newRecordId, row.eventId, row.sequence))
      {
        var i :| 0 <= i < |cs| && cs[i] == u;
      }
    }
    if HeadsInPlace(t, row, r) {
      forall i | 0 <= i < |cs|
        ensures Get(t.heads, cs[i].name) == Some(HeadState(cs[i].newRecordId, row.eventId, row.sequence))
      {
        assert cs[i] in cs;
      }
    }
  }

  /** A request that can be planned is answered with an earlier receipt exactly when some event of
      the log holds each of its fields and all its heads are where that event put them. */
  lemma {:induction false} RetriedExactly(env: Env, config: Config, t: Tables, r: Request)
    requires Verified(env, config.storeId, t) && TrustedAnchorMatches(config, t) && !config.readOnly
    requires Normalize(env, r).Ok?
    ensures Attempt(env, config, t, r).Retried? <==>
      exists i :: 0 <= i < |t.events| && SameRequest(config.storeId, t.events[i].payload, r) && HeadsInPlace(t, t.events[i], r)
  {
    hide Verified, Normalize, SameRequest, HeadsInPlace, Decide, TransactionSignature, EventSignature, TrustedAnchorMatches,
      HeadsStillAt;
    var p := Normalize(env, r).value;
    if Attempt(env, config, t, r).Retried? {
      var i := SessionLaws.RetriedReceipt(env, config, t, p, r.event);
      SignatureMeaning(env, config.storeId, t, i, r);
      PlaceOfHeads(env, t, t.events[i], r);
    }
    if i :| 0 <= i < |t.events| && SameRequest(config.storeId, t.events[i].payload, r) && HeadsInPlace(t, t.events[i], r) {
      SignatureMeaning(env, config.storeId, t, i, r);
      PlaceOfHeads(env, t, t.events[i], r);
      NormalizeOk(env, r);
      Resubmitted(env, config, t, i, p, r.event);
    }
  }

  /** The receipt of a retry is that event's: each head of the request once, where the event put
      it, in name order, and the identifiers the event inserted. */
  lemma {:induction false} RetryReceipt(env: Env, config: Config, t: Tables, r: Request) returns (i: nat)
    requires Attempt(env, config, t, r).Retried? && Verified(env, config.storeId, t)
    ensures i < |t.events| && SameRequest(config.storeId, t.events[i].payload, r) && HeadsInPlace(t, t.events[i], r)
    ensures var receipt := Attempt(env, config, t, r).receipt;
      && receipt.insertedRecordIds == t.events[i].payload.insertedRecordIds
      && (forall x :: x in receipt.heads <==>
            exists u :: u in r.headUpdates && x == (u.name, HeadState(u.newRecordId, t.events[i].eventId, i + 1)))
      && forall a, b :: 0 <= a < b < |receipt.heads| ==> receipt.heads[a].0 < receipt.heads[b].0
  {
    hide Verified, Normalize, SameRequest, HeadsInPlace, Decide, TransactionSignature, EventSignature, HeadsStillAt,
      ListChanges;
    var p := Normalize(env, r).value;
    i := SessionLaws.RetriedReceipt(env, config, t, p, r.event);
    SignatureMeaning(env, config.storeId, t, i, r);
    PlaceOfHeads(env, t, t.events[i], r);
    EventOrdered(env, config.storeId, t, i);
    var cs := ListChanges(p.changes);
    PlannedChanges(env, r, HeadChange(0, None, 0));
    forall u ensures u in cs <==> u in r.headUpdates {
      PlannedChanges(env, r, u);
    }
    ReceiptMembers(cs, t.events[i].eventId, i + 1);
  }

  lemma {:induction false} ReceiptMembers(cs: seq<HeadChange>, e: Id, s: int)
    ensures forall x :: x in ReceiptHeads(cs, e, s) <==> exists u :: u in cs && x == (u.name, HeadState(u.newRecordId, e, s))
    ensures ChangesSorted(cs) ==>
      forall a, b :: 0 <= a < b < |cs| ==> ReceiptHeads(cs, e, s)[a].0 < ReceiptHeads(cs, e, s)[b].0
  {
    var hs := ReceiptHeads(cs, e, s);
    forall x ensures x in hs <==> exists u :: u in cs && x == (u.name, HeadState(u.newRecordId, e, s)) {
      if x in hs {
        var i :| 0 <= i < |hs| && hs[i] == x;
        assert cs[i] in cs;
      }
      if u :| u in cs && x == (u.name, HeadState(u.newRecordId, e, s)) {
        var i :| 0 <= i < |cs| && cs[i] == u;
        assert hs[i] == x;
      }
    }
  }

  /** The event a commit appends holds each field of its request. */
  lemma {:induction false} AppendedHolds(env: Env, config: Config, t: Tables, r: Request)
    requires Attempt(env, config, t, r).Admitted? && DraftOk(env, r.event)
    ensures var t' := After(env, config, t, r);
      && |t'.events| == |t.events| + 1 && t.events <= t'.events
      && var row := t'.events[|t.events|]; var e := row.payload;
      && SameRequest(config.storeId, e, r)
      && row.decodes && row.eventId == env.eventIdOf(e)
      && row.sequence == e.sequence == |t.events| + 1
      && row.previousEventId == e.previousEventId == LastEventId(t)
      && !e.headUpdates.listForm
      && Ordered(e.recordIds) && Ordered(e.insertedRecordIds) && LocalsSorted(e.localValues)
      && ChangesSorted(e.headUpdates.changes)
      && (forall id :: id in e.insertedRecordIds <==> id in e.recordIds && id !in t.records)
  {
    hide Verified, Normalize, Decide, DraftOk, PlanOk, SameRequest, TransactionSignature, EventSignature;
    var p := Normalize(env, r).value;
    NormalizeOk(env, r);
    CommitKeepsVerified(env, config, t, p, r.event);
    CommitAppends(env, config.storeId, t, p, r.event);
    AppendedRow(env, config.storeId, t, p, r.event);
    OwnSignature(config.storeId, t, p, r.event);
    SignatureMeaning(env, config.storeId, After(env, config, t, r), |t.events|, r);
    EventOrdered(env, config.storeId, After(env, config, t, r), |t.events|);
  }

  lemma {:induction false} AppendedRow(env: Env, storeId: Text, t: Tables, p: Plan, d: EventDraft)
    ensures var t' := Committed(env, storeId, t, p, d);
      && |t'.events| == |t.events| + 1
      && var row := t'.events[|t.events|]; var e := row.payload;
      && e == BuildPayload(storeId, t, p, d)
      && row.decodes && row.eventId == env.eventIdOf(e)
      && row.sequence == e.sequence == |t.events| + 1 && row.previousEventId == e.previousEventId == LastEventId(t)
      && !e.headUpdates.listForm
      && (forall id :: id in e.insertedRecordIds <==> id in e.recordIds && id !in t.records)
  {
    hide ListChanges, ListLocals, SortSet, MoveHeads;
    SortSetOrdered(p.records.Keys);
    SortSetOrdered(p.records.Keys - t.records.Keys);
    var e := BuildPayload(storeId, t, p, d);
    assert forall id :: id in e.recordIds <==> id in Elems(e.recordIds);
    assert forall id :: id in e.insertedRecordIds <==> id in Elems(e.insertedRecordIds);
  }

  /** Whether a commit went in now or had gone in before, the head it reports was installed by an
      event that holds each field of the request. */
  lemma {:induction false} AnswerHolds(env: Env, config: Config, t: Tables, r: Request, t': Tables,
        o: Result<HeadState, StoreError>, u: HeadChange)
    requires Verified(env, config.storeId, t) && CommitStep(env, config, t, r, t', o)
    requires r.headUpdates == [u] && o.Ok?
    ensures o.value.recordId == u.newRecordId && 1 <= o.value.auditSequence <= |t'.events|
    ensures SameRequest(config.storeId, t'.events[o.value.auditSequence - 1].payload, r)
  {
    hide Verified, Normalize, Decide, DraftOk, SameRequest, TransactionSignature, EventSignature, HeadsStillAt, ListChanges,
      Committed;
    var p := Normalize(env, r).value;
    SessionLaws.SingleChange(env, r, u);
    if Attempt(env, config, t, r).Retried? {
      var i := SessionLaws.RetriedReceipt(env, config, t, p, r.event);
      SignatureMeaning(env, config.storeId, t, i, r);
      EventOrdered(env, config.storeId, t, i);
    } else {
      AppendedHolds(env, config, t, r);
    }
  }

  // ----- when a request is admitted -----

  /** Every head is still where the request expects it. */
  ghost predicate HeadsExpectedBy(t: Tables, r: Request) {
    forall u :: u in r.headUpdates ==> Get(t.heads, u.name) == u.expected
  }

  /** The identifier is that of a stored record or of one the request brings. */
  ghost predicate Available(t: Tables, r: Request, id: Id) {
    id in t.records || exists k :: 0 <= k < |r.records| && r.records[k].recordId == id
  }

  /** What the request refers to is there, no record it brings differs from a stored one, and its
      event has an identifier of its own. */
  ghost predicate FitsIn(env: Env, config: Config, t: Tables, r: Request)
    requires Normalize(env, r).Ok?
  {
    && (forall k :: 0 <= k < |r.records| && r.records[k].recordId in t.records ==>
          t.records[r.records[k].recordId] == r.records[k].content)
    && Available(t, r, r.event.subjectId)
    && (forall u :: u in r.headUpdates ==> Available(t, r, u.newRecordId))
    && forall i :: 0 <= i < |t.events| ==>
         t.events[i].eventId != env.eventIdOf(BuildPayload(config.storeId, t, Normalize(env, r).value, r.event))
  }

  lemma {:induction false} ExpectedMeans(env: Env, t: Tables, r: Request)
    requires Normalize(env, r).Ok?
    ensures HeadsExpected(t.heads, Normalize(env, r).value.changes) <==> HeadsExpectedBy(t, r)
  {
    hide NormalizeRecords, NormalizeLocals, ChangesByName;
    ChangesByNameOk(r.headUpdates);
    var changes := Normalize(env, r).value.changes;
    if HeadsExpectedBy(t, r) {
      forall name | name in changes ensures Get(t.heads, name) == changes[name].expected {
        assert changes[name] in r.headUpdates;
      }
    }
    if HeadsExpected(t.heads, changes) {
      forall u | u in r.headUpdates ensures Get(t.heads, u.name) == u.expected {
        assert u.name in changes && changes[u.name] == u;
      }
    }
  }

  lemma {:induction false} ContradictsMeans(env: Env, t: Tables, r: Request)
    requires Normalize(env, r).Ok?
    ensures !Contradicts(t.records, Normalize(env, r).value.records) <==>
      forall k :: 0 <= k < |r.records| && r.records[k].recordId in t.records ==>
        t.records[r.records[k].recordId] == r.records[k].content
  {
    hide NormalizeRecords, NormalizeLocals, NormalizeUpdates, ValidRecord;
    NormalizeRecordsOk(env, r.records);
    var m := NormalizeRecords(env, r.records).value;
    forall k | 0 <= k < |r.records| ensures r.records[k].recordId in m && m[r.records[k].recordId] == r.records[k].content {
      assert r.records[k] in r.records;
    }
    if forall k :: 0 <= k < |r.records| && r.records[k].recordId in t.records ==>
        t.records[r.records[k].recordId] == r.records[k].content {
      forall id | id in m && id in t.records ensures t.records[id] == m[id] {
        var k :| 0 <= k < |r.records| && r.records[k] == StoredRecord(id, m[id]);
      }
    }
  }

  lemma {:induction false} RefusedMeans(env: Env, config: Config, t: Tables, r: Request)
    requires Normalize(env, r).Ok?
    ensures var p := Normalize(env, r).value;
      !RowsRefused(t, p, r.event) && !EventIdTaken(env, config.storeId, t, p, r.event) <==> FitsIn(env, config, t, r)
  {
    hide Normalize, Contradicts, BuildPayload;
    var p := Normalize(env, r).value;
    ContradictsMeans(env, t, r);
    forall id ensures id in t.records || id in p.records <==> Available(t, r, id) {
      PlannedRecords(env, r, id);
    }
    forall u: HeadChange ensures u in r.headUpdates <==> u.name in p.changes && p.changes[u.name] == u {
      PlannedChange(env, r, u);
    }
    forall name | name in p.changes ensures p.changes[name] in r.headUpdates {
      PlannedName(env, r, name);
    }
  }

  lemma {:induction false} PlannedChange(env: Env, r: Request, u: HeadChange)
    requires Normalize(env, r).Ok?
    ensures var p := Normalize(env, r).value; u in r.headUpdates <==> u.name in p.changes && p.changes[u.name] == u
  {
    hide NormalizeRecords, NormalizeLocals, ChangesByName;
    ChangesByNameOk(r.headUpdates);
  }

  lemma {:induction false} PlannedName(env: Env, r: Request, name: Name)
    requires Normalize(env, r).Ok? && name in Normalize(env, r).value.changes
    ensures Normalize(env, r).value.changes[name] in r.headUpdates
  {
    hide NormalizeRecords, NormalizeLocals, ChangesByName;
    ChangesByNameOk(r.headUpdates);
  }

  lemma {:induction false} NoLocalsMeans(env: Env, r: Request)
    requires Normalize(env, r).Ok?
    ensures Normalize(env, r).value.locals == map[] <==> r.localValues == []
  {
    hide Normalize;
    var locals := Normalize(env, r).value.locals;
    if r.localValues != [] {
      var l := Drafts.LocalKey(r.localValues[0]);
      PlannedLocals(env, r, l);
      assert l in locals;
    } else if l :| l in locals {
      PlannedLocals(env, r, l);
    }
  }

  /** What one request meets, in the order of the checks: over verified tables that match the
      trusted anchor, and when no event answers it already, local values after the first event,
      then a head that has moved, then what contradicts the tables, and otherwise it goes through. */
  lemma {:induction false} DecidedExactly(env: Env, config: Config, t: Tables, r: Request)
    requires Verified(env, config.storeId, t) && TrustedAnchorMatches(config, t) && !config.readOnly
    requires Normalize(env, r).Ok?
    requires forall i :: 0 <= i < |t.events| && SameRequest(config.storeId, t.events[i].payload, r) ==>
      !HeadsInPlace(t, t.events[i], r)
    ensures var d := Attempt(env, config, t, r); var late := r.localValues != [] && t.events != [];
      && (d == Refused(LocalsAfterGenesis) <==> late)
      && (d == Refused(Conflict) <==> !late && !HeadsExpectedBy(t, r))
      && (d == Refused(Integrity) <==> !late && HeadsExpectedBy(t, r) && !FitsIn(env, config, t, r))
      && (d == Admitted <==> !late && HeadsExpectedBy(t, r) && FitsIn(env, config, t, r))
  {
    hide Verified, Normalize, SameRequest, HeadsInPlace, TransactionSignature, ExistingRetryReceipt, TrustedAnchorMatches,
      HeadsExpected, RowsRefused, EventIdTaken, HeadsExpectedBy, FitsIn;
    RetriedExactly(env, config, t, r);
    ExpectedMeans(env, t, r);
    RefusedMeans(env, config, t, r);
    NoLocalsMeans(env, r);
  }
}
