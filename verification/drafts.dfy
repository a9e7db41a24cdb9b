/** The audit event draft (store/base.py, `AuditEventDraft`) and what a request is normalised to
    (store/sqlite.py): what a transaction may take for granted. */
module Drafts {
  import opened Orders
  import opened Utf8
  import opened Canonical
  import opened RoundTrip
  import opened AuditDetails
  import Store
  import LogicalTime

  // ----- drafts carry details that replay verification accepts -----

  lemma {:induction false} FieldNormal(nfc: Text -> Text, m: Member, depth: nat)
    requires NormalizeField(nfc, m, depth).Ok? && Normal(nfc, m.value)
    ensures Normal(nfc, NormalizeField(nfc, m, depth).value)
    decreases m, 2
  {
    hide ListKey, SortByKey, IsDigest, Vocabulary, NormalizeEntries, LexLe;
    match Vocabulary(m.key)
    case Some(Digests) => SortByKeyStrict(nfc, m.value.items); ItemsNormal(nfc, m.value.items, SortByKey(nfc, m.value.items));
    case Some(RecordIds) => SortByKeyStrict(nfc, m.value.items); ItemsNormal(nfc, m.value.items, SortByKey(nfc, m.value.items));
    case Some(Items) =>
      var entries := NormalizeEntries(nfc, m.value.items, depth + 1).value;
      EntriesNormal(nfc, m.value.items, depth + 1);
      SortByKeyStrict(nfc, entries);
      ItemsNormal(nfc, entries, SortByKey(nfc, entries));
    case _ =>
  }

  lemma {:induction false} ItemsNormal(nfc: Text -> Text, vs: seq<Json>, r: seq<Json>)
    requires (forall i :: 0 <= i < |vs| ==> Normal(nfc, vs[i])) && forall x :: x in r <==> x in vs
    ensures forall i :: 0 <= i < |r| ==> Normal(nfc, r[i])
  {
    hide Normal;
    forall i | 0 <= i < |r| ensures Normal(nfc, r[i]) {
      assert r[i] in vs;
    }
  }

  lemma {:induction false} EntriesNormal(nfc: Text -> Text, vs: seq<Json>, depth: nat)
    requires NormalizeEntries(nfc, vs, depth).Ok? && forall i :: 0 <= i < |vs| ==> Normal(nfc, vs[i])
    ensures var r := NormalizeEntries(nfc, vs, depth).value; forall i :: 0 <= i < |r| ==> Normal(nfc, r[i])
    decreases vs, 0
  {
    hide NormalizeDetails, Normal;
    if vs != [] {
      EntriesNormal(nfc, vs[..|vs| - 1], depth);
      DetailsNormal(nfc, vs[|vs| - 1], depth);
    }
  }

  lemma {:induction false} FieldsNormal(nfc: Text -> Text, ms: seq<Member>, depth: nat)
    requires NormalizeFields(nfc, ms, depth).Ok? && forall i :: 0 <= i < |ms| ==> Normal(nfc, ms[i].value)
    ensures var r := NormalizeFields(nfc, ms, depth).value; forall i :: 0 <= i < |r| ==> Normal(nfc, r[i].value)
    decreases ms, 0
  {
    hide NormalizeField, Normal;
    if ms != [] {
      FieldsNormal(nfc, ms[..|ms| - 1], depth);
      FieldNormal(nfc, ms[|ms| - 1], depth);
    }
  }

  /** Normalising details keeps a value in canonical form. */
  lemma {:induction false} DetailsNormal(nfc: Text -> Text, v: Json, depth: nat)
    requires NormalizeDetails(nfc, v, depth).Ok? && Normal(nfc, v)
    ensures Normal(nfc, NormalizeDetails(nfc, v, depth).value)
    decreases v, 1
  {
    hide NormalizeField, NormalizeFields, SortMembers, LexLe, Vocabulary, UniqueKeys, StrictKeys, NormalText;
    var fields := NormalizeFields(nfc, v.members, depth).value;
    FieldsNormal(nfc, v.members, depth);
    SameKeysUnique(v.members, fields);
    SortMembersStrict(fields);
    var r := SortMembers(fields);
    forall i | 0 <= i < |r| ensures NormalText(nfc, r[i].key) && Normal(nfc, r[i].value) {
      assert r[i] in fields;
      var j :| 0 <= j < |fields| && fields[j] == r[i];
      assert fields[j].key == v.members[j].key;
    }
  }

  /** The constructor: snapshot the details, normalise them, and keep their canonical form. */
  function Construct(env: Store.Env, kind: Text, subjectId: Store.Id, logicalTime: Text,
        details: Json): Option<Store.EventDraft> {
    if !PublicComponent(kind) || LogicalTime.Validate(logicalTime).Err? || !details.Obj? then None
    else
      match CanonicalBytes(env.nfc, details)
      case Err(_) => None
      case Ok(data) =>
        match CanonicalLoads(env.nfc, data)
        case Err(_) => None
        case Ok(snapshot) =>
          match NormalizeDetails(env.nfc, snapshot, 0)
          case Err(_) => None
          case Ok(normalized) =>
            match CanonicalBytes(env.nfc, normalized)
            case Err(_) => None
            case Ok(stored) =>
              match CanonicalLoads(env.nfc, stored)
              case Err(_) => None
              case Ok(kept) => Some(Store.EventDraft(kind, subjectId, logicalTime, kept))
  }

  /** Every draft that can be constructed passes replay verification's checks on kind, time and
      details, and keeping it cannot fail once its details are in the vocabulary. */
  lemma {:induction false} DraftConstructed(env: Store.Env, kind: Text, subjectId: Store.Id, logicalTime: Text,
        details: Json)
    requires NfcLaws(env.nfc)
    ensures var d := Construct(env, kind, subjectId, logicalTime, details);
      && (d.Some? <==>
            && PublicComponent(kind) && LogicalTime.Validate(logicalTime).Ok? && details.Obj?
            && Canon(env.nfc, details).Ok? && NormalizeDetails(env.nfc, Canon(env.nfc, details).value, 0).Ok?)
      && (d.Some? ==> Store.DraftOk(env, d.value) && d.value.details == NormalizeDetails(env.nfc, Canon(env.nfc, details).value, 0).value)
  {
    hide NormalizeDetails, CanonicalLoads, Normal, Dump, PublicComponent, LogicalTime.Validate, Normalize, SortKeys,
      NfcLaws;
    if details.Obj? && Canon(env.nfc, details).Ok? {
      LoadsAfterBytes(env.nfc, details);
      var snapshot := Canon(env.nfc, details).value;
      CanonNormal(env.nfc, details);
      if NormalizeDetails(env.nfc, snapshot, 0).Ok? {
        var normalized := NormalizeDetails(env.nfc, snapshot, 0).value;
        DetailsNormal(env.nfc, snapshot, 0);
        DetailsFixed(env.nfc, snapshot, 0);
        NormalizedIsObject(env.nfc, snapshot);
        NormalFixed(env.nfc, normalized);
        LoadsAfterBytes(env.nfc, normalized);
      }
    }
  }

  lemma {:induction false} NormalizedIsObject(nfc: Text -> Text, v: Json)
    requires NormalizeDetails(nfc, v, 0).Ok?
    ensures NormalizeDetails(nfc, v, 0).value.Obj?
  {
    hide NormalizeFields, SortMembers;
  }

  // ----- which requests are planned -----

  predicate DistinctIds(rs: seq<Store.StoredRecord>) {
    forall i, j :: 0 <= i < j < |rs| ==> rs[i].recordId != rs[j].recordId
  }

  predicate LocalDraftOk(env: Store.Env, v: Store.LocalDraft) {
    v.callerApproved && v.kind != Store.OtherKind && env.digestOf(v.value) == v.digest
  }

  function LocalKey(v: Store.LocalDraft): Store.LocalId {
    Store.LocalId(v.digest, v.kind)
  }

  predicate DistinctLocals(vs: seq<Store.LocalDraft>) {
    forall i, j :: 0 <= i < j < |vs| ==> LocalKey(vs[i]) != LocalKey(vs[j])
  }

  predicate DistinctNames(us: seq<Store.HeadChange>) {
    forall i, j :: 0 <= i < j < |us| ==> us[i].name != us[j].name
  }

  lemma {:induction false} RecordsPlanned(env: Store.Env, rs: seq<Store.StoredRecord>)
    ensures Store.NormalizeRecords(env, rs).Ok? <==>
      (forall i :: 0 <= i < |rs| ==> Store.ValidRecord(env, rs[i].recordId, rs[i].content)) && DistinctIds(rs)
    ensures Store.NormalizeRecords(env, rs).Ok? ==>
      forall id :: id in Store.NormalizeRecords(env, rs).value <==> exists i :: 0 <= i < |rs| && rs[i].recordId == id
  {
    hide Store.ValidRecord;
    if rs != [] {
      var n := |rs| - 1;
      RecordsPlanned(env, rs[..n]);
      assert rs == rs[..n] + [rs[n]];
    }
  }

  lemma {:induction false} LocalsKept(env: Store.Env, vs: seq<Store.LocalDraft>)
    requires Store.NormalizeLocals(env, vs).Ok?
    ensures forall l :: l in Store.NormalizeLocals(env, vs).value <==> exists i :: 0 <= i < |vs| && LocalKey(vs[i]) == l
  {
    if vs != [] {
      var n := |vs| - 1;
      LocalsKept(env, vs[..n]);
      assert vs == vs[..n] + [vs[n]];
    }
  }

  lemma {:induction false} LocalsNext(env: Store.Env, vs: seq<Store.LocalDraft>)
    requires vs != []
    ensures var n := |vs| - 1;
      Store.NormalizeLocals(env, vs).Ok? <==>
        && Store.NormalizeLocals(env, vs[..n]).Ok? && LocalDraftOk(env, vs[n])
        && LocalKey(vs[n]) !in Store.NormalizeLocals(env, vs[..n]).value
  {
  }

  lemma {:induction false} LocalsPlanned(env: Store.Env, vs: seq<Store.LocalDraft>)
    ensures Store.NormalizeLocals(env, vs).Ok? <==>
      (forall i :: 0 <= i < |vs| ==> LocalDraftOk(env, vs[i])) && DistinctLocals(vs)
  {
    hide Store.NormalizeLocals, LocalDraftOk, LocalKey;
    if vs == [] {
      NoLocals(env, vs);
    } else {
      var n := |vs| - 1;
      LocalsPlanned(env, vs[..n]);
      LocalsNext(env, vs);
      if Store.NormalizeLocals(env, vs[..n]).Ok? { LocalsKept(env, vs[..n]); }
      assert vs == vs[..n] + [vs[n]];
    }
  }

  lemma {:induction false} NoLocals(env: Store.Env, vs: seq<Store.LocalDraft>)
    requires vs == []
    ensures Store.NormalizeLocals(env, vs).Ok?
  {
  }

  lemma {:induction false} NamesPlanned(us: seq<Store.HeadChange>)
    ensures Store.ChangesByName(us).Ok? <==> DistinctNames(us)
    ensures Store.ChangesByName(us).Ok? ==>
      forall name :: name in Store.ChangesByName(us).value <==> exists i :: 0 <= i < |us| && us[i].name == name
  {
    if us != [] {
      var n := |us| - 1;
      NamesPlanned(us[..n]);
      assert us == us[..n] + [us[n]];
    }
  }

  /** A request is planned exactly when each record has its own identifier, each local value is
      approved, of an allowed kind and has its digest, nothing is supplied twice, and at least
      one head is updated, each once. */
  lemma {:induction false} PlannedExactly(env: Store.Env, r: Store.Request)
    ensures Store.Normalize(env, r).Ok? <==>
      && (forall i :: 0 <= i < |r.records| ==> Store.ValidRecord(env, r.records[i].recordId, r.records[i].content))
      && DistinctIds(r.records)
      && (forall i :: 0 <= i < |r.localValues| ==> LocalDraftOk(env, r.localValues[i])) && DistinctLocals(r.localValues)
      && r.headUpdates != [] && DistinctNames(r.headUpdates)
  {
    hide Store.ValidRecord, Store.NormalizeRecords, Store.NormalizeLocals, Store.ChangesByName, DistinctIds,
      DistinctLocals, DistinctNames,
      LocalDraftOk;
    RecordsPlanned(env, r.records);
    LocalsPlanned(env, r.localValues);
    NamesPlanned(r.headUpdates);
  }
}
