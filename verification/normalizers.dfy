/** The normalising loops as they run: dictionaries filled item by item, stopping at the first
    refusal (kernel/canonical.py, store/sqlite.py, store/base.py). */
module Normalizers {
  import opened Orders
  import opened Utf8
  import C = Canonical
  import A = AuditDetails
  import S = Store

  // ----- canonical values -----

  lemma {:induction false} ItemsStop(nfc: Text -> Text, items: seq<C.Json>, i: nat)
    requires i <= |items| && C.NormalizeItems(nfc, items[..i]).Err?
    ensures C.NormalizeItems(nfc, items) == C.NormalizeItems(nfc, items[..i])
  {
    hide C.Normalize;
    if i < |items| {
      assert items[..|items| - 1][..i] == items[..i];
      ItemsStop(nfc, items[..|items| - 1], i);
    } else {
      assert items[..i] == items;
    }
  }

  lemma {:induction false} ItemsNext(nfc: Text -> Text, items: seq<C.Json>, i: nat)
    requires i < |items| && C.NormalizeItems(nfc, items[..i]).Ok?
    ensures C.NormalizeItems(nfc, items[..i + 1]) ==
      match C.Normalize(nfc, items[i])
      case Err(e) => Err(e)
      case Ok(item) => Ok(C.NormalizeItems(nfc, items[..i]).value + [item])
  {
    hide C.Normalize;
    assert items[..i + 1][..i] == items[..i];
  }

  lemma {:induction false} MembersStop(nfc: Text -> Text, ms: seq<C.Member>, i: nat)
    requires i <= |ms| && C.NormalizeMembers(nfc, ms[..i]).Err?
    ensures C.NormalizeMembers(nfc, ms) == C.NormalizeMembers(nfc, ms[..i])
  {
    hide C.Normalize, C.NormalizeString;
    if i < |ms| {
      assert ms[..|ms| - 1][..i] == ms[..i];
      MembersStop(nfc, ms[..|ms| - 1], i);
    } else {
      assert ms[..i] == ms;
    }
  }

  lemma {:induction false} MembersNext(nfc: Text -> Text, ms: seq<C.Member>, i: nat)
    requires i < |ms| && C.NormalizeMembers(nfc, ms[..i]).Ok?
    ensures var before := C.NormalizeMembers(nfc, ms[..i]).value;
      C.NormalizeMembers(nfc, ms[..i + 1]) ==
        match C.NormalizeString(nfc, ms[i].key)
        case Err(e) => Err(e)
        case Ok(key) =>
          if C.HasKey(before, key) then Err(C.KeyCollision)
          else
            match C.Normalize(nfc, ms[i].value)
            case Err(e) => Err(e)
            case Ok(value) => Ok(before + [C.Member(key, value)])
  {
    hide C.Normalize, C.NormalizeString, C.HasKey;
    assert ms[..i + 1][..i] == ms[..i];
  }

  lemma {:induction false} NothingNormalized(nfc: Text -> Text, items: seq<C.Json>, ms: seq<C.Member>)
    ensures C.NormalizeItems(nfc, items[..0]) == Ok([]) && C.NormalizeMembers(nfc, ms[..0]) == Ok([])
  {
  }

  /** `_normalize`. */
  method NormalizeValue(nfc: Text -> Text, v: C.Json) returns (r: Result<C.Json, C.JsonError>)
    ensures r == C.Normalize(nfc, v)
    decreases v
  {
    hide C.NormalizeItems, C.NormalizeMembers, C.HasKey, C.NormalizeString;
    match v {
      case Null => r := Ok(v);
      case Boolean(_) => r := Ok(v);
      case Integer(_) => r := Ok(v);
      case Float(_) => r := Err(C.FloatingPoint);
      case Str(s) =>
        match C.NormalizeString(nfc, s) {
          case Ok(t) => r := Ok(C.Str(t));
          case Err(e) => r := Err(e);
        }
      case Arr(items) =>
        NothingNormalized(nfc, items, []);
        var result: seq<C.Json> := [];
        var i := 0;
        while i < |items|
          invariant 0 <= i <= |items| && C.NormalizeItems(nfc, items[..i]) == Ok(result)
        {
          ItemsNext(nfc, items, i);
          var item := NormalizeValue(nfc, items[i]);
          if item.Err? {
            ItemsStop(nfc, items, i + 1);
            return Err(item.error);
          }
          result := result + [item.value];
          i := i + 1;
        }
        assert items[..i] == items;
        r := Ok(C.Arr(result));
      case Obj(members) =>
        NothingNormalized(nfc, [], members);
        var result: seq<C.Member> := [];
        var i := 0;
        while i < |members|
          invariant 0 <= i <= |members| && C.NormalizeMembers(nfc, members[..i]) == Ok(result)
        {
          MembersNext(nfc, members, i);
          var key := C.NormalizeString(nfc, members[i].key);
          if key.Err? {
            MembersStop(nfc, members, i + 1);
            return Err(key.error);
          }
          if C.HasKey(result, key.value) {
            MembersStop(nfc, members, i + 1);
            return Err(C.KeyCollision);
          }
          var value := NormalizeValue(nfc, members[i].value);
          if value.Err? {
            MembersStop(nfc, members, i + 1);
            return Err(value.error);
          }
          result := result + [C.Member(key.value, value.value)];
          i := i + 1;
        }
        assert members[..i] == members;
        r := Ok(C.Obj(result));
    }
  }

  // ----- the parts of a request -----

  lemma {:induction false} RecordsStop(env: S.Env, rs: seq<S.StoredRecord>, i: nat)
    requires i <= |rs| && S.NormalizeRecords(env, rs[..i]).Err?
    ensures S.NormalizeRecords(env, rs) == S.NormalizeRecords(env, rs[..i])
  {
    if i < |rs| {
      assert rs[..|rs| - 1][..i] == rs[..i];
      RecordsStop(env, rs[..|rs| - 1], i);
    } else {
      assert rs[..i] == rs;
    }
  }

  lemma {:induction false} RecordsNext(env: S.Env, rs: seq<S.StoredRecord>, i: nat)
    requires i < |rs| && S.NormalizeRecords(env, rs[..i]).Ok?
    ensures var byId := S.NormalizeRecords(env, rs[..i]).value; var record := rs[i];
      S.NormalizeRecords(env, rs[..i + 1]) ==
        if !S.ValidRecord(env, record.recordId, record.content) then Err(S.Integrity)
        else if record.recordId in byId then Err(if byId[record.recordId] != record.content then S.Integrity else S.Validation)
        else Ok(byId[record.recordId := record.content])
  {
    hide S.ValidRecord;
    assert rs[..i + 1][..i] == rs[..i];
  }

  lemma {:induction false} NothingPlanned(env: S.Env, rs: seq<S.StoredRecord>, vs: seq<S.LocalDraft>,
        us: seq<S.HeadChange>)
    ensures S.NormalizeRecords(env, rs[..0]) == Ok(map[]) && S.NormalizeLocals(env, vs[..0]) == Ok(map[])
    ensures S.ChangesByName(us[..0]) == Ok(map[])
  {
  }

  /** `_normalize_records`. */
  method NormalizeRecords(env: S.Env, rs: seq<S.StoredRecord>) returns (r: Result<map<S.Id, S.Content>, S.StoreError>)
    ensures r == S.NormalizeRecords(env, rs)
  {
    hide S.NormalizeRecords, S.ValidRecord;
    NothingPlanned(env, rs, [], []);
    var byId: map<S.Id, S.Content> := map[];
    var i := 0;
    while i < |rs|
      invariant 0 <= i <= |rs| && S.NormalizeRecords(env, rs[..i]) == Ok(byId)
    {
      RecordsNext(env, rs, i);
      var record := rs[i];
      if !S.ValidRecord(env, record.recordId, record.content) {
        RecordsStop(env, rs, i + 1);
        return Err(S.Integrity);
      }
      if record.recordId in byId {
        RecordsStop(env, rs, i + 1);
        return Err(if byId[record.recordId] != record.content then S.Integrity else S.Validation);
      }
      byId := byId[record.recordId := record.content];
      i := i + 1;
    }
    assert rs[..i] == rs;
    r := Ok(byId);
  }

  lemma {:induction false} LocalsStop(env: S.Env, vs: seq<S.LocalDraft>, i: nat)
    requires i <= |vs| && S.NormalizeLocals(env, vs[..i]).Err?
    ensures S.NormalizeLocals(env, vs) == S.NormalizeLocals(env, vs[..i])
  {
    if i < |vs| {
      assert vs[..|vs| - 1][..i] == vs[..i];
      LocalsStop(env, vs[..|vs| - 1], i);
    } else {
      assert vs[..i] == vs;
    }
  }

  lemma {:induction false} LocalsNext(env: S.Env, vs: seq<S.LocalDraft>, i: nat)
    requires i < |vs| && S.NormalizeLocals(env, vs[..i]).Ok?
    ensures var byId := S.NormalizeLocals(env, vs[..i]).value; var v := vs[i]; var id := S.LocalId(v.digest, v.kind);
      S.NormalizeLocals(env, vs[..i + 1]) ==
        if !v.callerApproved || v.kind == S.OtherKind || env.digestOf(v.value) != v.digest then Err(S.Validation)
        else if id in byId then Err(if byId[id] != v.value then S.Integrity else S.Validation)
        else Ok(byId[id := v.value])
  {
    assert vs[..i + 1][..i] == vs[..i];
  }

  /** `_normalize_local_values`. */
  method NormalizeLocalValues(env: S.Env,
        vs: seq<S.LocalDraft>) returns (r: Result<map<S.LocalId, Bytes>, S.StoreError>)
    ensures r == S.NormalizeLocals(env, vs)
  {
    hide S.NormalizeLocals;
    NothingPlanned(env, [], vs, []);
    var byIdentity: map<S.LocalId, Bytes> := map[];
    var i := 0;
    while i < |vs|
      invariant 0 <= i <= |vs| && S.NormalizeLocals(env, vs[..i]) == Ok(byIdentity)
    {
      LocalsNext(env, vs, i);
      var v := vs[i];
      if !v.callerApproved || v.kind == S.OtherKind || env.digestOf(v.value) != v.digest {
        LocalsStop(env, vs, i + 1);
        return Err(S.Validation);
      }
      var identity := S.LocalId(v.digest, v.kind);
      if identity in byIdentity {
        LocalsStop(env, vs, i + 1);
        return Err(if byIdentity[identity] != v.value then S.Integrity else S.Validation);
      }
      byIdentity := byIdentity[identity := v.value];
      i := i + 1;
    }
    assert vs[..i] == vs;
    r := Ok(byIdentity);
  }

  /** The three normalisations, in the order a transaction makes them. */
  method NormalizeRequest(env: S.Env, r: S.Request) returns (plan: Result<S.Plan, S.StoreError>)
    ensures plan == S.Normalize(env, r)
  {
    hide S.NormalizeRecords, S.NormalizeLocals, S.ChangesByName;
    var records := NormalizeRecords(env, r.records);
    if records.Err? { return Err(records.error); }
    var locals := NormalizeLocalValues(env, r.localValues);
    if locals.Err? { return Err(locals.error); }
    if r.headUpdates == [] { return Err(S.Validation); }
    var changes := S.ChangesByName(r.headUpdates);
    if changes.Err? { return Err(changes.error); }
    plan := Ok(S.Plan(records.value, locals.value, changes.value));
  }

  // ----- audit details -----

  lemma {:induction false} FieldsStop(nfc: Text -> Text, ms: seq<C.Member>, depth: nat, i: nat)
    requires i <= |ms| && A.NormalizeFields(nfc, ms[..i], depth).Err?
    ensures A.NormalizeFields(nfc, ms, depth) == A.NormalizeFields(nfc, ms[..i], depth)
  {
    hide A.NormalizeField;
    if i < |ms| {
      assert ms[..|ms| - 1][..i] == ms[..i];
      FieldsStop(nfc, ms[..|ms| - 1], depth, i);
    } else {
      assert ms[..i] == ms;
    }
  }

  lemma {:induction false} FieldsNext(nfc: Text -> Text, ms: seq<C.Member>, depth: nat, i: nat)
    requires i < |ms| && A.NormalizeFields(nfc, ms[..i], depth).Ok?
    ensures A.NormalizeFields(nfc, ms[..i + 1], depth) ==
      match A.NormalizeField(nfc, ms[i], depth)
      case Err(e) => Err(e)
      case Ok(value) => Ok(A.NormalizeFields(nfc, ms[..i], depth).value + [C.Member(ms[i].key, value)])
  {
    hide A.NormalizeField;
    assert ms[..i + 1][..i] == ms[..i];
  }

  lemma {:induction false} EntriesStop(nfc: Text -> Text, vs: seq<C.Json>, depth: nat, i: nat)
    requires i <= |vs| && A.NormalizeEntries(nfc, vs[..i], depth).Err?
    ensures A.NormalizeEntries(nfc, vs, depth) == A.NormalizeEntries(nfc, vs[..i], depth)
  {
    hide A.NormalizeDetails;
    if i < |vs| {
      assert vs[..|vs| - 1][..i] == vs[..i];
      EntriesStop(nfc, vs[..|vs| - 1], depth, i);
    } else {
      assert vs[..i] == vs;
    }
  }

  lemma {:induction false} EntriesNext(nfc: Text -> Text, vs: seq<C.Json>, depth: nat, i: nat)
    requires i < |vs| && A.NormalizeEntries(nfc, vs[..i], depth).Ok?
    ensures A.NormalizeEntries(nfc, vs[..i + 1], depth) ==
      match A.NormalizeDetails(nfc, vs[i], depth)
      case Err(e) => Err(e)
      case Ok(entry) => Ok(A.NormalizeEntries(nfc, vs[..i], depth).value + [entry])
  {
    hide A.NormalizeDetails;
    assert vs[..i + 1][..i] == vs[..i];
  }

  lemma {:induction false} NothingDetailed(nfc: Text -> Text, ms: seq<C.Member>, vs: seq<C.Json>, depth: nat)
    ensures A.NormalizeFields(nfc, ms[..0], depth) == Ok([]) && A.NormalizeEntries(nfc, vs[..0], depth) == Ok([])
  {
  }

  method NormalizeItemList(nfc: Text -> Text, vs: seq<C.Json>,
        depth: nat) returns (r: Result<seq<C.Json>, A.DetailError>)
    ensures r == A.NormalizeEntries(nfc, vs, depth)
    decreases vs, 0
  {
    hide A.NormalizeDetails, A.NormalizeEntries;
    NothingDetailed(nfc, [], vs, depth);
    var entries: seq<C.Json> := [];
    var i := 0;
    while i < |vs|
      invariant 0 <= i <= |vs| && A.NormalizeEntries(nfc, vs[..i], depth) == Ok(entries)
    {
      EntriesNext(nfc, vs, depth, i);
      var entry := NormalizeAuditDetails(nfc, vs[i], depth);
      if entry.Err? {
        EntriesStop(nfc, vs, depth, i + 1);
        return Err(entry.error);
      }
      entries := entries + [entry.value];
      i := i + 1;
    }
    assert vs[..i] == vs;
    r := Ok(entries);
  }

  /** `_normalize_audit_details`. */
  method NormalizeAuditDetails(nfc: Text -> Text, v: C.Json, depth: nat) returns (r: Result<C.Json, A.DetailError>)
    ensures r == A.NormalizeDetails(nfc, v, depth)
    decreases v, 1
  {
    hide A.NormalizeFields, A.NormalizeField, A.Vocabulary, C.UniqueKeys, C.SortMembers;
    if depth > A.MAX_DEPTH || !v.Obj? || !C.UniqueKeys(v.members) || |v.members| > A.MAX_ITEMS {
      return Err(A.StoreValidationError);
    }
    if exists i :: 0 <= i < |v.members| && A.Vocabulary(v.members[i].key).None? { return Err(A.StoreValidationError); }
    var ms := v.members;
    NothingDetailed(nfc, ms, [], depth);
    var fields: seq<C.Member> := [];
    var i := 0;
    while i < |ms|
      invariant 0 <= i <= |ms| && A.NormalizeFields(nfc, ms[..i], depth) == Ok(fields)
    {
      FieldsNext(nfc, ms, depth, i);
      var value := NormalizeDetail(nfc, ms[i], depth);
      if value.Err? {
        FieldsStop(nfc, ms, depth, i + 1);
        return Err(value.error);
      }
      fields := fields + [C.Member(ms[i].key, value.value)];
      i := i + 1;
    }
    assert ms[..i] == ms;
    r := Ok(C.Obj(C.SortMembers(fields)));
  }

  method NormalizeDetail(nfc: Text -> Text, m: C.Member, depth: nat) returns (r: Result<C.Json, A.DetailError>)
    ensures r == A.NormalizeField(nfc, m, depth)
    decreases m, 2
  {
    hide A.NormalizeEntries, A.Vocabulary, A.SortByKey, A.DistinctKeys, A.NormalizeDigests, A.IsDigest;
    if A.Vocabulary(m.key) == Some(A.Items) {
      if !m.value.Arr? || |m.value.items| > A.MAX_ITEMS { return Err(A.StoreValidationError); }
      var entries := NormalizeItemList(nfc, m.value.items, depth + 1);
      if entries.Err? { return Err(entries.error); }
      if !A.DistinctKeys(nfc, entries.value) { return Err(A.StoreValidationError); }
      r := Ok(C.Arr(A.SortByKey(nfc, entries.value)));
    } else {
      r := A.NormalizeField(nfc, m, depth);
    }
  }
}
