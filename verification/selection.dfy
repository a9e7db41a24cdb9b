/** Finding a checkpoint by walking parent links from the session head (api.py,
    `_select_checkpoint`), on any tables, consistent or not. */
module Selection {
  import opened Orders
  import opened Utf8
  import opened Store
  import opened StoreLaws
  import opened Session
  import opened History

  predicate Loadable(env: Env, t: Tables, id: Id) {
    id in t.records && ValidRecord(env, id, t.records[id]) && t.records[id].CheckpointContent?
  }

  function ParentOf(env: Env, t: Tables, id: Id): Option<Id>
    requires Loadable(env, t, id)
  {
    t.records[id].checkpoint.parentId
  }

  /** The n-th checkpoint on the chain of loadable records from this one. */
  ghost function Ancestor(env: Env, t: Tables, id: Id, n: nat): (r: Option<Id>)
    ensures r.Some? ==> Loadable(env, t, r.value)
  {
    if n == 0 then (if Loadable(env, t, id) then Some(id) else None)
    else
      match Ancestor(env, t, id, n - 1)
      case None => None
      case Some(a) =>
        match ParentOf(env, t, a)
        case None => None
        case Some(p) => if Loadable(env, t, p) then Some(p) else None
  }

  ghost predicate OnChain(env: Env, t: Tables, from: Id, id: Id) {
    exists n: nat :: Ancestor(env, t, from, n) == Some(id)
  }

  /** The record is there but is not a valid checkpoint. */
  predicate Unreadable(env: Env, t: Tables, id: Id) {
    id in t.records && !Loadable(env, t, id)
  }

  ghost predicate BreaksAt(env: Env, t: Tables, from: Id, n: nat) {
    var a := Ancestor(env, t, from, n);
    a.Some? && ParentOf(env, t, a.value).Some? && Unreadable(env, t, ParentOf(env, t, a.value).value)
  }

  /** The chain runs into an unreadable record. */
  ghost predicate Broken(env: Env, t: Tables, from: Id) {
    Unreadable(env, t, from) || exists n: nat :: BreaksAt(env, t, from, n)
  }

  lemma {:induction false} ChainEnds(env: Env, t: Tables, from: Id, n: nat, m: nat)
    requires Ancestor(env, t, from, n).None? && n <= m
    ensures Ancestor(env, t, from, m).None?
  {
    hide Loadable;
    if n < m {
      ChainEnds(env, t, from, n, m - 1);
    }
  }

  lemma {:induction false} ChainEarlier(env: Env, t: Tables, from: Id, n: nat, m: nat)
    requires Ancestor(env, t, from, n).Some? && m <= n
    ensures Ancestor(env, t, from, m).Some?
  {
    if Ancestor(env, t, from, m).None? {
      ChainEnds(env, t, from, m, n);
    }
  }

  /** Once a checkpoint recurs, the chain only visits those seen before. */
  lemma {:induction false} ChainLoops(env: Env, t: Tables, from: Id, j: nat, n: nat, m: nat) returns (k: nat)
    requires j < n && Ancestor(env, t, from, n).Some? && Ancestor(env, t, from, j) == Ancestor(env, t, from, n)
    ensures k < n && Ancestor(env, t, from, m).Some? && Ancestor(env, t, from, k) == Ancestor(env, t, from, m)
  {
    hide Loadable;
    if m < n {
      ChainEarlier(env, t, from, n, m);
      k := m;
    } else if m == n {
      k := j;
    } else {
      var before := ChainLoops(env, t, from, j, n, m - 1);
      if before + 1 < n {
        ChainEarlier(env, t, from, n, before + 1);
        k := before + 1;
      } else {
        k := j;
      }
    }
  }

  /** What a walk of n steps that has not met the selected checkpoint knows. */
  ghost predicate Walked(env: Env, t: Tables, from: Id, selected: Id, seen: set<Id>, n: nat) {
    && (forall k: nat :: k < n ==> Ancestor(env, t, from, k).Some? && Ancestor(env, t, from, k).value in seen)
    && (forall id :: id in seen ==> id in t.records && exists k: nat :: k < n && Ancestor(env, t, from, k) == Some(id))
    && selected !in seen
  }

  lemma {:induction false} NotFoundAtEnd(env: Env, t: Tables, from: Id, selected: Id, seen: set<Id>, n: nat)
    requires Walked(env, t, from, selected, seen, n) && Ancestor(env, t, from, n).None?
    requires !Unreadable(env, t, from) && (n > 0 ==> !BreaksAt(env, t, from, n - 1))
    ensures !OnChain(env, t, from, selected) && !Broken(env, t, from)
  {
    hide Ancestor, Unreadable;
    forall m: nat ensures Ancestor(env, t, from, m) != Some(selected) && !BreaksAt(env, t, from, m) {
      if m >= n {
        ChainEnds(env, t, from, n, m);
      } else if m + 1 < n {
        NextNotBroken(env, t, from, m);
      }
    }
  }

  lemma {:induction false} NextNotBroken(env: Env, t: Tables, from: Id, m: nat)
    requires Ancestor(env, t, from, m + 1).Some?
    ensures !BreaksAt(env, t, from, m)
  {
    hide ValidRecord;
  }

  lemma {:induction false} NotFoundInLoop(env: Env, t: Tables, from: Id, selected: Id, seen: set<Id>, n: nat)
    requires Walked(env, t, from, selected, seen, n)
    requires Ancestor(env, t, from, n).Some? && Ancestor(env, t, from, n).value in seen
    ensures !OnChain(env, t, from, selected) && !Broken(env, t, from)
  {
    hide Ancestor, Unreadable;
    var j: nat :| j < n && Ancestor(env, t, from, j) == Ancestor(env, t, from, n);
    forall m: nat ensures Ancestor(env, t, from, m) != Some(selected) && !BreaksAt(env, t, from, m) {
      var k := ChainLoops(env, t, from, j, n, m);
      var next := ChainLoops(env, t, from, j, n, m + 1);
      NextNotBroken(env, t, from, m);
    }
    HeadReadable(env, t, from, n);
  }

  lemma {:induction false} HeadReadable(env: Env, t: Tables, from: Id, n: nat)
    requires Ancestor(env, t, from, n).Some?
    ensures !Unreadable(env, t, from)
  {
    hide ValidRecord;
    ChainEarlier(env, t, from, n, 0);
  }

  lemma {:induction false} UnreadableNext(env: Env, t: Tables, from: Id, selected: Id, seen: set<Id>, n: nat)
    requires Walked(env, t, from, selected, seen, n + 1) && BreaksAt(env, t, from, n)
    ensures !OnChain(env, t, from, selected) && Broken(env, t, from)
  {
    assert Ancestor(env, t, from, n + 1).None?;
    forall m: nat ensures Ancestor(env, t, from, m) != Some(selected) {
      if m > n {
        ChainEnds(env, t, from, n + 1, m);
      }
    }
  }

  lemma {:induction false} FromHead(env: Env, t: Tables, from: Id, selected: Id)
    ensures Walked(env, t, from, selected, {}, 0)
    ensures Loadable(env, t, from) ==> Ancestor(env, t, from, 0) == Some(from)
    ensures !Loadable(env, t, from) ==> !OnChain(env, t, from, selected) && (Broken(env, t, from) <==> from in t.records)
  {
    hide Loadable, BreaksAt;
    if !Loadable(env, t, from) {
      forall m: nat ensures Ancestor(env, t, from, m).None? && !BreaksAt(env, t, from, m) {
        ChainEnds(env, t, from, 0, m);
        NoBreakPastEnd(env, t, from, m);
      }
    }
  }

  lemma {:induction false} NoBreakPastEnd(env: Env, t: Tables, from: Id, m: nat)
    requires Ancestor(env, t, from, m).None?
    ensures !BreaksAt(env, t, from, m)
  {
  }

  lemma {:induction false} Found(env: Env, t: Tables, from: Id, selected: Id, n: nat)
    requires Ancestor(env, t, from, n) == Some(selected)
    ensures OnChain(env, t, from, selected)
  {
  }

  lemma {:induction false} StepWalked(env: Env, t: Tables, from: Id, selected: Id, seen: set<Id>, n: nat)
    requires Walked(env, t, from, selected, seen, n)
    requires Ancestor(env, t, from, n).Some? && Ancestor(env, t, from, n).value != selected
    ensures Walked(env, t, from, selected, seen + {Ancestor(env, t, from, n).value}, n + 1)
  {
    hide Ancestor, ValidRecord;
  }

  lemma {:induction false} NextAncestor(env: Env, t: Tables, from: Id, n: nat)
    requires Ancestor(env, t, from, n).Some?
    ensures var parent := ParentOf(env, t, Ancestor(env, t, from, n).value);
      && (parent.None? ==> Ancestor(env, t, from, n + 1).None? && !BreaksAt(env, t, from, n))
      && (parent.Some? && Loadable(env, t, parent.value) ==> Ancestor(env, t, from, n + 1) == parent)
      && (parent.Some? && Unreadable(env, t, parent.value) ==> BreaksAt(env, t, from, n))
      && (parent.Some? && parent.value !in t.records ==> Ancestor(env, t, from, n + 1).None? && !BreaksAt(env, t, from, n))
  {
    hide ValidRecord;
  }

  lemma {:induction false} NotFoundPast(env: Env, t: Tables, from: Id, selected: Id, seen: set<Id>, n: nat)
    requires Walked(env, t, from, selected, seen, n + 1)
    requires Ancestor(env, t, from, n + 1).None? && !BreaksAt(env, t, from, n)
    ensures !OnChain(env, t, from, selected) && !Broken(env, t, from)
  {
    hide Ancestor, ValidRecord, Broken, OnChain, BreaksAt;
    HeadReadable(env, t, from, n);
    NotFoundAtEnd(env, t, from, selected, seen, n + 1);
  }

  /** The walk ends on every store, even one whose parent links form a loop. It returns the
      selected checkpoint exactly when that is on the chain of loadable records from the head;
      otherwise it fails exactly when the chain runs into an unreadable record. `None` selects
      the latest. */
  method SelectCheckpoint(env: Env, t: Tables, name: Name,
        selector: Option<Id>) returns (r: Result<Option<Checkpoint>, StoreError>)
    ensures name !in t.heads ==> r == Ok(None)
    ensures name in t.heads ==>
      var from := t.heads[name].recordId;
      var selected := if selector.None? then from else selector.value;
      if OnChain(env, t, from, selected) then Loadable(env, t, selected) && r == Ok(Some(t.records[selected].checkpoint))
      else if Broken(env, t, from) then r == Err(Integrity)
      else r == Ok(None)
  {
    hide Ancestor, Walked, Broken, OnChain, ValidRecord, BreaksAt;
    if name !in t.heads { return Ok(None); }
    var from := t.heads[name].recordId;
    var selected := if selector.None? then from else selector.value;
    FromHead(env, t, from, selected);
    var loaded := LoadCheckpoint(env, t, from);
    if loaded.Err? { return Err(Integrity); }
    var currentId, current := from, loaded.value;
    var seen: set<Id> := {};
    ghost var n: nat := 0;
    while current.Some?
      invariant current.Some? ==>
        && Walked(env, t, from, selected, seen, n) && Ancestor(env, t, from, n) == Some(currentId)
        && Loadable(env, t, currentId) && current.value == t.records[currentId].checkpoint
      invariant current.None? ==> !OnChain(env, t, from, selected) && !Broken(env, t, from)
      decreases t.records.Keys - seen, current.Some?
    {
      if currentId == selected {
        Found(env, t, from, selected, n);
        return Ok(current);
      }
      NextAncestor(env, t, from, n);
      if currentId in seen {
        NotFoundInLoop(env, t, from, selected, seen, n);
        return Ok(None);
      }
      StepWalked(env, t, from, selected, seen, n);
      seen := seen + {currentId};
      if current.value.parentId.None? {
        NotFoundPast(env, t, from, selected, seen, n);
        return Ok(None);
      }
      var parent := current.value.parentId.value;
      loaded := LoadCheckpoint(env, t, parent);
      if loaded.Err? {
        UnreadableNext(env, t, from, selected, seen, n);
        return Err(Integrity);
      }
      if loaded.value.None? {
        NotFoundPast(env, t, from, selected, seen, n);
      }
      currentId, current := parent, loaded.value;
      n := n + 1;
    }
    r := Ok(None);
  }

  // ----- in a session, selection finds exactly the session's checkpoints -----

  /** From the head of a session the chain visits the installed checkpoints, newest first, and
      then ends. */
  lemma {:induction false} ChainIsHistory(env: Env, storeId: Text, t: Tables, name: Name, m: nat)
    requires Verified(env, storeId, t) && Linked(t, name) && name in t.heads
    ensures var hs := Moves(t.events, name);
      Ancestor(env, t, t.heads[name].recordId, m) ==
        if m < |hs| then Some(HeadAt(t.events, name, hs[|hs| - 1 - m]).recordId) else None
  {
    hide LocalTableOk, ReplayLog, Moves, Linked, HeadAt, Changes, NewRecordFor, ValidRecord;
    AllLinear(env, storeId, t, name);
    var hs := Moves(t.events, name);
    if m == 0 {
      assert Linear(t.records, t.events, name, |hs| - 1);
    } else {
      ChainIsHistory(env, storeId, t, name, m - 1);
      if m <= |hs| {
        assert Linear(t.records, t.events, name, |hs| - m);
      }
    }
  }

  /** In every state of the session protocol a checkpoint is selectable exactly when the session
      once had it as its head, and the walk never fails. */
  lemma {:induction false} SelectsHistory(env: Env, storeId: Text, t: Tables, name: Name, id: Id)
    requires Verified(env, storeId, t) && Linked(t, name) && name in t.heads
    ensures var from := t.heads[name].recordId; var hs := Moves(t.events, name);
      && (OnChain(env, t, from, id) <==> exists k :: 0 <= k < |hs| && HeadAt(t.events, name, hs[k]).recordId == id)
      && !Broken(env, t, from)
  {
    hide Verified, Linked, Moves, HeadAt, Changes, NewRecordFor, ValidRecord, Ancestor;
    var from := t.heads[name].recordId;
    var hs := Moves(t.events, name);
    AllLinear(env, storeId, t, name);
    ChainIsHistory(env, storeId, t, name, 0);
    forall m: nat ensures !BreaksAt(env, t, from, m) {
      ChainIsHistory(env, storeId, t, name, m);
      ChainIsHistory(env, storeId, t, name, m + 1);
      if m + 1 < |hs| {
        NextNotBroken(env, t, from, m);
      } else if m + 1 == |hs| {
        assert Linear(t.records, t.events, name, 0);
      }
    }
    if OnChain(env, t, from, id) {
      var m: nat :| Ancestor(env, t, from, m) == Some(id);
      ChainIsHistory(env, storeId, t, name, m);
    }
    if k :| 0 <= k < |hs| && HeadAt(t.events, name, hs[k]).recordId == id {
      ChainIsHistory(env, storeId, t, name, |hs| - 1 - k);
    }
  }
}
