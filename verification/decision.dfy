/** The declarative answer: what the propagated outcome of every record is, in terms of
    dependency paths alone, with the exact witness path and causes it carries. */
module Decision {
  import opened Orders
  import opened Evidence
  import opened Invalidation
  import opened Propagation
  import opened FixedPoint

  ghost predicate Reachable(records: Records, base: Outcomes, u: Id)
    requires records.Keys == base.Keys
  {
    exists p :: Chain(records, base, p, u)
  }

  // ----- direct causes of an invalidated record -----

  /** The invalidated dependencies one step nearer to a directly invalidated record. */
  ghost function Nearer(records: Records, values: Outcomes, u: Id): set<Id>
    requires u in records && u in values
  {
    set d | d in Dependencies(records[u]) && InvalidDependency(values, d)
      && |values[d].transitivePath| + 1 == |values[u].transitivePath|
  }

  ghost predicate CausesNearer(records: Records, base: Outcomes, values: Outcomes, u: Id)
    requires u in records && u in values && u in base
  {
    values[u].state == Invalidated && base[u].state != Invalidated ==>
      values[u].code == DependencyInvalid && values[u].directCauseIds == SortSet(Nearer(records, values, u))
  }

  lemma {:induction false} PathLengths(records: Records, base: Outcomes, k: nat, d: Id)
    requires IsBase(records, base) && d in records
    ensures var before, after := Rounds(records, base, k)[d], Rounds(records, base, k + 1)[d];
      && (before.state == Invalidated ==> after == before && |before.transitivePath| <= k + 1)
      && (before.state != Invalidated && after.state == Invalidated ==> |after.transitivePath| == k + 2)
  {
    hide IsBase, Rounds, Chain, Update;
    InvalidAtRecord(records, base, k, d);
    InvalidAtRecord(records, base, k + 1, d);
    RoundsStep(records, base, k, d);
    if Rounds(records, base, k)[d].state == Invalidated {
      FrozenUpdate(records, Cyclic(records), Rounds(records, base, k), d);
    } else if Rounds(records, base, k + 1)[d].state == Invalidated {
      var p := Rounds(records, base, k + 1)[d].transitivePath;
      assert Chain(records, base, p, d);
    }
  }

  lemma {:induction false} CausesStep(records: Records, base: Outcomes, k: nat, u: Id)
    requires IsBase(records, base) && u in records
    requires CausesNearer(records, base, Rounds(records, base, k), u)
    ensures CausesNearer(records, base, Rounds(records, base, k + 1), u)
  {
    hide IsBase, Rounds, Update, Cyclic, Dependencies, InvalidDependencies, LexMin, Paths, InvalidOutcome, SortSet;
    var before, after := Rounds(records, base, k), Rounds(records, base, k + 1);
    var ds := Dependencies(records[u]);
    RoundsStep(records, base, k, u);
    PathLengths(records, base, k, u);
    forall d | d in records
      ensures before[d].state == Invalidated ==> after[d] == before[d] && |before[d].transitivePath| <= k + 1
      ensures before[d].state != Invalidated && after[d].state == Invalidated ==> |after[d].transitivePath| == k + 2
    {
      PathLengths(records, base, k, d);
    }
    if before[u].state == Invalidated {
      assert Nearer(records, after, u) == Nearer(records, before, u);
    } else if after[u].state == Invalidated {
      if u in Cyclic(records) { FrozenUpdate(records, Cyclic(records), before, u); }
      UpdateCases(records, Cyclic(records), before, u);
      var invalid := InvalidDependencies(before, ds);
      InvalidOutcomeFields(u, invalid, before);
      InvalidLengths(records, base, k, u);
      assert Elems(invalid) == Nearer(records, after, u);
    }
  }

  lemma {:induction false} InvalidLengths(records: Records, base: Outcomes, k: nat, u: Id)
    requires IsBase(records, base) && u in records && u !in Cyclic(records)
    requires Rounds(records, base, k)[u].state != Invalidated
    ensures forall d :: d in Dependencies(records[u]) && InvalidDependency(Rounds(records, base, k), d) ==>
      |Rounds(records, base, k)[d].transitivePath| == k + 1
  {
    hide IsBase, Rounds, Cyclic, InvalidAfter, Dependencies, InvalidDependencies, LexMin, Paths;
    InvalidAfterRounds(records, base, k);
    var values := Rounds(records, base, k);
    if InvalidDependencies(values, Dependencies(records[u])) != [] {
      NewlyInvalid(records, base, values, k, u);
    } else {
      assert forall d :: d in Dependencies(records[u]) && InvalidDependency(values, d) ==>
        d in InvalidDependencies(values, Dependencies(records[u]));
    }
  }

  lemma {:induction false} CausesRounds(records: Records, base: Outcomes, k: nat, u: Id)
    requires IsBase(records, base) && u in records
    ensures CausesNearer(records, base, Rounds(records, base, k), u)
  {
    hide IsBase, CausesNearer, Rounds;
    if k == 0 {
      CausesFirst(records, base, u);
    } else {
      CausesRounds(records, base, k - 1, u);
      CausesStep(records, base, k - 1, u);
    }
  }

  lemma {:induction false} CausesFirst(records: Records, base: Outcomes, u: Id)
    requires records.Keys == base.Keys && u in records
    ensures CausesNearer(records, base, Rounds(records, base, 0), u)
  {
    assert Rounds(records, base, 0) == base;
  }

  // ----- invalidated records -----

  lemma {:induction false} LaterRounds(records: Records, base: Outcomes, m: nat)
    requires IsBase(records, base) && |records| <= m
    ensures Rounds(records, base, m) == Final(records, base)
  {
    hide IsBase, Round, Rounds;
    OneMoreRound(records, base);
    Stable(records, base, |records|, m);
  }

  /** A record ends up invalidated exactly when a dependency path through records off every
      cycle leads from it to a directly invalidated record. Its path is then the least in
      lexicographic order among the shortest such paths, and its causes are exactly the
      dependencies one step nearer. */
  lemma {:induction false} FinallyInvalidated(records: Records, base: Outcomes, u: Id)
    requires IsBase(records, base) && u in records
    ensures Final(records, base)[u].state == Invalidated <==> Reachable(records, base, u)
    ensures Final(records, base)[u].state == Invalidated ==>
      BestChain(records, base, Final(records, base)[u].transitivePath, u)
    ensures CausesNearer(records, base, Final(records, base), u)
  {
    hide IsBase, Rounds, Chain, CausesNearer, BestChain;
    CausesRounds(records, base, |records|, u);
    InvalidAtRecord(records, base, |records|, u);
    if Reachable(records, base, u) {
      var p :| Chain(records, base, p, u);
      var m := |p| + |records|;
      LaterRounds(records, base, m);
      InvalidAtRecord(records, base, m, u);
      assert HasChain(records, base, u, m + 1);
    }
  }
}
