/** As many rounds as there are records always suffice, and no path produced on the way
    repeats a record. */
module FixedPoint {
  import opened Orders
  import opened Graph
  import opened Evidence
  import opened Invalidation
  import opened Propagation

  // ----- every value built is one the Invalidation constructor accepts -----

  ghost predicate PathReaches(records: Records, p: seq<Id>, u: Id) {
    forall x :: x in p && x in records ==> Reach(DependencyGraph(records), u, x)
  }

  /** Acceptable, about its own record, and with a path of records reachable from it. */
  ghost predicate SoundValue(records: Records, v: Evidence.Invalidation, u: Id) {
    Accepted(v) && v.evidenceId == u && PathReaches(records, v.transitivePath, u)
  }

  ghost predicate Sound(records: Records, values: Outcomes): (r: bool)
    ensures r ==> values.Keys == records.Keys
  {
    values.Keys == records.Keys && forall u :: u in records ==> SoundValue(records, values[u], u)
  }

  ghost predicate GoodPath(records: Records, p: seq<Id>, u: Id) {
    Distinct(p) && p != [] && p[0] == u && PathReaches(records, p, u)
  }

  lemma {:induction false} GoodOutcome(records: Records, u: Id, state: EvidenceState, code: Code, causes: seq<Id>,
        p: seq<Id>)
    requires state != Current && code != NoCode && GoodPath(records, p, u)
    ensures SoundValue(records, Outcome(u, state, code, causes, p), u)
  {
    hide SortSet, PathReaches;
  }

  lemma {:induction false} RecordReachesItself(records: Records, u: Id)
    requires u in records
    ensures Reach(DependencyGraph(records), u, u)
  {
    ReachRefl(DependencyGraph(records), u);
  }

  lemma {:induction false} InComponent(g: Adjacency, u: Id, x: Id)
    requires x in Component(g, u)
    ensures Reach(g, u, x)
  {
    hide Reach;
  }

  lemma {:induction false} HeadAndRest(u: Id, rest: seq<Id>)
    requires StrictlySorted(rest) && u !in rest
    ensures Distinct([u] + rest)
  {
    assert forall i :: 0 <= i < |rest| ==> rest[i] in rest;
  }

  lemma {:induction false} SoundCycle(records: Records, u: Id)
    requires u in records
    ensures SoundValue(records, CycleOutcome(records, u), u)
  {
    hide Reach, DependencyGraph, Dependencies, Within, Outcome, SoundValue, Component, Distinct, StrictlySorted;
    var g := DependencyGraph(records);
    RecordReachesItself(records, u);
    var c := Component(g, u);
    var rest := SortSet(c - {u});
    HeadAndRest(u, rest);
    forall x | x in [u] + rest && x in records ensures Reach(g, u, x) {
      if x in c { InComponent(g, u, x); }
    }
    GoodOutcome(records, u, Unknown, DependencyCycle, Within(Dependencies(records[u]), c), [u] + rest);
  }

  lemma {:induction false} SoundDirect(records: Records, v: Evidence.Invalidation, u: Id)
    requires u in records && DirectShape(v, u)
    ensures SoundValue(records, v, u)
  {
    ReachRefl(DependencyGraph(records), u);
  }

  lemma {:induction false} SoundBase(records: Records, base: Outcomes)
    requires IsBase(records, base)
    ensures Sound(records, base)
  {
    hide SoundValue, CycleOutcome, DirectShape, Cyclic;
    forall u | u in records ensures SoundValue(records, base[u], u) {
      if u in Cyclic(records) { SoundCycle(records, u); } else { SoundDirect(records, base[u], u); }
    }
  }

  lemma {:induction false} NoWayBack(records: Records, u: Id, d: Id)
    requires u in records && u !in Cyclic(records) && d in records && d in Dependencies(records[u])
    ensures var g := DependencyGraph(records); Reach(g, u, d) && Reach(g, d, d) && !Reach(g, d, u)
  {
    var g := DependencyGraph(records);
    DependencyEdges(records);
    assert Edge(g, u, d);
    ReachEdge(g, u, d);
    ReachRefl(g, d);
  }

  /** Prefixing a record off every cycle to a dependency's path never repeats a record. */
  lemma {:induction false} ExtendedPath(records: Records, values: Outcomes, u: Id, d: Id)
    requires Sound(records, values) && u in records && u !in Cyclic(records) && d in Dependencies(records[u])
    ensures GoodPath(records, DependencyPath(u, d, values), u)
  {
    hide Reach, DependencyGraph, Dependencies, Cyclic;
    var g := DependencyGraph(records);
    RecordReachesItself(records, u);
    if d in records {
      NoWayBack(records, u, d);
      assert SoundValue(records, values[d], d);
      var p := values[d].transitivePath;
      if p != [] {
        assert PathReaches(records, p, d);
        forall x | x in [u] + p && x in records ensures Reach(g, u, x) {
          if x in p { ReachTrans(g, u, d, x); }
        }
        assert DependencyPath(u, d, values) == [u] + p;
      }
    }
  }

  lemma {:induction false} BestPathGood(records: Records, values: Outcomes, u: Id, ds: seq<Id>)
    requires Sound(records, values) && u in records && u !in Cyclic(records)
    requires ds != [] && forall d :: d in ds ==> d in Dependencies(records[u])
    ensures GoodPath(records, LexMin(Paths(u, ds, values)), u)
  {
    var p := LexMin(Paths(u, ds, values));
    assert p in Paths(u, ds, values);
    hide Sound, GoodPath, DependencyPath, Cyclic, Dependencies, LexMin;
    var d :| d in ds && p == DependencyPath(u, d, values);
    ExtendedPath(records, values, u, d);
  }

  lemma {:induction false} SoundAt(records: Records, values: Outcomes, u: Id)
    requires Sound(records, values) && u in records
    ensures SoundValue(records, values[u], u)
  {
    hide SoundValue;
  }

  lemma {:induction false} SoundUpdate(records: Records, values: Outcomes, u: Id)
    requires Sound(records, values) && u in records
    ensures SoundValue(records, Update(records, Cyclic(records), values, u), u)
  {
    hide Sound, SoundValue, Dependencies, Cyclic, LexMin, Paths, Outcome, InvalidDependencies, UnknownDependencies,
      GoodPath;
    var ds := Dependencies(records[u]);
    var invalid := InvalidDependencies(values, ds);
    var unknown := UnknownDependencies(records, values, ds);
    SoundAt(records, values, u);
    if u !in Cyclic(records) && invalid != [] {
      BestPathGood(records, values, u, invalid);
      GoodOutcome(records, u, Invalidated, DependencyInvalid, invalid, LexMin(Paths(u, invalid, values)));
    }
    if u !in Cyclic(records) && unknown != [] {
      BestPathGood(records, values, u, unknown);
      GoodOutcome(records, u, Unknown, DependencyUnknown, unknown, LexMin(Paths(u, unknown, values)));
    }
  }

  lemma {:induction false} SoundRounds(records: Records, base: Outcomes, k: nat)
    requires IsBase(records, base)
    ensures Sound(records, Rounds(records, base, k))
  {
    hide SoundValue, IsBase, Update, Cyclic;
    if k == 0 {
      SoundBase(records, base);
    } else {
      SoundRounds(records, base, k - 1);
      var values := Rounds(records, base, k - 1);
      forall u | u in records ensures SoundValue(records, Round(records, values)[u], u) {
        SoundUpdate(records, values, u);
      }
    }
  }

  // ----- the round bound -----

  /** Records off every cycle, each a required dependency of the one before. */
  ghost predicate OffCycleWalk(records: Records, p: seq<Id>) {
    IsWalk(DependencyGraph(records), p) && forall i :: 0 <= i < |p| ==> p[i] in records && p[i] !in Cyclic(records)
  }

  lemma {:induction false} DistinctBounded(p: seq<Id>, s: set<Id>)
    requires Distinct(p) && forall i :: 0 <= i < |p| ==> p[i] in s
    ensures |p| <= |s|
  {
    if p != [] {
      var n := |p| - 1;
      DistinctBounded(p[..n], s - {p[n]});
    }
  }

  lemma {:induction false} OffCycleDistinct(records: Records, p: seq<Id>)
    requires OffCycleWalk(records, p)
    ensures Distinct(p) && |p| <= |records|
  {
    hide Reach, DependencyGraph;
    var g := DependencyGraph(records);
    forall i, j | 0 <= i < j < |p| ensures p[i] != p[j] {
      assert Edge(g, p[i], p[i + 1]);
      WalkSegment(g, p, i + 1, j);
      assert p[i] == p[j] ==> OnCycle(g, p[i]);
    }
    DistinctBounded(p, records.Keys);
  }

  lemma {:induction false} PrependWalk(records: Records, u: Id, d: Id, p: seq<Id>)
    requires u in records && u !in Cyclic(records) && d in Dependencies(records[u])
    requires OffCycleWalk(records, p) && p[0] == d
    ensures OffCycleWalk(records, [u] + p)
  {
    hide Cyclic;
    DependencyEdges(records);
    hide DependencyGraph;
    var g, q := DependencyGraph(records), [u] + p;
    forall i | 0 <= i < |q| - 1 ensures Edge(g, q[i], q[i + 1]) {
      if i > 0 { assert Edge(g, p[i - 1], p[i - 1 + 1]); }
    }
  }

  /** What an update that leaves a record current, or first makes it unknown, tells. */
  lemma {:induction false} UpdateInverse(records: Records, cyclic: set<Id>, values: Outcomes, u: Id)
    requires u in records && u in values && u !in cyclic
    ensures var ds := Dependencies(records[u]);
      var after := Update(records, cyclic, values, u);
      && (after.state == Current ==>
            (after == values[u] && InvalidDependencies(values, ds) == [] && UnknownDependencies(records, values, ds) == []))
      && (after.state == Unknown && values[u].state != Unknown ==>
            (values[u].state == Current && InvalidDependencies(values, ds) == []
             && UnknownDependencies(records, values, ds) != []
             && after == UnknownOutcome(u, UnknownDependencies(records, values, ds), values)))
      && (after != values[u] ==>
            (values[u].state != Invalidated && after.state != Current
             && (after.state == Unknown ==> values[u].state == Current)))
  {
    hide LexMin, Paths, SortSet, Dependencies, InvalidDependencies, UnknownDependencies;
  }

  /** A dependency that was no cause of doubt before and is one now has just become unknown. */
  lemma {:induction false} NewDoubt(records: Records, before: Outcomes, values: Outcomes, ds: seq<Id>) returns (d: Id)
    requires before.Keys == values.Keys == records.Keys
    requires InvalidDependencies(before, ds) == [] && UnknownDependencies(records, before, ds) == []
    requires UnknownDependencies(records, values, ds) != []
    ensures d in ds && d in records && before[d].state == Current && values[d].state == Unknown
  {
    d := UnknownDependencies(records, values, ds)[0];
    assert d in UnknownDependencies(records, values, ds);
    assert !UnknownDependency(records, before, d) && !InvalidDependency(before, d);
  }

  lemma {:induction false} NewlyUnknown(records: Records, base: Outcomes, k: nat, u: Id) returns (p: seq<Id>)
    requires IsBase(records, base) && u in records
    requires Rounds(records, base, k)[u].state == Current && Rounds(records, base, k + 1)[u].state == Unknown
    ensures OffCycleWalk(records, p) && p[0] == u && |p| == k + 1
  {
    hide IsBase, Rounds, Update, Cyclic, Dependencies, OffCycleWalk, InvalidDependencies, UnknownDependencies,
      UnknownOutcome;
    if u in Cyclic(records) { CyclicNotInvalid(records, base, k, u); }
    RoundsStep(records, base, k, u);
    UpdateInverse(records, Cyclic(records), Rounds(records, base, k), u);
    SingletonWalk(records, u);
    p := [u];
    if k > 0 {
      var before, values := Rounds(records, base, k - 1), Rounds(records, base, k);
      RoundsStep(records, base, k - 1, u);
      UpdateInverse(records, Cyclic(records), before, u);
      var d := NewDoubt(records, before, values, Dependencies(records[u]));
      var q := NewlyUnknown(records, base, k - 1, d);
      PrependWalk(records, u, d, q);
      p := [u] + q;
    }
  }

  lemma {:induction false} SingletonWalk(records: Records, u: Id)
    requires u in records && u !in Cyclic(records)
    ensures OffCycleWalk(records, [u])
  {
  }

  lemma {:induction false} ChainIsWalk(records: Records, base: Outcomes, p: seq<Id>, u: Id)
    requires records.Keys == base.Keys && Chain(records, base, p, u)
    ensures OffCycleWalk(records, p)
  {
    hide Cyclic, DependencyGraph;
  }

  lemma {:induction false} InvalidAtRecord(records: Records, base: Outcomes, k: nat, u: Id)
    requires IsBase(records, base) && u in records
    ensures InvalidAfter(records, base, Rounds(records, base, k), k, u)
  {
    hide InvalidAfter, IsBase, Rounds;
    InvalidAfterRounds(records, base, k);
  }

  /** No record changes after round n when there are n records. */
  lemma {:induction false} LastChange(records: Records, base: Outcomes, k: nat, u: Id)
    requires IsBase(records, base) && u in records
    requires Rounds(records, base, k + 1)[u] != Rounds(records, base, k)[u]
    ensures k + 1 <= |records|
  {
    hide IsBase, Rounds, Update, Cyclic, Dependencies, OffCycleWalk, InvalidDependencies, UnknownDependencies, Chain,
      BestChain;
    var values := Rounds(records, base, k);
    RoundsStep(records, base, k, u);
    if u in Cyclic(records) { FrozenUpdate(records, Cyclic(records), values, u); }
    UpdateInverse(records, Cyclic(records), values, u);
    if Rounds(records, base, k + 1)[u].state == Invalidated {
      InvalidAtRecord(records, base, k, u);
      InvalidAtRecord(records, base, k + 1, u);
      var p :| Chain(records, base, p, u) && |p| <= k + 2;
      assert |p| == k + 2;
      ChainIsWalk(records, base, p, u);
      OffCycleDistinct(records, p);
    } else {
      var p := NewlyUnknown(records, base, k, u);
      OffCycleDistinct(records, p);
    }
  }

  ghost function Final(records: Records, base: Outcomes): Outcomes
    requires records.Keys == base.Keys
  {
    Rounds(records, base, |records|)
  }

  /** One more round changes nothing. */
  lemma {:induction false} OneMoreRound(records: Records, base: Outcomes)
    requires IsBase(records, base)
    ensures Round(records, Final(records, base)) == Final(records, base)
  {
    hide IsBase, Round;
    var n := |records|;
    var a, b := Rounds(records, base, n + 1), Rounds(records, base, n);
    forall u | u in records ensures a[u] == b[u] {
      if a[u] != b[u] { LastChange(records, base, n, u); }
    }
    assert a == b;
  }

  /** Once a round changes nothing, no later round does: stopping early is stopping for good. */
  lemma {:induction false} Stable(records: Records, base: Outcomes, k: nat, m: nat)
    requires records.Keys == base.Keys && k <= m
    requires Round(records, Rounds(records, base, k)) == Rounds(records, base, k)
    ensures Rounds(records, base, m) == Rounds(records, base, k)
    decreases m - k
  {
    hide Round;
    if k < m {
      Stable(records, base, k, m - 1);
    }
  }
}
