/** Rounds of propagation (kernel/invalidation.py): one Jacobi round as a function, the
    capped loop as a method, and what the rounds have decided after k steps. */
module Propagation {
  import opened Orders
  import opened Graph
  import opened Evidence
  import opened Invalidation

  // ----- one round -----

  predicate InvalidDependency(values: Outcomes, d: Id) {
    d in values && values[d].state == Invalidated
  }

  predicate UnknownDependency(records: Records, values: Outcomes, d: Id) {
    !InvalidDependency(values, d) &&
    (d !in values || values[d].state == Unknown || d !in records || records[d].authority == Advisory)
  }

  function InvalidDependencies(values: Outcomes, ds: seq<Id>): (r: seq<Id>)
    ensures forall d :: d in r <==> d in ds && InvalidDependency(values, d)
  {
    if ds == [] then []
    else
      var d := ds[|ds| - 1];
      assert ds == ds[..|ds| - 1] + [d];
      InvalidDependencies(values, ds[..|ds| - 1]) + (if InvalidDependency(values, d) then [d] else [])
  }

  function UnknownDependencies(records: Records, values: Outcomes, ds: seq<Id>): (r: seq<Id>)
    ensures forall d :: d in r <==> d in ds && UnknownDependency(records, values, d)
  {
    if ds == [] then []
    else
      var d := ds[|ds| - 1];
      assert ds == ds[..|ds| - 1] + [d];
      UnknownDependencies(records, values, ds[..|ds| - 1])
        + (if UnknownDependency(records, values, d) then [d] else [])
  }

  /** `_dependency_path`. */
  function DependencyPath(u: Id, d: Id, values: Outcomes): seq<Id> {
    if d !in values || values[d].transitivePath == [] then [u, d] else [u] + values[d].transitivePath
  }

  function Paths(u: Id, ds: seq<Id>, values: Outcomes): (r: seq<seq<Id>>)
    ensures |r| == |ds|
    ensures forall p :: p in r <==> exists d :: d in ds && p == DependencyPath(u, d, values)
  {
    var r := seq(|ds|, i requires 0 <= i < |ds| => DependencyPath(u, ds[i], values));
    assert forall i :: 0 <= i < |ds| ==> r[i] in r && r[i] == DependencyPath(u, ds[i], values);
    r
  }

  function InvalidOutcome(u: Id, ds: seq<Id>, values: Outcomes): Evidence.Invalidation
    requires ds != []
  {
    Outcome(u, Invalidated, DependencyInvalid, ds, LexMin(Paths(u, ds, values)))
  }

  function UnknownOutcome(u: Id, ds: seq<Id>, values: Outcomes): Evidence.Invalidation
    requires ds != []
  {
    Outcome(u, Unknown, DependencyUnknown, ds, LexMin(Paths(u, ds, values)))
  }

  /** The value a record has after one round that starts from `values`. */
  function Update(records: Records, cyclic: set<Id>, values: Outcomes, u: Id): Evidence.Invalidation
    requires u in records && u in values
  {
    var invalid := InvalidDependencies(values, Dependencies(records[u]));
    var unknown := UnknownDependencies(records, values, Dependencies(records[u]));
    if u in cyclic || values[u].state == Invalidated then values[u]
    else if invalid != [] then InvalidOutcome(u, invalid, values)
    else if values[u].state == Unknown || unknown == [] then values[u]
    else UnknownOutcome(u, unknown, values)
  }

  ghost function Round(records: Records, values: Outcomes): Outcomes
    requires records.Keys == values.Keys
  {
    map u | u in records :: Update(records, Cyclic(records), values, u)
  }

  ghost function Rounds(records: Records, base: Outcomes, k: nat): (r: Outcomes)
    requires records.Keys == base.Keys
    ensures r.Keys == records.Keys
  {
    if k == 0 then base else Round(records, Rounds(records, base, k - 1))
  }

  /** What the loop starts from: cycles already marked, everything else as observed directly. */
  ghost predicate IsBase(records: Records, base: Outcomes): (r: bool)
    ensures r ==> base.Keys == records.Keys
  {
    base.Keys == records.Keys &&
    forall u :: u in records ==>
      if u in Cyclic(records) then base[u] == CycleOutcome(records, u) else DirectShape(base[u], u)
  }

  // ----- invalidated records: shortest, then lexicographically least, witness -----

  /** A dependency path through records off every cycle to a directly invalidated one. */
  ghost predicate Chain(records: Records, base: Outcomes, p: seq<Id>, u: Id)
    requires records.Keys == base.Keys
  {
    && IsWalk(DependencyGraph(records), p) && p[0] == u
    && (forall i :: 0 <= i < |p| ==> p[i] in records && p[i] !in Cyclic(records))
    && base[p[|p| - 1]].state == Invalidated
  }

  ghost predicate Better(p: seq<Id>, q: seq<Id>) {
    |p| < |q| || (|p| == |q| && LexLe(p, q))
  }

  ghost predicate BestChain(records: Records, base: Outcomes, p: seq<Id>, u: Id)
    requires records.Keys == base.Keys
  {
    Chain(records, base, p, u) && forall q :: Chain(records, base, q, u) ==> Better(p, q)
  }

  ghost predicate HasChain(records: Records, base: Outcomes, u: Id, length: nat)
    requires records.Keys == base.Keys
  {
    exists p :: Chain(records, base, p, u) && |p| <= length
  }

  /** After k rounds a record is invalidated exactly when a chain of at most k + 1 records
      starts at it, and then it carries the best chain there is. */
  ghost predicate InvalidAfter(records: Records, base: Outcomes, values: Outcomes, k: nat, u: Id)
    requires records.Keys == base.Keys && u in values
  {
    && (values[u].state == Invalidated <==> HasChain(records, base, u, k + 1))
    && (values[u].state == Invalidated ==>
          BestChain(records, base, values[u].transitivePath, u) && |values[u].transitivePath| <= k + 1)
  }

  lemma {:induction false} ExtendChain(records: Records, base: Outcomes, u: Id, p: seq<Id>, d: Id)
    requires records.Keys == base.Keys
    requires u in records && u !in Cyclic(records) && d in Dependencies(records[u])
    requires Chain(records, base, p, d)
    ensures Chain(records, base, [u] + p, u)
  {
    DependencyEdges(records);
    var g, q := DependencyGraph(records), [u] + p;
    forall i | 0 <= i < |q| - 1 ensures Edge(g, q[i], q[i + 1]) {
      if i > 0 { assert Edge(g, p[i - 1], p[i - 1 + 1]); }
    }
  }

  lemma {:induction false} ShortenChain(records: Records, base: Outcomes, q: seq<Id>, u: Id)
    requires records.Keys == base.Keys
    requires Chain(records, base, q, u) && |q| > 1
    ensures Chain(records, base, q[1..], q[1])
    ensures q[1] in Dependencies(records[u]) && u !in Cyclic(records)
  {
    DependencyEdges(records);
    var g := DependencyGraph(records);
    assert Edge(g, q[0], q[0 + 1]);
    forall i | 0 <= i < |q[1..]| - 1 ensures Edge(g, q[1..][i], q[1..][i + 1]) {
      assert Edge(g, q[i + 1], q[i + 1 + 1]);
    }
  }

  lemma {:induction false} InvalidInitially(records: Records, base: Outcomes, u: Id)
    requires IsBase(records, base) && u in records
    ensures InvalidAfter(records, base, base, 0, u)
  {
    if base[u].state == Invalidated {
      assert Chain(records, base, [u], u);
      forall q | Chain(records, base, q, u) ensures Better([u], q) {
        if |q| == 1 {
          assert q == [u];
          LexRefl(q);
        }
      }
    }
    forall p | Chain(records, base, p, u) && |p| <= 1 ensures base[u].state == Invalidated {
      assert |p| == 1;
    }
  }

  lemma {:induction false} ChainStart(records: Records, base: Outcomes, p: seq<Id>, u: Id)
    requires records.Keys == base.Keys && Chain(records, base, p, u)
    ensures p != [] && p[0] == u && u in records && u !in Cyclic(records)
  {
    hide Cyclic;
  }

  lemma {:induction false} CyclicNoChain(records: Records, base: Outcomes, u: Id, length: nat)
    requires records.Keys == base.Keys && u in Cyclic(records)
    ensures !HasChain(records, base, u, length)
  {
    hide Cyclic, Chain;
    forall p ensures !Chain(records, base, p, u) {
      if Chain(records, base, p, u) { ChainStart(records, base, p, u); }
    }
  }

  /** When a record not yet invalidated meets invalidated dependencies, and only then, one
      round invalidates it. */
  lemma {:induction false} UpdateCases(records: Records, cyclic: set<Id>, values: Outcomes, u: Id)
    requires u in records && u in values && u !in cyclic && values[u].state != Invalidated
    ensures var invalid := InvalidDependencies(values, Dependencies(records[u]));
      if invalid != [] then Update(records, cyclic, values, u) == InvalidOutcome(u, invalid, values)
      else Update(records, cyclic, values, u).state != Invalidated
  {
    hide Outcome, Dependencies, InvalidDependencies, UnknownDependencies, InvalidOutcome;
    assert forall ds :: ds != [] ==> UnknownOutcome(u, ds, values).state == Unknown by {
      forall ds | ds != [] ensures UnknownOutcome(u, ds, values).state == Unknown {
        UnknownOutcomeState(u, ds, values);
      }
    }
  }

  lemma {:induction false} UnknownOutcomeState(u: Id, ds: seq<Id>, values: Outcomes)
    requires ds != []
    ensures UnknownOutcome(u, ds, values).state == Unknown
  {
    hide LexMin, Paths, SortSet;
  }

  /** A second record on a chain is an invalidated dependency. */
  lemma {:induction false} ChainDependency(records: Records, base: Outcomes, values: Outcomes, k: nat, u: Id,
        q: seq<Id>)
    requires records.Keys == base.Keys == values.Keys
    requires forall d :: d in records ==> InvalidAfter(records, base, values, k, d)
    requires u in records && values[u].state != Invalidated
    requires Chain(records, base, q, u) && |q| <= k + 2
    ensures |q| == k + 2 && q[1] in values && InvalidAfter(records, base, values, k, q[1])
    ensures Chain(records, base, q[1..], q[1])
    ensures q[1] in InvalidDependencies(values, Dependencies(records[u]))
  {
    assert |q| > k + 1 by {
      assert InvalidAfter(records, base, values, k, u);
      assert !HasChain(records, base, u, k + 1);
    }
    ShortenChain(records, base, q, u);
    ChainStart(records, base, q[1..], q[1]);
    assert InvalidAfter(records, base, values, k, q[1]);
    hide Chain;
    assert HasChain(records, base, q[1], k + 1);
  }

  lemma {:induction false} InvalidStep(records: Records, base: Outcomes, values: Outcomes, k: nat, u: Id)
    requires records.Keys == base.Keys == values.Keys && u in records
    requires forall d :: d in records ==> InvalidAfter(records, base, values, k, d)
    requires u in Cyclic(records) ==> values[u].state != Invalidated
    ensures InvalidAfter(records, base, Round(records, values), k + 1, u)
  {
    var after := Round(records, values);
    assert after[u] == Update(records, Cyclic(records), values, u);
    hide Cyclic, Chain, Update, Round, Dependencies, BestChain;
    if values[u].state == Invalidated {
      FrozenUpdate(records, Cyclic(records), values, u);
      var p :| Chain(records, base, p, u) && |p| <= k + 1;
      assert HasChain(records, base, u, k + 2);
    } else if u in Cyclic(records) {
      FrozenUpdate(records, Cyclic(records), values, u);
      CyclicNoChain(records, base, u, k + 2);
    } else {
      UpdateCases(records, Cyclic(records), values, u);
      var invalid := InvalidDependencies(values, Dependencies(records[u]));
      if invalid != [] {
        NewlyInvalid(records, base, values, k, u);
        InvalidOutcomeFields(u, invalid, values);
        assert HasChain(records, base, u, k + 2) by {
          assert Chain(records, base, LexMin(Paths(u, invalid, values)), u);
        }
      } else {
        if HasChain(records, base, u, k + 2) {
          var p :| Chain(records, base, p, u) && |p| <= k + 2;
          ChainDependency(records, base, values, k, u, p);
          assert false;
        }
      }
    }
  }

  lemma {:induction false} InvalidOutcomeFields(u: Id, ds: seq<Id>, values: Outcomes)
    requires ds != []
    ensures var o := InvalidOutcome(u, ds, values);
      o.state == Invalidated && o.code == DependencyInvalid && o.directCauseIds == SortSet(Elems(ds))
      && o.transitivePath == LexMin(Paths(u, ds, values))
  {
    hide LexMin, Paths, SortSet;
  }

  lemma {:induction false} NewlyInvalid(records: Records, base: Outcomes, values: Outcomes, k: nat, u: Id)
    requires records.Keys == base.Keys == values.Keys && u in records && u !in Cyclic(records)
    requires forall d :: d in records ==> InvalidAfter(records, base, values, k, d)
    requires values[u].state != Invalidated
    requires InvalidDependencies(values, Dependencies(records[u])) != []
    ensures var p := LexMin(Paths(u, InvalidDependencies(values, Dependencies(records[u])), values));
      BestChain(records, base, p, u) && |p| == k + 2
    ensures forall d :: d in Dependencies(records[u]) && InvalidDependency(values, d) ==>
      |values[d].transitivePath| == k + 1
  {
    var ds := Dependencies(records[u]);
    var invalid := InvalidDependencies(values, ds);
    var p := LexMin(Paths(u, invalid, values));
    hide Cyclic, Chain, Dependencies, InvalidDependencies, Paths, DependencyPath, InvalidAfter, LexMin;
    forall d | d in ds && InvalidDependency(values, d)
      ensures |values[d].transitivePath| == k + 1 && Chain(records, base, DependencyPath(u, d, values), u)
      ensures |DependencyPath(u, d, values)| == k + 2
    {
      ExtendInvalid(records, base, values, k, u, d);
    }
    assert p in Paths(u, invalid, values);
    forall q | Chain(records, base, q, u) ensures Better(p, q) {
      LeastPath(records, base, values, k, u, q);
    }
  }

  lemma {:induction false} LeastPath(records: Records, base: Outcomes, values: Outcomes, k: nat, u: Id, q: seq<Id>)
    requires records.Keys == base.Keys == values.Keys && u in records && u !in Cyclic(records)
    requires forall d :: d in records ==> InvalidAfter(records, base, values, k, d)
    requires values[u].state != Invalidated && Chain(records, base, q, u)
    requires InvalidDependencies(values, Dependencies(records[u])) != []
    ensures var p := LexMin(Paths(u, InvalidDependencies(values, Dependencies(records[u])), values));
      |q| > k + 2 || (|q| == k + 2 && LexLe(p, q))
  {
    hide Cyclic, Chain, Dependencies, LexLe;
    if |q| <= k + 2 {
      ChainDependency(records, base, values, k, u, q);
      ChainStart(records, base, q, u);
      var e := q[1];
      assert e in records;
      ViaDependency(records, base, values, k, u, e, q);
      hide InvalidAfter, DependencyPath, InvalidDependencies;
      var paths := Paths(u, InvalidDependencies(values, Dependencies(records[u])), values);
      assert DependencyPath(u, e, values) in paths;
      LexTransitive(LexMin(paths), DependencyPath(u, e, values), q);
    }
  }

  lemma {:induction false} ViaDependency(records: Records, base: Outcomes, values: Outcomes, k: nat,
                                         u: Id, e: Id, q: seq<Id>)
    requires records.Keys == base.Keys == values.Keys && u in records && u !in Cyclic(records) && e in records
    requires InvalidAfter(records, base, values, k, u) && values[u].state != Invalidated
    requires InvalidAfter(records, base, values, k, e)
    requires e in InvalidDependencies(values, Dependencies(records[u]))
    requires |q| == k + 2 && q[0] == u && Chain(records, base, q[1..], e)
    ensures LexLe(DependencyPath(u, e, values), q)
  {
    hide Cyclic, Chain, Dependencies, LexLe, HasChain;
    ExtendInvalid(records, base, values, k, u, e);
    assert Better(values[e].transitivePath, q[1..]);
    LexCons(u, values[e].transitivePath, q[1..]);
    assert q == [u] + q[1..];
  }

  lemma {:induction false} ExtendInvalid(records: Records, base: Outcomes, values: Outcomes, k: nat, u: Id, d: Id)
    requires records.Keys == base.Keys == values.Keys && u in records && u !in Cyclic(records)
    requires InvalidAfter(records, base, values, k, u) && values[u].state != Invalidated
    requires d in Dependencies(records[u]) && InvalidDependency(values, d)
    requires InvalidAfter(records, base, values, k, d)
    ensures DependencyPath(u, d, values) == [u] + values[d].transitivePath
    ensures |values[d].transitivePath| == k + 1
    ensures Chain(records, base, DependencyPath(u, d, values), u)
  {
    var p := values[d].transitivePath;
    ChainStart(records, base, p, d);
    ExtendChain(records, base, u, p, d);
    hide Chain, Cyclic, Dependencies;
    assert !HasChain(records, base, u, k + 1);
  }

  lemma {:induction false} RoundsStep(records: Records, base: Outcomes, k: nat, u: Id)
    requires records.Keys == base.Keys && u in records
    ensures Rounds(records, base, k + 1)[u] == Update(records, Cyclic(records), Rounds(records, base, k), u)
  {
    hide Update, Cyclic;
  }

  lemma {:induction false} FrozenUpdate(records: Records, cyclic: set<Id>, values: Outcomes, u: Id)
    requires u in records && u in values && (u in cyclic || values[u].state == Invalidated)
    ensures Update(records, cyclic, values, u) == values[u]
  {
    hide InvalidOutcome, UnknownOutcome, InvalidDependencies, UnknownDependencies;
  }

  lemma {:induction false} CyclicFrozen(records: Records, base: Outcomes, k: nat, u: Id)
    requires records.Keys == base.Keys && u in Cyclic(records) && u in records
    ensures Rounds(records, base, k)[u] == base[u]
  {
    hide Cyclic, Update, Round;
    if k > 0 {
      CyclicFrozen(records, base, k - 1, u);
      FrozenUpdate(records, Cyclic(records), Rounds(records, base, k - 1), u);
      RoundsStep(records, base, k - 1, u);
    }
  }

  lemma {:induction false} CyclicNotInvalid(records: Records, base: Outcomes, k: nat, u: Id)
    requires IsBase(records, base) && u in Cyclic(records) && u in records
    ensures Rounds(records, base, k)[u].state == Unknown
  {
    CyclicFrozen(records, base, k, u);
    hide Rounds, SortSet, Component, Cyclic;
  }

  lemma {:induction false} CyclesNotInvalid(records: Records, base: Outcomes, k: nat)
    requires IsBase(records, base)
    ensures forall u :: u in records && u in Cyclic(records) ==> Rounds(records, base, k)[u].state != Invalidated
  {
    forall u | u in records
      ensures u in Cyclic(records) ==> Rounds(records, base, k)[u].state != Invalidated
    {
      if u in Cyclic(records) { CyclicNotInvalid(records, base, k, u); }
    }
  }

  lemma {:induction false} InvalidRound(records: Records, base: Outcomes, values: Outcomes, k: nat)
    requires records.Keys == base.Keys == values.Keys
    requires forall u :: u in records ==> InvalidAfter(records, base, values, k, u)
    requires forall u :: u in records && u in Cyclic(records) ==> values[u].state != Invalidated
    ensures forall u :: u in records ==> InvalidAfter(records, base, Round(records, values), k + 1, u)
  {
    hide InvalidAfter, Cyclic;
    forall u | u in records ensures InvalidAfter(records, base, Round(records, values), k + 1, u) {
      InvalidStep(records, base, values, k, u);
    }
  }

  ghost predicate InvalidAt(records: Records, base: Outcomes, k: nat)
    requires records.Keys == base.Keys
  {
    forall u :: u in records ==> InvalidAfter(records, base, Rounds(records, base, k), k, u)
  }

  lemma {:induction false} InvalidNext(records: Records, base: Outcomes, k: nat)
    requires IsBase(records, base) && InvalidAt(records, base, k)
    ensures InvalidAt(records, base, k + 1)
  {
    hide InvalidAfter, Round, Cyclic, IsBase;
    CyclesNotInvalid(records, base, k);
    InvalidRound(records, base, Rounds(records, base, k), k);
    assert Rounds(records, base, k + 1) == Round(records, Rounds(records, base, k));
  }

  lemma {:induction false} InvalidFirst(records: Records, base: Outcomes)
    requires IsBase(records, base)
    ensures InvalidAt(records, base, 0)
  {
    hide InvalidAfter, Cyclic;
    forall u | u in records ensures InvalidAfter(records, base, base, 0, u) {
      InvalidInitially(records, base, u);
    }
  }

  lemma {:induction false} InvalidAfterRounds(records: Records, base: Outcomes, k: nat)
    requires IsBase(records, base)
    ensures InvalidAt(records, base, k)
  {
    hide InvalidAt, Cyclic;
    if k == 0 {
      InvalidFirst(records, base);
    } else {
      InvalidAfterRounds(records, base, k - 1);
      InvalidNext(records, base, k - 1);
    }
  }
}
