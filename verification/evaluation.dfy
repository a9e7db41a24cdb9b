/** The whole engine: direct outcomes, components, cycle marking and the propagation loop
    (kernel/invalidation.py), proved against the rounds and the declarative answer. */
module Engine {
  import opened Orders
  import opened Graph
  import opened Evidence
  import opened Invalidation
  import opened Propagation
  import opened FixedPoint
  import opened Decision
  import opened Doubts
  import DirectLaws

  // ----- the propagation loop -----

  /** One pass over all records: reads `values`, writes `updated`. Each replacement passes the
      checks of the Invalidation constructor, so building it never fails. */
  method PropagateOnce(records: Records, values: Outcomes, cyclic: set<Id>)
    returns (updated: Outcomes, changed: bool)
    requires Sound(records, values) && cyclic == Cyclic(records)
    ensures updated == Round(records, values)
    ensures changed <==> updated != values
  {
    hide *;
    updated := values;
    changed := false;
    var order := SortSet(records.Keys);
    ghost var done: set<Id> := {};
    for e := 0 to |order|
      invariant updated.Keys == records.Keys
      invariant forall i :: 0 <= i < e ==> order[i] in done
      invariant forall u :: u in records ==>
        updated[u] == if u in done then Update(records, cyclic, values, u) else values[u]
      invariant if changed then exists u :: u in records && updated[u] != values[u] else updated == values
    {
      var evidenceId := order[e];
      assert evidenceId in order;
      var replacement := Reconsider(records, values, cyclic, evidenceId);
      if replacement != values[evidenceId] {
        updated := updated[evidenceId := replacement];
        changed := true;
      }
      done := done + {evidenceId};
    }
    forall u | u in records ensures u in done {
      assert u in order;
    }
    RoundReached(records, values, updated);
  }

  lemma {:induction false} RoundReached(records: Records, values: Outcomes, updated: Outcomes)
    requires values.Keys == records.Keys == updated.Keys
    requires forall u :: u in records ==> updated[u] == Update(records, Cyclic(records), values, u)
    ensures updated == Round(records, values)
  {
    hide Update, Cyclic;
  }

  /** The value one record gets in one pass. */
  method Reconsider(records: Records, values: Outcomes, cyclic: set<Id>, evidenceId: Id)
    returns (replacement: Evidence.Invalidation)
    requires Sound(records, values) && cyclic == Cyclic(records) && evidenceId in records
    ensures replacement == Update(records, cyclic, values, evidenceId)
    ensures Accepted(replacement)
  {
    hide Sound, Cyclic, Dependencies, LexMin, Paths, Outcome, Accepted;
    SoundUpdate(records, values, evidenceId);
    var current := values[evidenceId];
    if evidenceId in cyclic || current.state == Invalidated {
      return current;
    }
    var dependencies := Dependencies(records[evidenceId]);
    var invalid, unknown := [], [];
    for i := 0 to |dependencies|
      invariant invalid == InvalidDependencies(values, dependencies[..i])
      invariant unknown == UnknownDependencies(records, values, dependencies[..i])
    {
      var d := dependencies[i];
      assert dependencies[..i + 1][..i] == dependencies[..i];
      if d in values && values[d].state == Invalidated {
        invalid := invalid + [d];
      } else if d !in values || values[d].state == Unknown || d !in records || records[d].authority == Advisory {
        unknown := unknown + [d];
      }
    }
    assert dependencies[..|dependencies|] == dependencies;
    if invalid != [] {
      replacement := Outcome(evidenceId, Invalidated, DependencyInvalid, invalid, LexMin(Paths(evidenceId, invalid, values)));
    } else if current.state == Unknown {
      replacement := current;
    } else if unknown != [] {
      replacement := Outcome(evidenceId, Unknown, DependencyUnknown, unknown, LexMin(Paths(evidenceId, unknown, values)));
    } else {
      replacement := current;
    }
  }

  /** The outcomes in identifier order. */
  function Listing(values: Outcomes): (r: seq<Evidence.Invalidation>)
  {
    var order := SortSet(values.Keys);
    assert forall i :: 0 <= i < |order| ==> order[i] in order;
    assert forall i :: 0 <= i < |order| ==> order[i] in values;
    seq(|order|, i requires 0 <= i < |order| => values[order[i]])
  }

  /** At most as many passes as there are records, stopping at the first that changes nothing:
      the result is the fixed point. */
  method PropagateToFixedPoint(records: Records, direct: Outcomes, cyclic: set<Id>)
    returns (result: seq<Evidence.Invalidation>)
    requires IsBase(records, direct) && cyclic == Cyclic(records)
    ensures result == Listing(Final(records, direct))
  {
    hide IsBase, Cyclic, Update, Round, Sound;
    var values := direct;
    var attempt := 0;
    while attempt < |records|
      invariant 0 <= attempt <= |records|
      invariant values == Rounds(records, direct, attempt)
    {
      SoundRounds(records, direct, attempt);
      var updated, changed := PropagateOnce(records, values, cyclic);
      values := updated;
      attempt := attempt + 1;
      if !changed {
        Stable(records, direct, attempt - 1, |records|);
        break;
      }
    }
    assert values == Final(records, direct);
    result := Listing(values);
  }

  // ----- the entry point -----

  predicate ConsistentIdentities(records: Records) {
    forall u :: u in records ==> records[u].evidenceId == u
  }

  function Direct(records: Records, context: Context): Outcomes {
    map u | u in records :: EvaluateDirect(records[u], context)
  }

  /** What propagation starts from. */
  ghost function Base(records: Records, context: Context): (base: Outcomes)
    ensures base.Keys == records.Keys
  {
    Marked(records, Direct(records, context))
  }

  lemma {:induction false} BaseAt(records: Records, context: Context, u: Id)
    requires u in records
    ensures Base(records, context)[u] ==
      if u in Cyclic(records) then CycleOutcome(records, u) else EvaluateDirect(records[u], context)
  {
    hide CycleOutcome, EvaluateDirect, OnCycle;
  }

  lemma {:induction false} BaseIsBase(records: Records, context: Context)
    requires ConsistentIdentities(records)
    ensures IsBase(records, Base(records, context))
  {
    hide EvaluateDirect, OnCycle, CycleOutcome, DirectShape;
    forall u | u in records ensures DirectShape(Direct(records, context)[u], u) {
      EvaluateDirectShape(records[u], context);
    }
  }

  datatype GraphError = InconsistentIdentity

  /** `evaluate_invalidations`: rejects a graph whose keys are not the records' identifiers,
      and otherwise lists the propagated outcomes in identifier order. */
  method EvaluateInvalidations(records: Records, context: Context)
    returns (result: Result<seq<Evidence.Invalidation>, GraphError>)
    ensures result.Ok? <==> ConsistentIdentities(records)
    ensures result.Ok? ==>
      result.value == Listing(Final(records, Base(records, context)))
  {
    hide CycleOutcome, Cyclic, EvaluateDirect, IsBase, IsSccPartition;
    if !ConsistentIdentities(records) {
      return Err(InconsistentIdentity);
    }
    var direct0 := Direct(records, context);
    var components := StronglyConnectedComponents(records);
    var direct, cyclic := MarkCyclesUnknown(records, direct0, components);
    BaseIsBase(records, context);
    var outcomes := PropagateToFixedPoint(records, direct, cyclic);
    result := Ok(outcomes);
  }

  /** What the outcomes listed by `EvaluateInvalidations` are, record by record.
      A record on a cycle keeps the cycle outcome, whatever its own observations said.
      Any other is invalidated exactly when a dependency path through records off every cycle
      reaches a directly invalidated one; failing that it is unknown exactly when such a path
      reaches a source of doubt; failing that it is current. Every outcome passes the
      constructor's checks, so no path repeats a record. */
  lemma {:induction false} EvaluatedState(records: Records, context: Context, u: Id)
    requires ConsistentIdentities(records) && u in records
    ensures var base := Base(records, context);
      var v := Final(records, base)[u];
      && Accepted(v) && v.evidenceId == u
      && (u in Cyclic(records) ==> v == CycleOutcome(records, u))
      && (u !in Cyclic(records) ==>
            v.state == if Reachable(records, base, u) then Invalidated
                       else if InDoubt(records, base, u) then Unknown else Current)
  {
    hide Cyclic, CycleOutcome, Reachable, InDoubt, IsBase, Rounds, Accepted, BestChain, BestDoubt, EvaluateDirect;
    var base := Base(records, context);
    BaseIsBase(records, context);
    SoundRounds(records, base, |records|);
    SoundAt(records, Final(records, base), u);
    FinallyInvalidated(records, base, u);
    if u in Cyclic(records) {
      CyclicFrozen(records, base, |records|, u);
      BaseOnCycle(records, base, u);
    } else if !Reachable(records, base, u) {
      FinallyUnknown(records, base, u);
    }
  }

  /** The path and the causes that go with the state: for an invalidated record the least of
      the shortest chains and exactly the dependencies one step nearer; for a record unknown
      through others the least rendering of a shortest path of doubt and exactly the
      dependencies that start a shortest one; a record that speaks for itself is untouched. */
  lemma {:induction false} EvaluatedWitness(records: Records, context: Context, u: Id)
    requires ConsistentIdentities(records) && u in records
    ensures var base := Base(records, context);
      var final := Final(records, base);
      var v := final[u];
      && (v.state == Invalidated ==> BestChain(records, base, v.transitivePath, u))
      && (v.state == Invalidated && base[u].state != Invalidated ==>
            v.code == DependencyInvalid && v.directCauseIds == SortSet(Nearer(records, final, u)))
      && (v.state == Unknown && u !in Cyclic(records) ==>
            exists p :: BestDoubt(records, base, v.transitivePath, p, u))
      && (v.state == Unknown && base[u].state == Current ==>
            v.code == DependencyUnknown && v.directCauseIds == SortSet(DoubtCauses(records, base, u)))
      && (base[u].state == v.state ==> v == base[u])
  {
    hide Cyclic, Reachable, InDoubt, IsBase, Rounds, BestChain, BestDoubt, EvaluateDirect, Base, Nearer, DoubtCauses;
    var base := Base(records, context);
    BaseIsBase(records, context);
    FinallyInvalidated(records, base, u);
    UnchangedState(records, base, |records|, u);
    if u in Cyclic(records) {
      CyclicFrozen(records, base, |records|, u);
      CyclicNotInvalid(records, base, 0, u);
      CyclicFrozen(records, base, 0, u);
    } else if !Reachable(records, base, u) {
      FinallyUnknown(records, base, u);
    }
  }

  /** Propagation only ever makes a record worse; while the state is what it was at the start,
      so is everything else. */
  lemma {:induction false} UnchangedState(records: Records, base: Outcomes, k: nat, u: Id)
    requires records.Keys == base.Keys && u in records
    ensures var v := Rounds(records, base, k)[u];
      && (v.state == base[u].state ==> v == base[u])
      && (base[u].state == Invalidated ==> v.state == Invalidated)
      && (v.state == Current ==> base[u].state == Current)
  {
    hide Cyclic, Update, Round, Dependencies, InvalidDependencies, UnknownDependencies, UnknownOutcome;
    if k > 0 {
      UnchangedState(records, base, k - 1, u);
      var values := Rounds(records, base, k - 1);
      RoundsStep(records, base, k - 1, u);
      if u in Cyclic(records) {
        FrozenUpdate(records, Cyclic(records), values, u);
      } else {
        UpdateInverse(records, Cyclic(records), values, u);
        if values[u].state == Invalidated { FrozenUpdate(records, Cyclic(records), values, u); }
      }
    }
  }

  lemma {:induction false} BaseOnCycle(records: Records, base: Outcomes, u: Id)
    requires IsBase(records, base) && u in records && u in Cyclic(records)
    ensures base[u] == CycleOutcome(records, u)
  {
    hide Cyclic, CycleOutcome, DirectShape;
  }

  // ----- outcomes explained -----

  /** The record requires this evidence. */
  ghost predicate Requires(r: EvidenceRecord, d: Id) {
    exists i :: i in r.invalidators && i.required && i.kind == EvidenceDependency && i.subjectId == d
  }

  lemma {:induction false} DependencyRequired(invalidators: seq<Invalidator>, d: Id)
    ensures d in DependencySubjects(invalidators) <==>
      exists i :: i in invalidators && i.required && i.kind == EvidenceDependency && i.subjectId == d
  {
    if invalidators != [] {
      DependencyRequired(invalidators[1..], d);
      assert invalidators == [invalidators[0]] + invalidators[1..];
    }
  }

  /** The graph has an edge exactly where one record requires another. */
  lemma {:induction false} EdgesAreRequirements(records: Records, u: Id, v: Id)
    ensures Edge(DependencyGraph(records), u, v) <==> u in records && v in records && Requires(records[u], v)
  {
    hide DependencyGraph, DependencySubjects, Edge;
    DependencyEdges(records);
    if u in records {
      DependencyRequired(records[u].invalidators, v);
    }
  }

  /** The outcome of a record on a cycle: unknown, with the records it requires in its component
      as causes, and the component as path, itself first and the others in order. */
  ghost predicate CycleExplained(records: Records, u: Id, v: Evidence.Invalidation)
    requires u in records
  {
    var g := DependencyGraph(records);
    && v.evidenceId == u && v.state == Unknown && v.code == DependencyCycle
    && StrictlySorted(v.directCauseIds)
    && (forall d :: d in v.directCauseIds <==> Requires(records[u], d) && d in records && Mutual(g, u, d))
    && v.transitivePath != [] && v.transitivePath[0] == u && StrictlySorted(v.transitivePath[1..])
    && forall d :: d in v.transitivePath[1..] <==> d != u && d in records && Mutual(g, u, d)
  }

  lemma {:induction false} InComponent(records: Records, u: Id, d: Id)
    ensures d in Component(DependencyGraph(records), u) <==> d in records && Mutual(DependencyGraph(records), u, d)
  {
    hide Mutual, InGraph, Dependencies;
  }

  lemma {:induction false} RequiredIsDependency(r: EvidenceRecord, d: Id)
    ensures d in Dependencies(r) <==> Requires(r, d)
  {
    hide DependencySubjects;
    DependencyRequired(r.invalidators, d);
  }

  lemma {:induction false} CycleIsExplained(records: Records, u: Id)
    requires u in records
    ensures CycleExplained(records, u, CycleOutcome(records, u))
  {
    hide SortSet, Mutual, DependencySubjects, DependencyGraph, Component, Within, StrictlySorted, Requires;
    var c := Component(DependencyGraph(records), u);
    var v := CycleOutcome(records, u);
    assert v.transitivePath[1..] == SortSet(c - {u});
    forall d ensures d in c <==> d in records && Mutual(DependencyGraph(records), u, d) {
      InComponent(records, u, d);
    }
    forall d ensures d in v.directCauseIds <==> Requires(records[u], d) && d in c {
      RequiredIsDependency(records[u], d);
    }
  }

  /** Every final outcome is explained: on a cycle by the cycle; otherwise by the record's own
      observations, or as propagated from the dependencies one step nearer to an invalidated
      record, or from those that start a shortest path of doubt. */
  lemma {:induction false} EvaluatedExplained(records: Records, context: Context, u: Id)
    requires ConsistentIdentities(records) && u in records
    ensures var base := Base(records, context);
      var final := Final(records, base);
      var v := final[u];
      && (u in Cyclic(records) ==> CycleExplained(records, u, v))
      && (u !in Cyclic(records) ==>
            || DirectLaws.Explained(records[u], context, v)
            || (v.state == Invalidated && v.code == DependencyInvalid && v.directCauseIds == SortSet(Nearer(records, final, u)))
            || (v.state == Unknown && v.code == DependencyUnknown
                && v.directCauseIds == SortSet(DoubtCauses(records, base, u))))
      && (u !in Cyclic(records) && EvaluateDirect(records[u], context).state == v.state ==>
            DirectLaws.Explained(records[u], context, v))
  {
    hide Cyclic, CycleOutcome, Reachable, InDoubt, IsBase, Rounds, Accepted, BestChain, BestDoubt, EvaluateDirect, Base,
      Nearer, DoubtCauses, SortSet, DirectLaws.Explained;
    EvaluatedState(records, context, u);
    EvaluatedWitness(records, context, u);
    BaseAt(records, context, u);
    CycleIsExplained(records, u);
    DirectLaws.DirectExplained(records[u], context);
    UnchangedState(records, Base(records, context), |records|, u);
  }
}
