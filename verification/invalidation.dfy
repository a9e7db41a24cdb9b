/** Transitive invalidation (kernel/invalidation.py): marking cycles, rounds of propagation,
    and the declarative answer the rounds compute. */
module Invalidation {
  import opened Orders
  import opened Graph
  import opened Evidence

  type Records = map<Id, EvidenceRecord>
  type Outcomes = map<Id, Evidence.Invalidation>

  // ----- the dependency graph -----

  function InGraph(ids: seq<Id>, records: Records): (r: seq<Id>)
    ensures forall x :: x in r <==> x in ids && x in records
  {
    if ids == [] then []
    else
      assert ids == [ids[0]] + ids[1..];
      (if ids[0] in records then [ids[0]] else []) + InGraph(ids[1..], records)
  }

  /** Required in-graph dependencies, sorted. */
  function DependencyGraph(records: Records): Adjacency {
    map u | u in records :: Sort(InGraph(Dependencies(records[u]), records))
  }

  lemma {:induction false} DependencyEdges(records: Records)
    ensures ClosedGraph(DependencyGraph(records))
    ensures forall u, v :: Edge(DependencyGraph(records), u, v) <==>
      u in records && v in records && v in Dependencies(records[u])
  {
    var g := DependencyGraph(records);
    forall u, i | u in g && 0 <= i < |g[u]| ensures g[u][i] in g {
      assert g[u][i] in g[u];
    }
  }

  method StronglyConnectedComponents(records: Records) returns (components: seq<seq<Id>>)
    ensures IsSccPartition(DependencyGraph(records), components)
  {
    var nodes := SortSet(records.Keys);
    var adjacency := DependencyGraph(records);
    DependencyEdges(records);
    var finishOrder := FinishOrder(nodes, adjacency);
    var reverse := ReverseAdjacency(nodes, adjacency);
    components := CollectComponents(adjacency, reverse, finishOrder);
  }

  // ----- cycles -----

  ghost function Component(g: Adjacency, u: Id): set<Id> {
    set v | v in g && Mutual(g, u, v)
  }

  function Within(ids: seq<Id>, members: set<Id>): (r: seq<Id>)
    ensures forall x :: x in r <==> x in ids && x in members
  {
    if ids == [] then []
    else
      assert ids == [ids[0]] + ids[1..];
      (if ids[0] in members then [ids[0]] else []) + Within(ids[1..], members)
  }

  /** The outcome of a record on a cycle: its causes are its dependencies in the component,
      its path lists the component with the record itself first. */
  ghost function CycleOutcome(records: Records, u: Id): Evidence.Invalidation
    requires u in records
  {
    var c := Component(DependencyGraph(records), u);
    Outcome(u, Unknown, DependencyCycle, Within(Dependencies(records[u]), c), [u] + SortSet(c - {u}))
  }

  /** The direct outcomes with every record on a cycle overwritten. */
  ghost function Marked(records: Records, direct: Outcomes): Outcomes
    requires records.Keys == direct.Keys
  {
    map u | u in records :: if OnCycle(DependencyGraph(records), u) then CycleOutcome(records, u) else direct[u]
  }

  ghost function Cyclic(records: Records): set<Id> {
    set u | u in records && OnCycle(DependencyGraph(records), u)
  }

  /** A component is a cycle exactly when it has a second member or a self-loop. */
  lemma {:induction false} CycleTest(g: Adjacency, c: seq<Id>, u: Id)
    requires IsComponent(g, c) && u in c
    ensures OnCycle(g, u) <==> |c| > 1 || Edge(g, c[0], c[0])
  {
    assert c[0] in c;
    MutualTrans(g, u, c[0], u);
    if OnCycle(g, u) {
      var v :| Edge(g, u, v) && Reach(g, v, u);
      ReachEdge(g, u, v);
      MutualTrans(g, c[0], u, v);
      assert v in c;
      assert |c| == 1 ==> u == c[0] && v == c[0];
    }
    if |c| > 1 {
      var v := if c[0] == u then c[1] else c[0];
      assert v in c && v != u by { assert c[1] in c; }
      MutualTrans(g, u, c[0], v);
      FirstStep(g, u, v);
    } else {
      assert u == c[0];
      if Edge(g, u, u) { ReachRefl(g, u); }
    }
  }

  lemma {:induction false} FirstStep(g: Adjacency, u: Id, v: Id)
    requires Mutual(g, u, v) && u != v
    ensures OnCycle(g, u)
  {
    var p :| WalkFromTo(g, p, u, v);
    assert Edge(g, p[0], p[0 + 1]);
    WalkSegment(g, p, 1, |p| - 1);
    ReachTrans(g, p[1], v, u);
  }

  function Others(c: seq<Id>, u: Id): (r: seq<Id>)
    requires StrictlySorted(c)
    ensures StrictlySorted(r) && forall x :: x in r <==> x in c && x != u
  {
    if c == [] then []
    else
      assert c == [c[0]] + c[1..];
      var t := Others(c[1..], u);
      assert forall i :: 0 <= i < |t| ==> t[i] in c[1..];
      (if c[0] != u then [c[0]] else []) + t
  }

  lemma {:induction false} ComponentElems(g: Adjacency, c: seq<Id>, u: Id)
    requires IsComponent(g, c) && u in c
    ensures Elems(c) == Component(g, u)
    ensures [u] + Others(c, u) == [u] + SortSet(Component(g, u) - {u})
  {
    assert c[0] in c;
    forall v ensures v in c <==> v in Component(g, u) {
      if v in c {
        MutualTrans(g, u, c[0], v);
        ReachInGraph(g, u, v);
      }
      if v in Component(g, u) { MutualTrans(g, c[0], u, v); }
    }
    StrictlySortedUnique(Others(c, u), SortSet(Component(g, u) - {u}));
  }

  function CycleEntry(records: Records, component: seq<Id>, u: Id): Evidence.Invalidation
    requires u in records && StrictlySorted(component)
  {
    var causes := Within(Dependencies(records[u]), Elems(component));
    Outcome(u, Unknown, DependencyCycle, causes, [u] + Others(component, u))
  }

  lemma {:induction false} CycleEntries(records: Records, component: seq<Id>)
    requires IsComponent(DependencyGraph(records), component)
    ensures forall u :: u in component ==> u in records
    ensures forall u :: u in component ==> CycleEntry(records, component, u) == CycleOutcome(records, u)
  {
    var g := DependencyGraph(records);
    assert component[0] in component;
    forall u | u in component
      ensures u in records && CycleEntry(records, component, u) == CycleOutcome(records, u)
    {
      ReachInGraph(g, component[0], u);
      ComponentElems(g, component, u);
    }
  }

  /** Overwrites the outcomes of one component. */
  method MarkComponent(records: Records, before: Outcomes, component: seq<Id>) returns (direct: Outcomes)
    requires before.Keys == records.Keys && StrictlySorted(component)
    requires forall u :: u in component ==> u in records
    ensures direct.Keys == records.Keys
    ensures forall u :: u in records ==>
      direct[u] == if u in component then CycleEntry(records, component, u) else before[u]
  {
    hide CycleEntry;
    direct := before;
    for e := 0 to |component|
      invariant direct.Keys == records.Keys
      invariant forall u :: u in records ==>
        direct[u] == if u in component[..e] then CycleEntry(records, component, u) else before[u]
    {
      assert component[..e + 1] == component[..e] + [component[e]];
      direct := direct[component[e] := CycleEntry(records, component, component[e])];
    }
    assert component[..|component|] == component;
  }

  lemma {:induction false} ComponentTest(records: Records, component: seq<Id>)
    requires IsComponent(DependencyGraph(records), component)
    ensures component != [] && component[0] in records && StrictlySorted(component)
    ensures var isCycle := |component| > 1 || component[0] in Dependencies(records[component[0]]);
      forall u :: u in component ==> (u in Cyclic(records) <==> isCycle)
  {
    CycleEntries(records, component);
    DependencyEdges(records);
    assert component[0] in component;
    forall u | u in component
      ensures OnCycle(DependencyGraph(records), u) <==>
        |component| > 1 || component[0] in Dependencies(records[component[0]])
    {
      CycleTest(DependencyGraph(records), component, u);
    }
  }

  /** What the marking loop keeps: the records of the components handled so far are final. */
  ghost predicate MarkInv(records: Records, direct0: Outcomes, direct: Outcomes, cyclic: set<Id>, done: set<Id>)
    requires records.Keys == direct0.Keys
  {
    && direct.Keys == records.Keys
    && (forall u :: u in cyclic <==> u in done && u in Cyclic(records))
    && (forall u :: u in records ==>
          direct[u] == if u in done && u in Cyclic(records) then CycleOutcome(records, u) else direct0[u])
  }

  lemma {:induction false} AllDone(records: Records, components: seq<seq<Id>>, done: set<Id>)
    requires IsSccPartition(DependencyGraph(records), components)
    requires forall i :: 0 <= i < |components| ==> Elems(components[i]) <= done
    ensures records.Keys <= done
  {
    hide IsComponent;
    forall u | u in records ensures u in done {
      assert u in DependencyGraph(records);
      var i :| 0 <= i < |components| && u in components[i];
      assert u in Elems(components[i]);
    }
  }

  lemma {:induction false} MarkDone(records: Records, direct0: Outcomes, direct: Outcomes, cyclic: set<Id>,
        done: set<Id>)
    requires records.Keys == direct0.Keys && records.Keys <= done
    requires MarkInv(records, direct0, direct, cyclic, done)
    ensures cyclic == Cyclic(records)
    ensures direct == Marked(records, direct0)
  {
    hide CycleOutcome, OnCycle;
    assert forall u :: u in cyclic <==> u in Cyclic(records);
  }

  lemma {:induction false} MarkStep(records: Records, direct0: Outcomes, before: Outcomes, direct: Outcomes,
                 cyclic: set<Id>, done: set<Id>, component: seq<Id>, isCycle: bool)
    requires records.Keys == direct0.Keys && MarkInv(records, direct0, before, cyclic, done)
    requires StrictlySorted(component)
    requires forall u :: u in component ==> u in records && (u in Cyclic(records) <==> isCycle)
    requires forall u :: u in component ==> CycleEntry(records, component, u) == CycleOutcome(records, u)
    requires direct.Keys == records.Keys
    requires forall u :: u in records ==>
      direct[u] == if isCycle && u in component then CycleEntry(records, component, u) else before[u]
    ensures MarkInv(records, direct0, direct, if isCycle then cyclic + Elems(component) else cyclic,
                    done + Elems(component))
  {
    hide CycleEntry, CycleOutcome, Cyclic;
  }

  /** Overwrites the direct outcomes of all records on cycles. */
  method MarkCyclesUnknown(records: Records, direct0: Outcomes, components: seq<seq<Id>>)
    returns (direct: Outcomes, cyclic: set<Id>)
    requires records.Keys == direct0.Keys
    requires IsSccPartition(DependencyGraph(records), components)
    ensures cyclic == Cyclic(records)
    ensures direct == Marked(records, direct0)
  {
    hide CycleOutcome, CycleEntry, Cyclic, IsComponent;
    direct, cyclic := direct0, {};
    ghost var done: set<Id> := {};
    for k := 0 to |components|
      invariant MarkInv(records, direct0, direct, cyclic, done)
      invariant forall i :: 0 <= i < k ==> Elems(components[i]) <= done
    {
      var component := components[k];
      ghost var before, cyclicBefore := direct, cyclic;
      ComponentTest(records, component);
      CycleEntries(records, component);
      var isCycle := |component| > 1 || component[0] in Dependencies(records[component[0]]);
      if isCycle {
        cyclic := cyclic + Elems(component);
        direct := MarkComponent(records, direct, component);
      }
      MarkStep(records, direct0, before, direct, cyclicBefore, done, component, isCycle);
      done := done + Elems(component);
    }
    AllDone(records, components, done);
    MarkDone(records, direct0, direct, cyclic, done);
  }
}
