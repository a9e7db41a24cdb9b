/** Locality and the exactness of the round bound. */
module Locality {
  import opened Orders
  import opened Graph
  import opened Evidence
  import opened Invalidation
  import opened Propagation
  import opened FixedPoint
  import opened Decision
  import opened Engine

  /** Two graphs agree on a set of identifiers that no required dependency leaves: the same
      identifiers are records, with the same contents and the same direct outcomes. */
  ghost predicate Agree(r1: Records, r2: Records, c1: Context, c2: Context, s: set<Id>) {
    forall x :: x in s ==>
      && (x in r1 <==> x in r2)
      && (x in r1 ==>
            && r1[x] == r2[x]
            && EvaluateDirect(r1[x], c1) == EvaluateDirect(r2[x], c2)
            && forall d :: d in Dependencies(r1[x]) ==> d in s)
  }

  lemma {:induction false} AgreeSymmetric(r1: Records, r2: Records, c1: Context, c2: Context, s: set<Id>)
    requires Agree(r1, r2, c1, c2, s)
    ensures Agree(r2, r1, c2, c1, s)
  {
    hide EvaluateDirect, Dependencies;
  }

  lemma {:induction false} AgreeEdges(r1: Records, r2: Records, c1: Context, c2: Context, s: set<Id>)
    requires Agree(r1, r2, c1, c2, s)
    ensures forall u, v :: u in s && Edge(DependencyGraph(r1), u, v) ==> v in s && Edge(DependencyGraph(r2), u, v)
  {
    hide EvaluateDirect, Dependencies;
    DependencyEdges(r1);
    DependencyEdges(r2);
    hide Edge, DependencyGraph;
  }

  lemma {:induction false} AgreeReach(r1: Records, r2: Records, c1: Context, c2: Context, s: set<Id>, u: Id, v: Id)
    requires Agree(r1, r2, c1, c2, s) && u in s && Reach(DependencyGraph(r1), u, v)
    ensures v in s && Reach(DependencyGraph(r2), u, v)
  {
    hide Agree, DependencyGraph;
    var g1, g2 := DependencyGraph(r1), DependencyGraph(r2);
    AgreeEdges(r1, r2, c1, c2, s);
    var p :| WalkFromTo(g1, p, u, v);
    SameKeys(r1, r2, c1, c2, s, u);
    hide Edge, Reach;
    var i := 0;
    ReachRefl(g2, u);
    while i < |p| - 1
      invariant 0 <= i < |p| && p[i] in s && Reach(g2, u, p[i])
    {
      assert Edge(g1, p[i], p[i + 1]);
      ReachStep(g2, u, p[i], p[i + 1]);
      i := i + 1;
    }
  }

  lemma {:induction false} SameKeys(r1: Records, r2: Records, c1: Context, c2: Context, s: set<Id>, u: Id)
    requires Agree(r1, r2, c1, c2, s) && u in s
    ensures u in DependencyGraph(r1) <==> u in DependencyGraph(r2)
  {
    hide EvaluateDirect, Dependencies;
  }

  lemma {:induction false} AgreeCycle(r1: Records, r2: Records, c1: Context, c2: Context, s: set<Id>, u: Id)
    requires Agree(r1, r2, c1, c2, s) && u in s && u in Cyclic(r1)
    ensures u in Cyclic(r2)
  {
    hide Agree, DependencyGraph, Reach, Edge;
    var g1, g2 := DependencyGraph(r1), DependencyGraph(r2);
    var v :| Edge(g1, u, v) && Reach(g1, v, u);
    AgreeEdges(r1, r2, c1, c2, s);
    AgreeReach(r1, r2, c1, c2, s, v, u);
    EdgeSource(r2, u, v);
    assert OnCycle(g2, u);
  }

  lemma {:induction false} EdgeSource(r: Records, u: Id, v: Id)
    requires Edge(DependencyGraph(r), u, v)
    ensures u in r
  {
    hide Dependencies;
    DependencyEdges(r);
  }

  lemma {:induction false} AgreeMember(r1: Records, r2: Records, c1: Context, c2: Context, s: set<Id>, u: Id, v: Id)
    requires Agree(r1, r2, c1, c2, s) && u in s && v in Component(DependencyGraph(r1), u)
    ensures v in Component(DependencyGraph(r2), u)
  {
    hide Agree, DependencyGraph, Reach;
    var g1, g2 := DependencyGraph(r1), DependencyGraph(r2);
    AgreeReach(r1, r2, c1, c2, s, u, v);
    AgreeReach(r1, r2, c1, c2, s, v, u);
    ReachInGraph(g2, u, v);
  }

  lemma {:induction false} AgreeAt(r1: Records, r2: Records, c1: Context, c2: Context, s: set<Id>, u: Id)
    requires Agree(r1, r2, c1, c2, s) && u in s && u in r1
    ensures u in r2 && r1[u] == r2[u] && EvaluateDirect(r1[u], c1) == EvaluateDirect(r2[u], c2)
    ensures forall d :: d in Dependencies(r1[u]) ==> d in s && (d in r1 <==> d in r2)
  {
    hide EvaluateDirect, Dependencies;
  }

  lemma {:induction false} AgreeComponent(r1: Records, r2: Records, c1: Context, c2: Context, s: set<Id>, u: Id)
    requires Agree(r1, r2, c1, c2, s) && u in s
    ensures Component(DependencyGraph(r1), u) == Component(DependencyGraph(r2), u)
    ensures u in Cyclic(r1) <==> u in Cyclic(r2)
  {
    hide Component, DependencyGraph, Agree, Cyclic;
    AgreeSymmetric(r1, r2, c1, c2, s);
    if u in Cyclic(r1) { AgreeCycle(r1, r2, c1, c2, s, u); }
    if u in Cyclic(r2) { AgreeCycle(r2, r1, c2, c1, s, u); }
    var k1, k2 := Component(DependencyGraph(r1), u), Component(DependencyGraph(r2), u);
    forall v ensures v in k1 <==> v in k2 {
      if v in k1 { AgreeMember(r1, r2, c1, c2, s, u, v); }
      if v in k2 { AgreeMember(r2, r1, c2, c1, s, u, v); }
    }
  }

  lemma {:induction false} AgreeBase(r1: Records, r2: Records, c1: Context, c2: Context, s: set<Id>, u: Id)
    requires Agree(r1, r2, c1, c2, s) && u in s && u in r1
    ensures u in r2 && r1[u] == r2[u] && (u in Cyclic(r1) <==> u in Cyclic(r2))
    ensures Base(r1, c1)[u] == Base(r2, c2)[u]
    ensures forall d :: d in Dependencies(r1[u]) ==> d in s && (d in r1 <==> d in r2)
  {
    hide Agree, EvaluateDirect, Component, DependencyGraph, Dependencies, Outcome, Within, SortSet, Cyclic, Base;
    AgreeAt(r1, r2, c1, c2, s, u);
    AgreeComponent(r1, r2, c1, c2, s, u);
    BaseAt(r1, c1, u);
    BaseAt(r2, c2, u);
  }

  lemma {:induction false} AgreeLists(r1: Records, r2: Records, v1: Outcomes, v2: Outcomes, ds: seq<Id>)
    requires forall d :: d in ds ==>
      (d in r1 <==> d in r2) && (d in v1 <==> d in v2) && (d in v1 ==> v1[d] == v2[d]) && (d in r1 ==> r1[d] == r2[d])
    ensures InvalidDependencies(v1, ds) == InvalidDependencies(v2, ds)
    ensures UnknownDependencies(r1, v1, ds) == UnknownDependencies(r2, v2, ds)
  {
    if ds != [] {
      assert ds[|ds| - 1] in ds;
      AgreeLists(r1, r2, v1, v2, ds[..|ds| - 1]);
    }
  }

  lemma {:induction false} AgreePaths(v1: Outcomes, v2: Outcomes, u: Id, ds: seq<Id>)
    requires forall d :: d in ds ==> (d in v1 <==> d in v2) && (d in v1 ==> v1[d] == v2[d])
    ensures Paths(u, ds, v1) == Paths(u, ds, v2)
  {
    forall i | 0 <= i < |ds| ensures DependencyPath(u, ds[i], v1) == DependencyPath(u, ds[i], v2) {
      assert ds[i] in ds;
    }
    hide DependencyPath;
    assert |Paths(u, ds, v1)| == |ds| == |Paths(u, ds, v2)|;
    forall i | 0 <= i < |ds| ensures Paths(u, ds, v1)[i] == Paths(u, ds, v2)[i] {
    }
  }

  lemma {:induction false} AgreeUpdate(r1: Records, r2: Records, cy1: set<Id>, cy2: set<Id>, v1: Outcomes,
        v2: Outcomes, u: Id)
    requires u in r1 && u in r2 && r1[u] == r2[u] && u in v1 && u in v2 && v1[u] == v2[u] && (u in cy1 <==> u in cy2)
    requires forall d :: d in Dependencies(r1[u]) ==>
      (d in r1 <==> d in r2) && (d in v1 <==> d in v2) && (d in v1 ==> v1[d] == v2[d]) && (d in r1 ==> r1[d] == r2[d])
    ensures Update(r1, cy1, v1, u) == Update(r2, cy2, v2, u)
  {
    hide LexMin, Paths, Outcome, InvalidDependencies, UnknownDependencies, Dependencies;
    var ds := Dependencies(r1[u]);
    AgreeLists(r1, r2, v1, v2, ds);
    AgreePaths(v1, v2, u, InvalidDependencies(v1, ds));
    AgreePaths(v1, v2, u, UnknownDependencies(r1, v1, ds));
  }

  lemma {:induction false} AgreeRounds(r1: Records, r2: Records, c1: Context, c2: Context, s: set<Id>, k: nat, u: Id)
    requires Agree(r1, r2, c1, c2, s) && u in s && u in r1
    ensures u in r2 && Rounds(r1, Base(r1, c1), k)[u] == Rounds(r2, Base(r2, c2), k)[u]
    decreases k
  {
    hide Agree, Dependencies, Cyclic, Update, Base, Round;
    assert Rounds(r1, Base(r1, c1), 0) == Base(r1, c1) && Rounds(r2, Base(r2, c2), 0) == Base(r2, c2);
    AgreeBase(r1, r2, c1, c2, s, u);
    if k > 0 {
      var v1, v2 := Rounds(r1, Base(r1, c1), k - 1), Rounds(r2, Base(r2, c2), k - 1);
      AgreeRounds(r1, r2, c1, c2, s, k - 1, u);
      forall d | d in Dependencies(r1[u])
        ensures (d in r1 <==> d in r2) && (d in r1 ==> r1[d] == r2[d] && v1[d] == v2[d])
      {
        if d in r1 {
          AgreeBase(r1, r2, c1, c2, s, d);
          AgreeRounds(r1, r2, c1, c2, s, k - 1, d);
        }
      }
      AgreeUpdate(r1, r2, Cyclic(r1), Cyclic(r2), v1, v2, u);
      RoundsStep(r1, Base(r1, c1), k - 1, u);
      RoundsStep(r2, Base(r2, c2), k - 1, u);
    }
  }

  /** Locality: a record's whole outcome (state, code, causes and path) is the same in any two
      graphs, and under any two contexts, that agree on what it depends on directly or
      indirectly. Adding, removing or changing any other record leaves it unchanged. */
  lemma {:induction false} OutcomeIsLocal(r1: Records, r2: Records, c1: Context, c2: Context, s: set<Id>, u: Id)
    requires ConsistentIdentities(r1) && ConsistentIdentities(r2)
    requires Agree(r1, r2, c1, c2, s) && u in s && u in r1
    ensures u in r2 && Final(r1, Base(r1, c1))[u] == Final(r2, Base(r2, c2))[u]
  {
    hide Agree, Base, Rounds, IsBase, ConsistentIdentities;
    BaseIsBase(r1, c1);
    BaseIsBase(r2, c2);
    var m := |r1| + |r2|;
    LaterRounds(r1, Base(r1, c1), m);
    LaterRounds(r2, Base(r2, c2), m);
    AgreeRounds(r1, r2, c1, c2, s, m, u);
  }
}
