/** The round bound is exact: for every n there is a graph of n records that needs n rounds. */
module Tightness {
  import opened Orders
  import opened Graph
  import opened Evidence
  import opened Invalidation
  import opened Propagation
  import opened Decision
  import opened Doubts
  import opened Engine

  function Link(i: Id): EvidenceRecord {
    EvidenceRecord(i, 0, Deterministic, 0, 0, 0, None, Complete, [Invalidator(EvidenceDependency, i + 1, true)])
  }

  /** Records 0 to n - 1, each depending on the next; the last depends on an absent record. */
  function Line(n: nat): Records {
    map i | 0 <= i < n :: Link(i)
  }

  const QUIET := Context([], 0, 0, {0}, map[])

  lemma {:induction false} LineSize(n: nat)
    ensures |Line(n)| == n
  {
    if n > 0 {
      LineSize(n - 1);
      assert Line(n).Keys == Line(n - 1).Keys + {n - 1};
      assert |Line(n).Keys| == |Line(n - 1).Keys| + 1;
    } else {
      assert Line(0).Keys == {};
    }
  }

  lemma {:induction false} LinkFacts(i: Id)
    ensures Dependencies(Link(i)) == [i + 1]
    ensures EvaluateDirect(Link(i), QUIET) == CurrentOutcome(i)
  {
    var inv := Link(i).invalidators;
    assert inv[1..] == [];
    assert DependencySubjects(inv[1..]) == [];
    assert Observations(Link(i), inv[1..], QUIET) == [];
    assert Observations(Link(i), inv, QUIET) == [];
  }

  lemma {:induction false} LineReach(n: nat, u: Id, v: Id)
    requires Reach(DependencyGraph(Line(n)), u, v)
    ensures u <= v
  {
    hide DependencyGraph, Dependencies;
    var g := DependencyGraph(Line(n));
    var p :| WalkFromTo(g, p, u, v);
    var i := 0;
    while i < |p| - 1
      invariant 0 <= i < |p| && u <= p[i]
    {
      LineEdge(n, p[i], p[i + 1]);
      i := i + 1;
    }
  }

  lemma {:induction false} LineEdge(n: nat, u: Id, v: Id)
    requires Edge(DependencyGraph(Line(n)), u, v)
    ensures v == u + 1
  {
    hide Dependencies;
    DependencyEdges(Line(n));
    LinkFacts(u);
  }

  lemma {:induction false} LineAcyclic(n: nat)
    ensures Cyclic(Line(n)) == {}
  {
    hide DependencyGraph, Reach, Edge;
    var g := DependencyGraph(Line(n));
    forall u ensures !OnCycle(g, u) {
      if OnCycle(g, u) {
        var v :| Edge(g, u, v) && Reach(g, v, u);
        LineEdge(n, u, v);
        LineReach(n, v, u);
      }
    }
  }

  lemma {:induction false} LineBase(n: nat, i: Id)
    requires 0 <= i < n
    ensures Base(Line(n), QUIET)[i] == CurrentOutcome(i)
  {
    hide Cyclic, CycleOutcome, EvaluateDirect, Base;
    BaseAt(Line(n), QUIET, i);
    LineAcyclic(n);
    LinkFacts(i);
  }

  lemma {:induction false} LineDoubt(n: nat, p: seq<Id>)
    requires Doubt(Line(n), Base(Line(n), QUIET), p, 0)
    ensures |p| == n + 1
  {
    hide Base, Cyclic, Dependencies;
    var base := Base(Line(n), QUIET);
    var i := 0;
    while i < |p| - 1
      invariant 0 <= i < |p| && p[i] == i
    {
      assert p[i] in Line(n) && p[i + 1] in Dependencies(Line(n)[p[i]]);
      LinkFacts(i);
      i := i + 1;
    }
    if i < n { LineBase(n, i); }
    if i > n { LinePrefix(n, p, n); }
  }

  lemma {:induction false} LinePrefix(n: nat, p: seq<Id>, j: nat)
    requires Doubt(Line(n), Base(Line(n), QUIET), p, 0) && j < |p| - 1
    ensures p[j] == j && p[j] in Line(n)
  {
    hide Base, Cyclic, Dependencies;
    if j > 0 {
      LinePrefix(n, p, j - 1);
      assert p[j - 1] in Line(n) && p[j - 1 + 1] in Dependencies(Line(n)[p[j - 1]]);
      LinkFacts(j - 1);
    }
    assert p[j] in Line(n);
  }

  lemma {:induction false} LineHasDoubt(n: nat)
    requires n > 0
    ensures HasDoubt(Line(n), Base(Line(n), QUIET), 0, n + 1)
  {
    hide Base, Dependencies;
    LineAcyclic(n);
    hide Cyclic;
    var p := seq(n + 1, i => i);
    forall i | 0 <= i < |p| - 1
      ensures p[i] in Line(n) && p[i] !in Cyclic(Line(n)) && p[i + 1] in Dependencies(Line(n)[p[i]])
    {
      LinkFacts(i);
    }
    assert Doubt(Line(n), Base(Line(n), QUIET), p, 0);
  }

  lemma {:induction false} LineNotReachable(n: nat)
    requires n > 0
    ensures !Reachable(Line(n), Base(Line(n), QUIET), 0)
  {
    hide Base, Cyclic, DependencyGraph;
    forall p ensures !Chain(Line(n), Base(Line(n), QUIET), p, 0) {
      if Chain(Line(n), Base(Line(n), QUIET), p, 0) {
        LineBase(n, p[|p| - 1]);
      }
    }
  }

  /** With n records, n - 1 rounds can fall short: the first record of a line only learns of
      the absent record at its end in round n. */
  lemma {:induction false} RoundBoundIsExact(n: nat)
    requires n > 0
    ensures var records, base := Line(n), Base(Line(n), QUIET);
      && |records| == n && IsBase(records, base)
      && Rounds(records, base, n - 1)[0].state == Current
      && Rounds(records, base, n)[0].state == Unknown
  {
    hide Base, Rounds, IsBase, Doubt, Reachable, Line, ShowsBest;
    var records, base := Line(n), Base(Line(n), QUIET);
    LineSize(n);
    LineIds(n);
    BaseIsBase(records, QUIET);
    LineNotReachable(n);
    DoubtRounds(records, base, n - 1);
    DoubtRounds(records, base, n);
    assert UnknownAfter(records, base, Rounds(records, base, n - 1), n - 1, 0);
    assert UnknownAfter(records, base, Rounds(records, base, n), n, 0);
    LineHasDoubt(n);
    forall p | Doubt(records, base, p, 0) ensures |p| > n {
      LineDoubt(n, p);
    }
  }

  lemma {:induction false} LineIds(n: nat)
    ensures ConsistentIdentities(Line(n)) && (n > 0 ==> 0 in Line(n))
  {
  }
}
