/** The declarative answer for records that end up unknown: shortest paths to a source of
    doubt, and the exact path and causes the rounds record for them. */
module Doubts {
  import opened Orders
  import opened Graph
  import opened Evidence
  import opened Invalidation
  import opened Propagation
  import opened FixedPoint
  import opened Decision

  /** A source of doubt: directly unknown (records on cycles included) or, when met as a
      dependency, absent from the graph or merely advisory. */
  ghost predicate Doubtful(records: Records, base: Outcomes, x: Id, asDependency: bool)
    requires records.Keys == base.Keys
  {
    (x in records && base[x].state == Unknown) ||
    (asDependency && (x !in records || records[x].authority == Advisory))
  }

  /** A dependency path through records off every cycle to a source of doubt. */
  ghost predicate Doubt(records: Records, base: Outcomes, p: seq<Id>, u: Id)
    requires records.Keys == base.Keys
  {
    && p != [] && p[0] == u && u in records
    && (forall i :: 0 <= i < |p| - 1 ==>
          p[i] in records && p[i] !in Cyclic(records) && p[i + 1] in Dependencies(records[p[i]]))
    && Doubtful(records, base, p[|p| - 1], |p| > 1)
  }

  /** What a recorded path shows after its last record: the rest of that record's cycle. */
  ghost function Tail(records: Records, x: Id): seq<Id> {
    if x in Cyclic(records) then SortSet(Component(DependencyGraph(records), x) - {x}) else []
  }

  ghost function Shown(records: Records, p: seq<Id>): seq<Id>
    requires p != []
  {
    p + Tail(records, p[|p| - 1])
  }

  ghost predicate HasDoubt(records: Records, base: Outcomes, u: Id, length: nat)
    requires records.Keys == base.Keys
  {
    exists p :: Doubt(records, base, p, u) && |p| <= length
  }

  /** p is a shortest path of doubt, and no shortest one is shown by a smaller list than `path`. */
  ghost predicate BestDoubt(records: Records, base: Outcomes, path: seq<Id>, p: seq<Id>, u: Id)
    requires records.Keys == base.Keys
  {
    Doubt(records, base, p, u) && path == Shown(records, p) &&
    forall q :: Doubt(records, base, q, u) ==>
      |p| < |q| || (|p| == |q| && LexLe(path, Shown(records, q)))
  }

  ghost predicate ShowsBest(records: Records, base: Outcomes, path: seq<Id>, u: Id, length: nat)
    requires records.Keys == base.Keys
  {
    exists p :: BestDoubt(records, base, path, p, u) && |p| <= length
  }

  /** For a record that no chain reaches: after k rounds it is unknown exactly when a path of
      doubt of at most k + 1 records starts at it, and then it shows the best one. */
  ghost predicate UnknownAfter(records: Records, base: Outcomes, values: Outcomes, k: nat, u: Id)
    requires records.Keys == base.Keys && u in values
  {
    && values[u].state != Invalidated
    && (values[u].state == Unknown <==> HasDoubt(records, base, u, k + 1))
    && (values[u].state == Unknown ==> ShowsBest(records, base, values[u].transitivePath, u, k + 1))
    && (values[u].state == Current ==> values[u].transitivePath == [])
  }

  /** What one round may assume about every record. */
  ghost predicate RoundState(records: Records, base: Outcomes, values: Outcomes, k: nat): (r: bool)
    requires records.Keys == base.Keys
    ensures r ==> values.Keys == records.Keys
  {
    && values.Keys == records.Keys
    && (forall d :: d in records && !Reachable(records, base, d) ==> UnknownAfter(records, base, values, k, d))
    && (forall d :: d in records && d in Cyclic(records) ==> values[d] == base[d] && base[d].state == Unknown)
  }

  // ----- paths of doubt -----

  lemma {:induction false} SafeDependency(records: Records, base: Outcomes, u: Id, d: Id)
    requires records.Keys == base.Keys
    requires u in records && u !in Cyclic(records) && d in Dependencies(records[u]) && d in records
    requires !Reachable(records, base, u)
    ensures !Reachable(records, base, d)
  {
    hide Cyclic, Chain, Dependencies;
    if Reachable(records, base, d) {
      var p :| Chain(records, base, p, d);
      ExtendChain(records, base, u, p, d);
      assert false;
    }
  }

  lemma {:induction false} ExtendDoubt(records: Records, base: Outcomes, u: Id, p: seq<Id>, d: Id)
    requires records.Keys == base.Keys
    requires u in records && u !in Cyclic(records) && d in Dependencies(records[u])
    requires Doubt(records, base, p, d)
    ensures Doubt(records, base, [u] + p, u)
    ensures Shown(records, [u] + p) == [u] + Shown(records, p)
  {
    hide Cyclic, Dependencies, Tail;
    var q := [u] + p;
    forall i | 0 <= i < |q| - 1
      ensures q[i] in records && q[i] !in Cyclic(records) && q[i + 1] in Dependencies(records[q[i]])
    {
      if i > 0 { assert p[i - 1] in records && p[i - 1 + 1] in Dependencies(records[p[i - 1]]); }
    }
  }

  lemma {:induction false} DirectDoubt(records: Records, base: Outcomes, u: Id, d: Id)
    requires records.Keys == base.Keys
    requires u in records && u !in Cyclic(records) && d in Dependencies(records[u])
    requires Doubtful(records, base, d, true)
    ensures Doubt(records, base, [u, d], u)
  {
    hide Cyclic, Dependencies;
  }

  lemma {:induction false} DoubtHead(records: Records, base: Outcomes, q: seq<Id>, u: Id)
    requires records.Keys == base.Keys && Doubt(records, base, q, u)
    ensures u in records && q != [] && q[0] == u
    ensures |q| > 1 ==> u !in Cyclic(records) && q[1] in Dependencies(records[u])
    ensures |q| == 1 ==> base[u].state == Unknown
    ensures |q| == 2 ==> Doubtful(records, base, q[1], true)
  {
    hide Cyclic, Dependencies;
    assert |q| > 1 ==> q[0] in records && q[0 + 1] in Dependencies(records[q[0]]);
  }

  lemma {:induction false} ShortenDoubt(records: Records, base: Outcomes, q: seq<Id>, u: Id)
    requires records.Keys == base.Keys && Doubt(records, base, q, u) && |q| > 2
    ensures Doubt(records, base, q[1..], q[1]) && q[1] in records
    ensures Shown(records, q) == [u] + Shown(records, q[1..])
  {
    hide Cyclic, Dependencies, Tail;
    var r := q[1..];
    forall i | 0 <= i < |r| - 1
      ensures r[i] in records && r[i] !in Cyclic(records) && r[i + 1] in Dependencies(records[r[i]])
    {
      assert q[i + 1] in records && q[i + 1 + 1] in Dependencies(records[q[i + 1]]);
    }
    assert q[0 + 1] in records;
  }

  // ----- rounds -----

  lemma {:induction false} NotInvalid(records: Records, base: Outcomes, k: nat, u: Id)
    requires IsBase(records, base) && u in records && !Reachable(records, base, u)
    ensures Rounds(records, base, k)[u].state != Invalidated
  {
    hide IsBase, Chain, Rounds, BestChain;
    InvalidAtRecord(records, base, k, u);
  }

  lemma {:induction false} OnlySingleton(records: Records, base: Outcomes, u: Id)
    requires records.Keys == base.Keys && u in records && base[u].state == Unknown
    ensures BestDoubt(records, base, Shown(records, [u]), [u], u)
  {
    hide Cyclic, Dependencies, Tail, LexLe;
    var p := [u];
    forall q | Doubt(records, base, q, u)
      ensures |p| < |q| || (|p| == |q| && LexLe(Shown(records, p), Shown(records, q)))
    {
      if |q| == 1 {
        assert q == p;
        LexRefl(Shown(records, p));
      }
    }
  }

  lemma {:induction false} UnknownInitially(records: Records, base: Outcomes, u: Id)
    requires IsBase(records, base) && u in records && !Reachable(records, base, u)
    ensures UnknownAfter(records, base, base, 0, u)
  {
    hide IsBase, Cyclic, Chain, Dependencies, Tail, Doubt, Reachable, Shown, BestDoubt;
    NotInvalid(records, base, 0, u);
    assert Rounds(records, base, 0) == base;
    BaseShown(records, base, u);
    if base[u].state == Unknown {
      OnlySingleton(records, base, u);
      SingleDoubt(records, base, 0, u);
      assert ShowsBest(records, base, base[u].transitivePath, u, 1);
    } else if HasDoubt(records, base, u, 1) {
      var p :| Doubt(records, base, p, u) && |p| <= 1;
      DoubtHead(records, base, p, u);
      assert false;
    }
  }

  lemma {:induction false} BaseShown(records: Records, base: Outcomes, u: Id)
    requires IsBase(records, base) && u in records
    ensures base[u].state == Unknown ==> base[u].transitivePath == Shown(records, [u])
    ensures base[u].state == Current ==> base[u].transitivePath == []
    ensures u in Cyclic(records) ==> base[u].state == Unknown
  {
    hide Cyclic, Component, SortSet;
  }

  /** A dependency counted as unknown starts a path of doubt of exactly k + 2 records, shown
      as the round shows it. */
  lemma {:induction false} DoubtedDependency(records: Records, base: Outcomes, values: Outcomes, k: nat, u: Id, d: Id)
    returns (p: seq<Id>)
    requires records.Keys == base.Keys && RoundState(records, base, values, k)
    requires u in records && u !in Cyclic(records) && !Reachable(records, base, u) && values[u].state == Current
    requires d in Dependencies(records[u]) && UnknownDependency(records, values, d)
    ensures Doubt(records, base, p, u) && |p| == k + 2 && p[1] == d
    ensures DependencyPath(u, d, values) == Shown(records, p)
  {
    hide Cyclic, Dependencies, Doubt, Reachable, Tail, BestDoubt;
    assert UnknownAfter(records, base, values, k, u) && !HasDoubt(records, base, u, k + 1);
    if d in records {
      SafeDependency(records, base, u, d);
      assert UnknownAfter(records, base, values, k, d);
    }
    if d in records && values[d].state == Unknown {
      var path := values[d].transitivePath;
      var q := ShownBy(records, base, path, d, k + 1);
      ExtendDoubt(records, base, u, q, d);
      p := [u] + q;
    } else {
      DirectDoubt(records, base, u, d);
      p := [u, d];
      NoTail(records, base, values, k, d);
    }
  }

  lemma {:induction false} ShownBy(records: Records, base: Outcomes, path: seq<Id>, u: Id,
        length: nat) returns (p: seq<Id>)
    requires records.Keys == base.Keys && ShowsBest(records, base, path, u, length)
    ensures BestDoubt(records, base, path, p, u) && Doubt(records, base, p, u) && |p| <= length
    ensures p != [] && p[0] == u && path == Shown(records, p) && path != []
  {
    hide Cyclic, Dependencies, Tail;
    p :| BestDoubt(records, base, path, p, u) && |p| <= length;
  }

  lemma {:induction false} NoTail(records: Records, base: Outcomes, values: Outcomes, k: nat, d: Id)
    requires records.Keys == base.Keys && RoundState(records, base, values, k)
    requires d !in records || values[d].state != Unknown
    ensures Tail(records, d) == []
  {
    hide UnknownAfter, Component, OnCycle;
  }

  /** Any path of doubt of at most k + 2 records starts with a dependency counted as unknown,
      and the round shows something no larger for it. */
  lemma {:induction false} DoubtDependency(records: Records, base: Outcomes, values: Outcomes, k: nat, u: Id,
        q: seq<Id>)
    requires records.Keys == base.Keys && RoundState(records, base, values, k)
    requires IsBase(records, base)
    requires u in records && !Reachable(records, base, u) && values[u].state == Current
    requires Doubt(records, base, q, u) && |q| <= k + 2
    ensures |q| == k + 2 && u !in Cyclic(records)
    ensures q[1] in Dependencies(records[u]) && UnknownDependency(records, values, q[1])
    ensures LexLe(DependencyPath(u, q[1], values), Shown(records, q))
  {
    hide Cyclic, Dependencies, Doubt, Reachable, Tail, BestDoubt, IsBase, LexLe;
    assert UnknownAfter(records, base, values, k, u) && !HasDoubt(records, base, u, k + 1);
    assert |q| == k + 2;
    DoubtHead(records, base, q, u);
    var d := q[1];
    if d in records {
      SafeDependency(records, base, u, d);
      assert UnknownAfter(records, base, values, k, d);
    }
    if |q| > 2 {
      ShortenDoubt(records, base, q, u);
      assert HasDoubt(records, base, d, k + 1);
      var path := values[d].transitivePath;
      var p := ShownBy(records, base, path, d, k + 1);
      ExtendDoubt(records, base, u, p, d);
      ComparedDoubt(records, base, path, p, d, q[1..]);
      LexCons(u, path, Shown(records, q[1..]));
    } else {
      LastStep(records, base, values, k, u, d);
      assert q == [u, d];
      LexRefl(Shown(records, q));
    }
  }

  lemma {:induction false} ComparedDoubt(records: Records, base: Outcomes, path: seq<Id>, p: seq<Id>, u: Id, q: seq<Id>)
    requires records.Keys == base.Keys && BestDoubt(records, base, path, p, u) && Doubt(records, base, q, u)
    requires |q| <= |p|
    ensures LexLe(path, Shown(records, q))
  {
    hide Doubt, Tail, LexLe;
  }

  lemma {:induction false} LastStep(records: Records, base: Outcomes, values: Outcomes, k: nat, u: Id, d: Id)
    requires records.Keys == base.Keys && RoundState(records, base, values, k) && IsBase(records, base)
    requires Doubtful(records, base, d, true)
    requires d in records ==> UnknownAfter(records, base, values, k, d)
    ensures UnknownDependency(records, values, d)
    ensures k == 0 ==> DependencyPath(u, d, values) == Shown(records, [u, d])
  {
    hide Cyclic, Dependencies, Tail, IsBase, Reachable, RoundState;
    if d in records && base[d].state == Unknown {
      SingleDoubt(records, base, k, d);
    }
    if d in records && values[d].state == Unknown {
      if k == 0 {
        var p := ShownBy(records, base, values[d].transitivePath, d, 1);
        assert p == [d];
      }
    } else {
      NoTail(records, base, values, k, d);
    }
  }

  lemma {:induction false} SingleDoubt(records: Records, base: Outcomes, k: nat, d: Id)
    requires records.Keys == base.Keys && d in records && base[d].state == Unknown
    ensures HasDoubt(records, base, d, k + 1)
  {
    hide Cyclic, Dependencies;
    assert Doubt(records, base, [d], d);
  }

  /** The dependencies that start a shortest path of doubt. */
  ghost predicate StartsShortest(records: Records, base: Outcomes, u: Id, d: Id)
    requires records.Keys == base.Keys
  {
    exists p :: Doubt(records, base, p, u) && |p| > 1 && p[1] == d &&
      forall q :: Doubt(records, base, q, u) ==> |p| <= |q|
  }

  ghost function DoubtCauses(records: Records, base: Outcomes, u: Id): set<Id>
    requires records.Keys == base.Keys && u in records
  {
    set d | d in Dependencies(records[u]) && StartsShortest(records, base, u, d)
  }

  ghost predicate CausesDoubtful(records: Records, base: Outcomes, values: Outcomes, u: Id)
    requires records.Keys == base.Keys && u in records && u in values
  {
    values[u].state == Unknown && base[u].state == Current ==>
      values[u].code == DependencyUnknown && values[u].directCauseIds == SortSet(DoubtCauses(records, base, u))
  }

  lemma {:induction false} UnknownOutcomeFields(u: Id, ds: seq<Id>, values: Outcomes)
    requires ds != []
    ensures var o := UnknownOutcome(u, ds, values);
      o.state == Unknown && o.code == DependencyUnknown && o.directCauseIds == SortSet(Elems(ds))
      && o.transitivePath == LexMin(Paths(u, ds, values))
  {
    hide LexMin, Paths, SortSet;
  }

  /** A record first found unknown in this round shows its best path of doubt. */
  lemma {:induction false} NewlyDoubted(records: Records, base: Outcomes, values: Outcomes, k: nat, u: Id)
    requires IsBase(records, base) && RoundState(records, base, values, k)
    requires u in records && u !in Cyclic(records) && !Reachable(records, base, u) && values[u].state == Current
    requires UnknownDependencies(records, values, Dependencies(records[u])) != []
    ensures var path := LexMin(Paths(u, UnknownDependencies(records, values, Dependencies(records[u])), values));
      HasDoubt(records, base, u, k + 2) && ShowsBest(records, base, path, u, k + 2)
  {
    hide IsBase, Cyclic, Dependencies, UnknownDependencies, Doubt, Reachable, RoundState, LexLe, LexMin, Shown,
      DependencyPath;
    var unknown := UnknownDependencies(records, values, Dependencies(records[u]));
    var paths := Paths(u, unknown, values);
    var path := LexMin(paths);
    assert path in paths;
    var d :| d in unknown && path == DependencyPath(u, d, values);
    var p := DoubtedDependency(records, base, values, k, u, d);
    forall q | Doubt(records, base, q, u)
      ensures |p| < |q| || (|p| == |q| && LexLe(path, Shown(records, q)))
    {
      DoubtHead(records, base, q, u);
      if |q| <= k + 2 {
        DoubtDependency(records, base, values, k, u, q);
        assert q[1] in unknown;
        assert DependencyPath(u, q[1], values) in paths;
        LexTransitive(path, DependencyPath(u, q[1], values), Shown(records, q));
      }
    }
    DoubtHead(records, base, p, u);
    assert BestDoubt(records, base, path, p, u);
  }

  lemma {:induction false} NewlyDoubtedCauses(records: Records, base: Outcomes, values: Outcomes, k: nat, u: Id)
    requires IsBase(records, base) && RoundState(records, base, values, k)
    requires u in records && u !in Cyclic(records) && !Reachable(records, base, u) && values[u].state == Current
    requires UnknownDependencies(records, values, Dependencies(records[u])) != []
    ensures Elems(UnknownDependencies(records, values, Dependencies(records[u]))) == DoubtCauses(records, base, u)
  {
    hide IsBase, Cyclic, Dependencies, UnknownDependencies, Doubt, Reachable, RoundState, LexLe, Shown,
      DependencyPath, UnknownDependency;
    var unknown := UnknownDependencies(records, values, Dependencies(records[u]));
    var d0 := unknown[0];
    assert d0 in unknown;
    var p0 := DoubtedDependency(records, base, values, k, u, d0);
    forall q | Doubt(records, base, q, u) ensures |q| >= k + 2 {
      if |q| < k + 2 { DoubtDependency(records, base, values, k, u, q); }
    }
    forall d ensures d in unknown <==> d in DoubtCauses(records, base, u) {
      if d in unknown {
        var p := DoubtedDependency(records, base, values, k, u, d);
        assert |p| > 1 && p[1] == d;
      }
      if d in DoubtCauses(records, base, u) {
        var p :| Doubt(records, base, p, u) && |p| > 1 && p[1] == d &&
          forall q :: Doubt(records, base, q, u) ==> |p| <= |q|;
        DoubtDependency(records, base, values, k, u, p);
      }
    }
  }

  lemma {:induction false} LongerDoubt(records: Records, base: Outcomes, path: seq<Id>, u: Id, length: nat)
    requires records.Keys == base.Keys
    ensures HasDoubt(records, base, u, length) ==> HasDoubt(records, base, u, length + 1)
    ensures ShowsBest(records, base, path, u, length) ==> ShowsBest(records, base, path, u, length + 1)
  {
    hide Doubt, BestDoubt;
  }

  lemma {:induction false} UnknownStep(records: Records, base: Outcomes, k: nat, u: Id)
    requires IsBase(records, base) && RoundState(records, base, Rounds(records, base, k), k)
    requires u in records && !Reachable(records, base, u)
    requires CausesDoubtful(records, base, Rounds(records, base, k), u)
    ensures UnknownAfter(records, base, Rounds(records, base, k + 1), k + 1, u)
    ensures CausesDoubtful(records, base, Rounds(records, base, k + 1), u)
  {
    hide IsBase, Cyclic, Dependencies, UnknownDependencies, InvalidDependencies, Doubt, Reachable, Update, Rounds,
      UnknownOutcome, BestDoubt, ShowsBest, HasDoubt, DoubtCauses, LexMin, Paths;
    var values, after := Rounds(records, base, k), Rounds(records, base, k + 1);
    assert UnknownAfter(records, base, values, k, u);
    NotInvalid(records, base, k + 1, u);
    RoundsStep(records, base, k, u);
    LongerDoubt(records, base, values[u].transitivePath, u, k + 1);
    if u in Cyclic(records) {
      FrozenUpdate(records, Cyclic(records), values, u);
    } else {
      UpdateInverse(records, Cyclic(records), values, u);
      var unknown := UnknownDependencies(records, values, Dependencies(records[u]));
      if values[u].state == Unknown {
      } else if after[u].state == Unknown {
        UnknownOutcomeFields(u, unknown, values);
        NewlyDoubted(records, base, values, k, u);
        NewlyDoubtedCauses(records, base, values, k, u);
      } else {
        NoDoubtYet(records, base, values, k, u);
      }
    }
  }

  lemma {:induction false} NoDoubtYet(records: Records, base: Outcomes, values: Outcomes, k: nat, u: Id)
    requires IsBase(records, base) && RoundState(records, base, values, k)
    requires u in records && !Reachable(records, base, u) && values[u].state == Current
    requires UnknownDependencies(records, values, Dependencies(records[u])) == []
    ensures !HasDoubt(records, base, u, k + 2)
  {
    hide IsBase, Cyclic, Dependencies, Doubt, Reachable, RoundState, UnknownDependency, LexLe;
    assert forall d :: d in Dependencies(records[u]) && UnknownDependency(records, values, d) ==>
      d in UnknownDependencies(records, values, Dependencies(records[u]));
    if HasDoubt(records, base, u, k + 2) {
      var q :| Doubt(records, base, q, u) && |q| <= k + 2;
      DoubtDependency(records, base, values, k, u, q);
      assert false;
    }
  }

  ghost predicate DoubtAt(records: Records, base: Outcomes, k: nat)
    requires records.Keys == base.Keys
  {
    && RoundState(records, base, Rounds(records, base, k), k)
    && (forall u :: u in records && !Reachable(records, base, u) ==>
          CausesDoubtful(records, base, Rounds(records, base, k), u))
  }

  lemma {:induction false} DoubtFirst(records: Records, base: Outcomes)
    requires IsBase(records, base)
    ensures DoubtAt(records, base, 0)
  {
    hide IsBase, UnknownAfter, Cyclic, Reachable;
    assert Rounds(records, base, 0) == base;
    forall d | d in records
      ensures !Reachable(records, base, d) ==> UnknownAfter(records, base, base, 0, d)
      ensures d in Cyclic(records) ==> base[d].state == Unknown
    {
      BaseShown(records, base, d);
      if !Reachable(records, base, d) { UnknownInitially(records, base, d); }
    }
  }

  lemma {:induction false} DoubtNext(records: Records, base: Outcomes, k: nat)
    requires IsBase(records, base) && DoubtAt(records, base, k)
    ensures DoubtAt(records, base, k + 1)
  {
    hide IsBase, UnknownAfter, Cyclic, Reachable, Rounds, CausesDoubtful;
    forall d | d in records
      ensures !Reachable(records, base, d) ==>
        (UnknownAfter(records, base, Rounds(records, base, k + 1), k + 1, d)
         && CausesDoubtful(records, base, Rounds(records, base, k + 1), d))
      ensures d in Cyclic(records) ==>
        Rounds(records, base, k + 1)[d] == base[d] && base[d].state == Unknown
    {
      if !Reachable(records, base, d) { UnknownStep(records, base, k, d); }
      if d in Cyclic(records) {
        CyclicFrozen(records, base, k + 1, d);
        BaseShown(records, base, d);
      }
    }
  }

  lemma {:induction false} DoubtRounds(records: Records, base: Outcomes, k: nat)
    requires IsBase(records, base)
    ensures DoubtAt(records, base, k)
  {
    hide IsBase, DoubtAt;
    if k == 0 {
      DoubtFirst(records, base);
    } else {
      DoubtRounds(records, base, k - 1);
      DoubtNext(records, base, k - 1);
    }
  }

  ghost predicate InDoubt(records: Records, base: Outcomes, u: Id)
    requires records.Keys == base.Keys
  {
    exists p :: Doubt(records, base, p, u)
  }

  /** A record not invalidated ends up unknown exactly when a dependency path through records
      off every cycle leads from it to a source of doubt. It then shows the lexicographically
      least rendering of a shortest such path; and when it was not unknown by itself, its
      causes are exactly the dependencies that start a shortest one. Otherwise it is current. */
  lemma {:induction false} FinallyUnknown(records: Records, base: Outcomes, u: Id)
    requires IsBase(records, base) && u in records && !Reachable(records, base, u)
    ensures var v := Final(records, base)[u];
      && (v.state == if InDoubt(records, base, u) then Unknown else Current)
      && (v.state == Unknown ==> exists p :: BestDoubt(records, base, v.transitivePath, p, u))
      && CausesDoubtful(records, base, Final(records, base), u)
  {
    hide IsBase, Rounds, Doubt, CausesDoubtful, BestDoubt, Reachable;
    var n := |records|;
    DoubtRounds(records, base, n);
    assert UnknownAfter(records, base, Final(records, base), n, u);
    if InDoubt(records, base, u) {
      var p :| Doubt(records, base, p, u);
      var m := |p| + n;
      LaterRounds(records, base, m);
      DoubtRounds(records, base, m);
      assert UnknownAfter(records, base, Final(records, base), m, u);
      assert HasDoubt(records, base, u, m + 1);
    }
  }
}
