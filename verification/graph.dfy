/** Finite directed graphs given by adjacency lists, reachability along edges, and the
    iterative Kosaraju algorithm with its two explicit stacks. */
module Graph {
  import opened Orders

  type Id = int
  type Adjacency = map<Id, seq<Id>>

  // ----- reachability -----

  predicate Edge(g: Adjacency, u: Id, v: Id) {
    u in g && v in g && v in g[u]
  }

  ghost predicate IsWalk(g: Adjacency, p: seq<Id>) {
    p != [] && p[0] in g && forall i :: 0 <= i < |p| - 1 ==> Edge(g, p[i], p[i + 1])
  }

  ghost predicate WalkFromTo(g: Adjacency, p: seq<Id>, u: Id, v: Id) {
    IsWalk(g, p) && p[0] == u && p[|p| - 1] == v
  }

  /** v can be reached from u along zero or more edges. */
  ghost predicate Reach(g: Adjacency, u: Id, v: Id) {
    exists p :: WalkFromTo(g, p, u, v)
  }

  ghost predicate Mutual(g: Adjacency, u: Id, v: Id) {
    Reach(g, u, v) && Reach(g, v, u)
  }

  /** u lies on a cycle, a self-loop included. */
  ghost predicate OnCycle(g: Adjacency, u: Id) {
    exists v :: Edge(g, u, v) && Reach(g, v, u)
  }

  lemma {:induction false} WalkInGraph(g: Adjacency, p: seq<Id>, i: nat)
    requires IsWalk(g, p) && i < |p|
    ensures p[i] in g
  {
    if i > 0 {
      assert Edge(g, p[i - 1], p[i - 1 + 1]);
    }
  }

  lemma {:induction false} ReachInGraph(g: Adjacency, u: Id, v: Id)
    requires Reach(g, u, v)
    ensures u in g && v in g
  {
    var p :| WalkFromTo(g, p, u, v);
    WalkInGraph(g, p, |p| - 1);
  }

  lemma {:induction false} ReachRefl(g: Adjacency, u: Id)
    requires u in g
    ensures Reach(g, u, u)
  {
    assert WalkFromTo(g, [u], u, u);
  }

  lemma {:induction false} ReachEdge(g: Adjacency, u: Id, v: Id)
    requires Edge(g, u, v)
    ensures Reach(g, u, v)
  {
    assert WalkFromTo(g, [u, v], u, v);
  }

  lemma {:induction false} ReachTrans(g: Adjacency, u: Id, v: Id, w: Id)
    requires Reach(g, u, v) && Reach(g, v, w)
    ensures Reach(g, u, w)
  {
    var p :| WalkFromTo(g, p, u, v);
    var q :| WalkFromTo(g, q, v, w);
    var r := p + q[1..];
    forall i | 0 <= i < |r| - 1 ensures Edge(g, r[i], r[i + 1]) {
      if i < |p| - 1 {
        assert Edge(g, p[i], p[i + 1]);
      } else {
        assert Edge(g, q[i - |p| + 1], q[i - |p| + 1 + 1]);
      }
    }
    assert WalkFromTo(g, r, u, w);
  }

  lemma {:induction false} ReachStep(g: Adjacency, u: Id, v: Id, w: Id)
    requires Reach(g, u, v) && Edge(g, v, w)
    ensures Reach(g, u, w)
  {
    ReachEdge(g, v, w);
    ReachTrans(g, u, v, w);
  }

  lemma {:induction false} WalkSegment(g: Adjacency, p: seq<Id>, i: nat, j: nat)
    requires IsWalk(g, p) && i <= j < |p|
    ensures Reach(g, p[i], p[j])
  {
    var q := p[i..j + 1];
    WalkInGraph(g, p, i);
    forall k | 0 <= k < |q| - 1 ensures Edge(g, q[k], q[k + 1]) {
      assert Edge(g, p[i + k], p[i + k + 1]);
    }
    assert WalkFromTo(g, q, p[i], p[j]);
  }

  /** Induction on reachability: a set closed under edges keeps what it can reach. */
  lemma {:induction false} ReachClosed(g: Adjacency, s: set<Id>, u: Id, v: Id)
    requires u in s && Reach(g, u, v)
    requires forall x, y :: x in s && Edge(g, x, y) ==> y in s
    ensures v in s
  {
    var p :| WalkFromTo(g, p, u, v);
    var i := 0;
    while i < |p| - 1
      invariant 0 <= i < |p| && p[i] in s
    {
      assert Edge(g, p[i], p[i + 1]);
      i := i + 1;
    }
  }

  /** The same, walking backwards from v along nodes that lie between u and v. */
  lemma {:induction false} ReachClosedBackwards(g: Adjacency, s: set<Id>, u: Id, v: Id)
    requires v in s && Reach(g, u, v)
    requires forall x, y :: y in s && Edge(g, x, y) && Reach(g, u, x) && Reach(g, y, v) ==> x in s
    ensures u in s
  {
    var p :| WalkFromTo(g, p, u, v);
    var i := |p| - 1;
    while i > 0
      invariant 0 <= i < |p| && p[i] in s
    {
      assert Edge(g, p[i - 1], p[i - 1 + 1]);
      WalkSegment(g, p, 0, i - 1);
      WalkSegment(g, p, i, |p| - 1);
      i := i - 1;
    }
  }

  lemma {:induction false} MutualRefl(g: Adjacency, u: Id)
    requires u in g
    ensures Mutual(g, u, u)
  {
    ReachRefl(g, u);
  }

  lemma {:induction false} MutualTrans(g: Adjacency, u: Id, v: Id, w: Id)
    requires Mutual(g, u, v) && Mutual(g, v, w)
    ensures Mutual(g, u, w)
  {
    ReachTrans(g, u, v, w);
    ReachTrans(g, w, v, u);
  }

  // ----- first pass: depth-first finish order -----

  /** One entry of the first pass's stack: a node and its next neighbour's index. */
  datatype Frame = Frame(node: Id, index: nat)

  ghost predicate ClosedGraph(g: Adjacency) {
    forall u, i :: u in g && 0 <= i < |g[u]| ==> g[u][i] in g
  }

  ghost predicate Gray(stack: seq<Frame>, u: Id) {
    exists m :: 0 <= m < |stack| && stack[m].node == u
  }

  /** u's component still has an open node, or has a node finished no earlier than w. */
  ghost predicate Covered(g: Adjacency, stack: seq<Frame>, f: seq<Id>, u: Id, w: Id) {
    (exists m :: 0 <= m < |stack| && Mutual(g, u, stack[m].node)) ||
    (exists j, k :: 0 <= j <= k < |f| && f[j] == w && Mutual(g, u, f[k]))
  }

  ghost predicate StackShape(g: Adjacency, visited: set<Id>, stack: seq<Frame>) {
    && (forall m :: 0 <= m < |stack| ==> stack[m].node in g && stack[m].index <= |g[stack[m].node]|)
    && (forall m, t :: 0 <= m < |stack| && 0 <= t < stack[m].index ==> g[stack[m].node][t] in visited)
    && (forall m, n :: 0 <= m < n < |stack| ==> stack[m].node != stack[n].node)
    && (forall m, n :: 0 <= m <= n < |stack| ==> Reach(g, stack[m].node, stack[n].node))
  }

  ghost predicate DfsShape(g: Adjacency, visited: set<Id>, stack: seq<Frame>, f: seq<Id>) {
    && ClosedGraph(g) && visited <= g.Keys
    && StackShape(g, visited, stack)
    && Distinct(f)
    && (forall u :: u in visited <==> u in f || Gray(stack, u))
    && (forall i :: 0 <= i < |f| ==> !Gray(stack, f[i]))
    && (forall i, t :: 0 <= i < |f| && 0 <= t < |g[f[i]]| ==> g[f[i]][t] in visited)
  }

  ghost predicate DfsCover(g: Adjacency, stack: seq<Frame>, f: seq<Id>) {
    forall i, w :: 0 <= i < |f| && Reach(g, f[i], w) ==> Covered(g, stack, f, f[i], w)
  }

  ghost predicate DfsInv(g: Adjacency, visited: set<Id>, stack: seq<Frame>, f: seq<Id>): (r: bool)
    ensures r ==> forall m :: 0 <= m < |stack| ==> stack[m].node in g && stack[m].index <= |g[stack[m].node]|
  {
    DfsShape(g, visited, stack, f) && DfsCover(g, stack, f)
  }

  /** The property the second pass relies on: whatever a node reaches finished no later
      than some member of that node's own component. */
  ghost predicate KosarajuOrder(g: Adjacency, f: seq<Id>) {
    forall i, j {:trigger LateMember(g, f, i, j)} ::
      0 <= i < |f| && 0 <= j < |f| && Reach(g, f[i], f[j]) ==> LateMember(g, f, i, j)
  }

  /** Some member of f[i]'s component finished no earlier than f[j]. */
  ghost predicate LateMember(g: Adjacency, f: seq<Id>, i: nat, j: nat)
    requires i < |f|
  {
    exists k :: j <= k < |f| && Mutual(g, f[i], f[k])
  }

  ghost function Work(g: Adjacency, stack: seq<Frame>): nat
    requires forall m :: 0 <= m < |stack| ==> stack[m].node in g && stack[m].index <= |g[stack[m].node]|
  {
    if stack == [] then 0
    else
      var top := stack[|stack| - 1];
      Work(g, stack[..|stack| - 1]) + |g[top.node]| - top.index + 1
  }

  lemma {:induction false} PushFrame(g: Adjacency, visited: set<Id>, stack: seq<Frame>, f: seq<Id>, v: Id)
    requires DfsInv(g, visited, stack, f)
    requires v in g && v !in visited
    requires stack == [] || Edge(g, stack[|stack| - 1].node, v)
    ensures DfsInv(g, visited + {v}, stack + [Frame(v, 0)], f)
  {
    var stack' := stack + [Frame(v, 0)];
    assert forall m :: 0 <= m < |stack| ==> stack'[m] == stack[m];
    forall m, n | 0 <= m <= n < |stack'| ensures Reach(g, stack'[m].node, stack'[n].node) {
      if n == |stack| {
        if m == n { ReachRefl(g, v); } else { ReachStep(g, stack[m].node, stack[n - 1].node, v); }
      }
    }
    forall m | 0 <= m < |stack| ensures stack[m].node != v {
      assert Gray(stack, stack[m].node);
    }
    forall u ensures u in visited + {v} <==> u in f || Gray(stack', u) {
      if Gray(stack, u) {
        var m :| 0 <= m < |stack| && stack[m].node == u;
        assert stack'[m].node == u;
      }
      if u == v { assert stack'[|stack|].node == u; }
    }
    forall i | 0 <= i < |f| ensures !Gray(stack', f[i]) {
      assert !Gray(stack, f[i]);
      assert f[i] in visited;
    }
    forall i, w | 0 <= i < |f| && Reach(g, f[i], w) ensures Covered(g, stack', f, f[i], w) {
      assert Covered(g, stack, f, f[i], w);
      if m :| 0 <= m < |stack| && Mutual(g, f[i], stack[m].node) {
        assert Mutual(g, f[i], stack'[m].node);
      }
    }
  }

  lemma {:induction false} AdvanceFrame(g: Adjacency, visited: set<Id>, stack: seq<Frame>, f: seq<Id>)
    requires DfsInv(g, visited, stack, f) && stack != []
    requires var top := stack[|stack| - 1];
      top.index < |g[top.node]| && g[top.node][top.index] in visited
    ensures var top := stack[|stack| - 1];
      var stack' := stack[..|stack| - 1] + [Frame(top.node, top.index + 1)];
      DfsInv(g, visited, stack', f) && Work(g, stack') < Work(g, stack)
  {
    hide Reach, Mutual;
    var n := |stack| - 1;
    var top := stack[n];
    var stack' := stack[..n] + [Frame(top.node, top.index + 1)];
    assert stack'[..n] == stack[..n];
    assert forall m :: 0 <= m < |stack| ==> stack'[m].node == stack[m].node;
    assert forall u :: Gray(stack', u) <==> Gray(stack, u);
    forall i, w | 0 <= i < |f| && Reach(g, f[i], w) ensures Covered(g, stack', f, f[i], w) {
      assert Covered(g, stack, f, f[i], w);
      if m :| 0 <= m < |stack| && Mutual(g, f[i], stack[m].node) {
        assert Mutual(g, f[i], stack'[m].node);
      }
    }
  }

  /** Everything the finishing node reaches is finished too, unless it reaches a node that
      is still open below it on the stack. */
  lemma {:induction false} FinishReaches(g: Adjacency, visited: set<Id>, stack: seq<Frame>, f: seq<Id>, w: Id)
    requires DfsShape(g, visited, stack, f) && stack != []
    requires var top := stack[|stack| - 1]; top.index == |g[top.node]| && Reach(g, top.node, w)
    ensures w in f + [stack[|stack| - 1].node] ||
      exists m :: 0 <= m < |stack| - 1 && Mutual(g, stack[|stack| - 1].node, stack[m].node)
  {
    var n := |stack| - 1;
    var top := stack[n].node;
    if forall m :: 0 <= m < n ==> !Reach(g, top, stack[m].node) {
      var s := set x | x in visited && x in f + [top] && Reach(g, top, x);
      ReachRefl(g, top);
      assert Gray(stack, top);
      forall x, y | x in s && Edge(g, x, y) ensures y in s {
        ReachStep(g, top, x, y);
        var t :| 0 <= t < |g[x]| && g[x][t] == y;
        if x in f {
          var i :| 0 <= i < |f| && f[i] == x;
        } else {
          assert x == stack[n].node && t < stack[n].index;
        }
        assert y in visited;
        if y !in f {
          var m :| 0 <= m < |stack| && stack[m].node == y;
          assert m == n;
        }
      }
      ReachClosed(g, s, top, w);
    } else {
      var m :| 0 <= m < n && Reach(g, top, stack[m].node);
      assert Reach(g, stack[m].node, stack[n].node);
      assert Mutual(g, top, stack[m].node);
    }
  }

  lemma {:induction false} FinishShape(g: Adjacency, visited: set<Id>, stack: seq<Frame>, f: seq<Id>)
    requires DfsShape(g, visited, stack, f) && stack != []
    requires var top := stack[|stack| - 1]; top.index == |g[top.node]|
    ensures DfsShape(g, visited, stack[..|stack| - 1], f + [stack[|stack| - 1].node])
    ensures Work(g, stack[..|stack| - 1]) < Work(g, stack)
  {
    var n := |stack| - 1;
    var top := stack[n].node;
    var stack', f' := stack[..n], f + [top];
    assert Gray(stack, top);
    assert forall m :: 0 <= m < n ==> stack'[m] == stack[m];
    assert forall i :: 0 <= i < |f| ==> f'[i] == f[i];
    forall u ensures u in visited <==> u in f' || Gray(stack', u) {
      if Gray(stack, u) && u != top {
        var m :| 0 <= m < |stack| && stack[m].node == u;
        assert stack'[m].node == u;
      }
      if Gray(stack', u) {
        var m :| 0 <= m < |stack'| && stack'[m].node == u;
        assert stack[m].node == u;
      }
    }
    forall i | 0 <= i < |f'| ensures !Gray(stack', f'[i]) {
      if i < |f| { assert !Gray(stack, f[i]); }
    }
    forall i, t | 0 <= i < |f'| && 0 <= t < |g[f'[i]]| ensures g[f'[i]][t] in visited {
      if i == |f| { assert f'[i] == stack[n].node; }
    }
  }

  lemma {:induction false} FinishCovers(g: Adjacency, visited: set<Id>, stack: seq<Frame>, f: seq<Id>, u: Id, w: Id)
    requires DfsShape(g, visited, stack, f) && stack != []
    requires var top := stack[|stack| - 1]; top.index == |g[top.node]|
    requires Mutual(g, u, stack[|stack| - 1].node) && Reach(g, u, w)
    ensures Covered(g, stack[..|stack| - 1], f + [stack[|stack| - 1].node], u, w)
  {
    var n := |stack| - 1;
    var top := stack[n].node;
    var stack', f' := stack[..n], f + [top];
    ReachTrans(g, top, u, w);
    FinishReaches(g, visited, stack, f, w);
    if w in f' {
      var j :| 0 <= j < |f'| && f'[j] == w;
      assert 0 <= j <= |f| < |f'| && Mutual(g, u, f'[|f|]);
    } else {
      var m :| 0 <= m < n && Mutual(g, top, stack[m].node);
      MutualTrans(g, u, top, stack[m].node);
      assert Mutual(g, u, stack'[m].node);
    }
  }

  lemma {:induction false} FinishCover(g: Adjacency, visited: set<Id>, stack: seq<Frame>, f: seq<Id>)
    requires DfsInv(g, visited, stack, f) && stack != []
    requires var top := stack[|stack| - 1]; top.index == |g[top.node]|
    ensures DfsCover(g, stack[..|stack| - 1], f + [stack[|stack| - 1].node])
  {
    var n := |stack| - 1;
    var top := stack[n].node;
    var stack', f' := stack[..n], f + [top];
    MutualRefl(g, top);
    forall i, w | 0 <= i < |f'| && Reach(g, f'[i], w) ensures Covered(g, stack', f', f'[i], w) {
      if Mutual(g, f'[i], top) {
        FinishCovers(g, visited, stack, f, f'[i], w);
      } else {
        assert Covered(g, stack, f, f[i], w);
        CoveredWithoutTop(g, stack, f, f[i], w);
      }
    }
  }

  lemma {:induction false} CoveredWithoutTop(g: Adjacency, stack: seq<Frame>, f: seq<Id>, u: Id, w: Id)
    requires stack != [] && Covered(g, stack, f, u, w)
    requires !Mutual(g, u, stack[|stack| - 1].node)
    ensures Covered(g, stack[..|stack| - 1], f + [stack[|stack| - 1].node], u, w)
  {
    var n := |stack| - 1;
    var stack', f' := stack[..n], f + [stack[n].node];
    if m :| 0 <= m < |stack| && Mutual(g, u, stack[m].node) {
      assert m < n && Mutual(g, u, stack'[m].node);
    } else {
      var j, k :| 0 <= j <= k < |f| && f[j] == w && Mutual(g, u, f[k]);
      assert f'[j] == w && Mutual(g, u, f'[k]);
    }
  }

  lemma {:induction false} PushNeighbour(g: Adjacency, visited: set<Id>, stack: seq<Frame>, f: seq<Id>)
    requires DfsInv(g, visited, stack, f) && stack != []
    requires var top := stack[|stack| - 1];
      top.index < |g[top.node]| && g[top.node][top.index] !in visited
    ensures var top := stack[|stack| - 1];
      var v := g[top.node][top.index];
      DfsInv(g, visited + {v}, stack[..|stack| - 1] + [Frame(top.node, top.index + 1)] + [Frame(v, 0)], f) &&
      |g.Keys - (visited + {v})| < |g.Keys - visited|
  {
    hide Reach, Mutual;
    var n := |stack| - 1;
    var top := stack[n];
    var v := g[top.node][top.index];
    PushFrame(g, visited, stack, f, v);
    var pushed := stack + [Frame(v, 0)];
    var after := stack[..n] + [Frame(top.node, top.index + 1)] + [Frame(v, 0)];
    assert forall m :: 0 <= m < |after| ==> after[m].node == pushed[m].node;
    assert forall u :: Gray(after, u) <==> Gray(pushed, u);
    forall i, w | 0 <= i < |f| && Reach(g, f[i], w) ensures Covered(g, after, f, f[i], w) {
      assert Covered(g, pushed, f, f[i], w);
      if m :| 0 <= m < |pushed| && Mutual(g, f[i], pushed[m].node) {
        assert Mutual(g, f[i], after[m].node);
      }
    }
    assert g.Keys - (visited + {v}) == (g.Keys - visited) - {v};
  }

  lemma {:induction false} CoverGivesOrder(g: Adjacency, f: seq<Id>)
    requires DfsCover(g, [], f) && Distinct(f)
    ensures KosarajuOrder(g, f)
  {
    hide Reach, Mutual;
    forall i, j | 0 <= i < |f| && 0 <= j < |f| && Reach(g, f[i], f[j])
      ensures LateMember(g, f, i, j)
    {
      assert Covered(g, [], f, f[i], f[j]);
      var n, k :| 0 <= n <= k < |f| && f[n] == f[j] && Mutual(g, f[i], f[k]);
      assert n == j;
    }
  }

  lemma {:induction false} FinishFrame(g: Adjacency, visited: set<Id>, stack: seq<Frame>, f: seq<Id>)
    requires DfsInv(g, visited, stack, f) && stack != []
    requires var top := stack[|stack| - 1]; top.node in g && top.index == |g[top.node]|
    ensures DfsInv(g, visited, stack[..|stack| - 1], f + [stack[|stack| - 1].node])
    ensures Work(g, stack[..|stack| - 1]) < Work(g, stack)
  {
    hide DfsCover, Reach, Mutual;
    FinishShape(g, visited, stack, f);
    FinishCover(g, visited, stack, f);
  }

  /** The search from one root, with the explicit stack of nodes and neighbour indices. */
  method Explore(root: Id, g: Adjacency, before: set<Id>, finished: seq<Id>)
    returns (visited: set<Id>, finishOrder: seq<Id>)
    requires DfsInv(g, before, [], finished)
    requires root in g && root !in before
    ensures DfsInv(g, visited, [], finishOrder)
    ensures before <= visited && root in visited
  {
    hide DfsInv, Reach, Mutual;
    PushFrame(g, before, [], finished, root);
    assert [] + [Frame(root, 0)] == [Frame(root, 0)];
    visited := before + {root};
    finishOrder := finished;
    var stack := [Frame(root, 0)];
    while stack != []
      invariant DfsInv(g, visited, stack, finishOrder)
      invariant before <= visited && root in visited
      decreases |g.Keys - visited|, Work(g, stack)
    {
      var top := stack[|stack| - 1];
      var neighbours := g[top.node];
      if top.index < |neighbours| {
        var neighbour := neighbours[top.index];
        var advanced := stack[..|stack| - 1] + [Frame(top.node, top.index + 1)];
        if neighbour !in visited {
          PushNeighbour(g, visited, stack, finishOrder);
          visited := visited + {neighbour};
          stack := advanced + [Frame(neighbour, 0)];
        } else {
          AdvanceFrame(g, visited, stack, finishOrder);
          stack := advanced;
        }
      } else {
        FinishFrame(g, visited, stack, finishOrder);
        finishOrder := finishOrder + [top.node];
        stack := stack[..|stack| - 1];
      }
    }
  }

  /** The first pass: nodes in order of finishing a depth-first search. */
  method FinishOrder(nodes: seq<Id>, g: Adjacency) returns (finishOrder: seq<Id>)
    requires ClosedGraph(g)
    requires forall u :: u in nodes <==> u in g
    ensures Distinct(finishOrder)
    ensures forall u :: u in finishOrder <==> u in g
    ensures KosarajuOrder(g, finishOrder)
  {
    var visited: set<Id> := {};
    finishOrder := [];
    for r := 0 to |nodes|
      invariant DfsInv(g, visited, [], finishOrder)
      invariant forall i :: 0 <= i < r ==> nodes[i] in visited
    {
      if nodes[r] !in visited {
        visited, finishOrder := Explore(nodes[r], g, visited, finishOrder);
      }
    }
    CoverGivesOrder(g, finishOrder);
    assert forall u :: !Gray([], u);
  }

  // ----- second pass: components of the reversed graph -----

  ghost predicate Reversed(g: Adjacency, r: Adjacency) {
    r.Keys == g.Keys && forall u, v :: u in g ==> (v in r[u] <==> Edge(g, v, u))
  }

  ghost predicate MutualClosed(g: Adjacency, s: set<Id>) {
    forall x, y :: x in s && Mutual(g, x, y) ==> y in s
  }

  /** A sorted list of exactly the nodes mutually reachable with its first one. */
  ghost predicate IsComponent(g: Adjacency, c: seq<Id>) {
    c != [] && StrictlySorted(c) && forall v :: v in c <==> Mutual(g, c[0], v)
  }

  /** The strongly connected components, each once, in lexicographic order. */
  ghost predicate IsSccPartition(g: Adjacency, cs: seq<seq<Id>>) {
    && (forall i :: 0 <= i < |cs| ==> IsComponent(g, cs[i]))
    && (forall u :: u in g ==> exists i :: 0 <= i < |cs| && u in cs[i])
    && (forall i, j :: 0 <= i < j < |cs| ==> LexLt(cs[i], cs[j]))
  }

  method ReverseAdjacency(nodes: seq<Id>, g: Adjacency) returns (reverse: Adjacency)
    requires ClosedGraph(g) && Distinct(nodes)
    requires forall u :: u in nodes <==> u in g
    ensures Reversed(g, reverse)
  {
    reverse := map u | u in g :: [];
    for n := 0 to |nodes|
      invariant reverse.Keys == g.Keys
      invariant forall u, v :: u in g ==> (v in reverse[u] <==> v in nodes[..n] && Edge(g, v, u))
    {
      var node := nodes[n];
      var dependencies := g[node];
      assert nodes[..n + 1] == nodes[..n] + [node];
      for d := 0 to |dependencies|
        invariant reverse.Keys == g.Keys
        invariant forall u, v :: u in g ==>
          (v in reverse[u] <==> (v in nodes[..n] && Edge(g, v, u)) || (v == node && u in dependencies[..d]))
      {
        var dependency := dependencies[d];
        assert dependencies[..d + 1] == dependencies[..d] + [dependency];
        reverse := reverse[dependency := reverse[dependency] + [node]];
      }
      assert dependencies[..|dependencies|] == dependencies;
    }
    assert nodes[..|nodes|] == nodes;
  }

  ghost predicate CollectInv(g: Adjacency, root: Id, before: set<Id>, placed: set<Id>, found: seq<Id>) {
    && Distinct(found) && root in found
    && (forall x :: x in placed <==> x in before || x in found)
    && (forall x :: x in found ==> x !in before && Reach(g, x, root))
  }

  lemma {:induction false} PlaceNeighbour(g: Adjacency, root: Id, before: set<Id>, placed: set<Id>, found: seq<Id>,
        node: Id, x: Id)
    requires CollectInv(g, root, before, placed, found)
    requires node in found && Edge(g, x, node) && x !in placed
    ensures CollectInv(g, root, before, placed + {x}, found + [x])
  {
    ReachEdge(g, x, node);
    ReachTrans(g, x, node, root);
  }

  /** Pushes the not yet placed predecessors of one node. */
  method PushPredecessors(node: Id, ghost g: Adjacency, reverse: Adjacency, ghost root: Id, ghost before: set<Id>,
                          ghost members: seq<Id>, placed0: set<Id>, rest: seq<Id>)
    returns (placed: set<Id>, componentStack: seq<Id>)
    requires Reversed(g, reverse) && node in g
    requires CollectInv(g, root, before, placed0, members + rest) && node in members && placed0 <= g.Keys
    ensures CollectInv(g, root, before, placed, members + componentStack)
    ensures placed0 <= placed <= g.Keys
    ensures forall x :: Edge(g, x, node) ==> x in placed
    ensures placed == placed0 ==> componentStack == rest
  {
    hide CollectInv;
    placed := placed0;
    componentStack := rest;
    var neighbours := Sort(reverse[node]);
    var k := |neighbours|;
    while k > 0
      invariant 0 <= k <= |neighbours|
      invariant CollectInv(g, root, before, placed, members + componentStack)
      invariant placed0 <= placed <= g.Keys
      invariant forall i :: k <= i < |neighbours| ==> neighbours[i] in placed
      invariant placed == placed0 ==> componentStack == rest
    {
      k := k - 1;
      var neighbour := neighbours[k];
      assert neighbour in reverse[node];
      if neighbour !in placed {
        PlaceNeighbour(g, root, before, placed, members + componentStack, node, neighbour);
        assert members + (componentStack + [neighbour]) == members + componentStack + [neighbour];
        assert neighbour in g;
        placed := placed + {neighbour};
        componentStack := componentStack + [neighbour];
      }
    }
    assert forall x :: x in reverse[node] ==> x in neighbours;
  }

  /** The nodes of one component, by following reversed edges from its last finished node. */
  method CollectComponent(root: Id, ghost g: Adjacency, reverse: Adjacency, before: set<Id>)
    returns (placed: set<Id>, members: seq<Id>)
    requires Reversed(g, reverse) && before <= g.Keys && root in g && root !in before
    requires MutualClosed(g, before)
    requires forall x :: Reach(g, x, root) && x !in before ==> Mutual(g, root, x)
    ensures forall x :: x in members <==> Mutual(g, root, x)
    ensures Distinct(members) && placed == before + Elems(members)
  {
    placed := before + {root};
    members := [];
    var componentStack := [root];
    ReachRefl(g, root);
    while componentStack != []
      invariant CollectInv(g, root, before, placed, members + componentStack)
      invariant placed <= g.Keys
      invariant forall m, x :: m in members && Edge(g, x, m) ==> x in placed
      decreases g.Keys - placed, |componentStack|
    {
      var node := componentStack[|componentStack| - 1];
      var rest := componentStack[..|componentStack| - 1];
      assert node in members + componentStack && node in g;
      hide CollectInv, Edge, Reach, MutualClosed, Reversed;
      assert members + componentStack == members + (rest + [node]);
      MoveToMembers(g, root, before, placed, members, rest, node);
      members := members + [node];
      placed, componentStack := PushPredecessors(node, g, reverse, root, before, members, placed, rest);
    }
    assert members + componentStack == members;
    assert forall x :: x in placed <==> x in before + Elems(members);
    MembersAreComponent(g, root, before, placed, members);
  }

  lemma {:induction false} MoveToMembers(g: Adjacency, root: Id, before: set<Id>, placed: set<Id>,
                      members: seq<Id>, rest: seq<Id>, node: Id)
    requires CollectInv(g, root, before, placed, members + (rest + [node]))
    ensures CollectInv(g, root, before, placed, members + [node] + rest)
  {
    var a, b := members + (rest + [node]), members + [node] + rest;
    assert multiset(a) == multiset(members) + multiset(rest) + multiset{node} == multiset(b);
    DistinctPermutation(a, b);
    assert forall x :: x in a <==> x in multiset(a);
    assert forall x :: x in b <==> x in multiset(b);
  }

  lemma {:induction false} MembersAreComponent(g: Adjacency, root: Id, before: set<Id>, placed: set<Id>,
        members: seq<Id>)
    requires root in g && root !in before && MutualClosed(g, before)
    requires forall x :: Reach(g, x, root) && x !in before ==> Mutual(g, root, x)
    requires CollectInv(g, root, before, placed, members)
    requires forall m, x :: m in members && Edge(g, x, m) ==> x in placed
    ensures forall x :: x in members <==> Mutual(g, root, x)
  {
    forall y | Mutual(g, root, y) ensures y in members {
      var s := Elems(members);
      forall z, w | w in s && Edge(g, z, w) && Reach(g, y, z) && Reach(g, w, root) ensures z in s {
        ReachTrans(g, root, y, z);
        ReachEdge(g, z, w);
        ReachTrans(g, z, w, root);
        assert Mutual(g, z, root);
      }
      ReachClosedBackwards(g, s, y, root);
    }
  }

  ghost predicate ComponentsInv(g: Adjacency, f: seq<Id>, i: nat, placed: set<Id>, cs: seq<seq<Id>>) {
    && placed <= g.Keys && MutualClosed(g, placed)
    && (forall k :: i <= k < |f| ==> f[k] in placed)
    && (forall c :: c in cs ==> IsComponent(g, c) && forall v :: v in c ==> v in placed)
    && (forall u :: u in placed ==> exists c :: c in cs && u in c)
    && Distinct(cs)
  }

  /** Whatever still unassigned node reaches the next root belongs to the root's component. */
  lemma {:induction false} RootIsSource(g: Adjacency, f: seq<Id>, i: nat, placed: set<Id>, x: Id)
    requires KosarajuOrder(g, f) && MutualClosed(g, placed) && i < |f|
    requires forall u :: u in f <==> u in g
    requires forall k :: i < k < |f| ==> f[k] in placed
    requires Reach(g, x, f[i]) && x !in placed
    ensures Mutual(g, f[i], x)
  {
    ReachInGraph(g, x, f[i]);
    hide Reach;
    var n :| 0 <= n < |f| && f[n] == x;
    assert LateMember(g, f, n, i);
    var k :| i <= k < |f| && Mutual(g, f[n], f[k]);
    assert k > i ==> f[k] in placed && Mutual(g, f[k], x);
  }

  lemma {:induction false} SortedMembers(g: Adjacency, root: Id, members: seq<Id>)
    requires root in g && Distinct(members) && forall x :: x in members <==> Mutual(g, root, x)
    ensures IsComponent(g, Sort(members))
  {
    var c := Sort(members);
    MutualRefl(g, root);
    SortOfDistinct(members);
    hide Reach;
    assert root in c;
    assert c[0] in c;
    forall v ensures v in c <==> Mutual(g, c[0], v) {
      if v in c { MutualTrans(g, c[0], root, v); }
      if Mutual(g, c[0], v) { MutualTrans(g, root, c[0], v); }
    }
  }

  lemma {:induction false} MutualInGraph(g: Adjacency, u: Id, v: Id)
    requires u in g && Mutual(g, u, v)
    ensures v in g
  {
    ReachInGraph(g, u, v);
  }

  lemma {:induction false} ClosedWith(g: Adjacency, placed: set<Id>, root: Id, members: seq<Id>)
    requires root in g && MutualClosed(g, placed) && forall x :: x in members <==> Mutual(g, root, x)
    ensures MutualClosed(g, placed + Elems(members))
  {
    hide Mutual;
    forall x, y | x in placed + Elems(members) && Mutual(g, x, y) ensures y in placed + Elems(members) {
      if x in members { MutualTrans(g, root, x, y); }
    }
  }

  lemma {:induction false} AddComponent(g: Adjacency, f: seq<Id>, i: nat, placed: set<Id>, cs: seq<seq<Id>>,
        members: seq<Id>)
    requires i < |f| && f[i] in g && f[i] !in placed
    requires ComponentsInv(g, f, i + 1, placed, cs)
    requires Distinct(members) && forall x :: x in members <==> Mutual(g, f[i], x)
    ensures ComponentsInv(g, f, i, placed + Elems(members), cs + [Sort(members)])
  {
    hide Reach, Mutual, IsComponent, MutualClosed, Sort;
    var root, c := f[i], Sort(members);
    var placed', cs' := placed + Elems(members), cs + [c];
    MutualRefl(g, root);
    SortedMembers(g, root, members);
    forall x | x in members ensures x in g { MutualInGraph(g, root, x); }
    ClosedWith(g, placed, root, members);
    forall u | u in placed' ensures exists d :: d in cs' && u in d {
      if u in placed {
        var d :| d in cs && u in d;
        assert d in cs';
      } else {
        assert c in cs' && u in c;
      }
    }
    assert root in c;
    assert c !in cs;
  }

  method CollectComponents(g: Adjacency, reverse: Adjacency, finishOrder: seq<Id>)
    returns (components: seq<seq<Id>>)
    requires Reversed(g, reverse) && KosarajuOrder(g, finishOrder)
    requires forall u :: u in finishOrder <==> u in g
    ensures IsSccPartition(g, components)
  {
    hide KosarajuOrder;
    components := [];
    var placed: set<Id> := {};
    var i := |finishOrder|;
    while i > 0
      invariant 0 <= i <= |finishOrder|
      invariant ComponentsInv(g, finishOrder, i, placed, components)
    {
      i := i - 1;
      var root := finishOrder[i];
      assert root in finishOrder;
      if root !in placed {
        forall x | Reach(g, x, root) && x !in placed ensures Mutual(g, root, x) {
          RootIsSource(g, finishOrder, i, placed, x);
        }
        var after, members := CollectComponent(root, g, reverse, placed);
        AddComponent(g, finishOrder, i, placed, components, members);
        placed := after;
        components := components + [Sort(members)];
      }
    }
    SortedPartition(g, finishOrder, placed, components);
    components := SortTuples(components);
  }

  lemma {:induction false} SortedPartition(g: Adjacency, f: seq<Id>, placed: set<Id>, cs: seq<seq<Id>>)
    requires ComponentsInv(g, f, 0, placed, cs)
    requires forall u :: u in f <==> u in g
    ensures IsSccPartition(g, SortTuples(cs))
  {
    var r := SortTuples(cs);
    SortTuplesStrict(cs);
    hide IsComponent, MutualClosed, SortTuples, LexLt;
    forall u | u in g ensures exists i :: 0 <= i < |r| && u in r[i] {
      assert u in f;
      var k :| 0 <= k < |f| && f[k] == u;
      var c :| c in cs && u in c;
      assert c in r;
    }
    forall i | 0 <= i < |r| ensures IsComponent(g, r[i]) {
      assert r[i] in cs;
    }
  }
}
