/** Looking names up in a directory tree, one directory after another: what the clean-worktree
    proof (capture/_git_proof.py) finds below a root, and what it counts there. */
module Lookup {
  import opened Utf8
  import opened GitPaths
  import opened Worktree
  import Splitting

  /** Following the names from the directory with these items leads to this node. */
  ghost predicate Holds(items: seq<Item>, names: seq<Bytes>, node: Node)
    decreases |names|
  {
    names != [] && exists i :: 0 <= i < |items| && ItemHolds(items[i], names, node)
  }

  ghost predicate ItemHolds(item: Item, names: seq<Bytes>, node: Node)
    requires names != []
    decreases |names|, 0
  {
    item.name == names[0]
    && if |names| == 1 then item.node == node else item.node.Directory? && Holds(item.node.items, names[1..], node)
  }

  /** The node is there, and not in the repository directory of the root. */
  ghost predicate Below(root: seq<Item>, names: seq<Bytes>, node: Node): (r: bool)
    ensures r ==> names != []
  {
    Holds(root, names, node) && names[0] != [46, 103, 105, 116]
  }

  // ----- the places of a walk are what can be looked up -----

  ghost predicate FoundAt(items: seq<Item>, at: seq<Bytes>, p: Place) {
    |at| < |p.names| && at <= p.names && Holds(items, p.names[|at|..], p.node) && (at == [] ==> p.names[0] != DOT_GIT)
  }

  lemma {:induction false} HoldsLast(items: seq<Item>, names: seq<Bytes>, node: Node)
    requires items != [] && names != []
    ensures var n := |items| - 1;
      Holds(items, names, node) <==> Holds(items[..n], names, node) || ItemHolds(items[n], names, node)
  {
    hide ItemHolds;
    var n := |items| - 1;
    assert forall i :: 0 <= i < n ==> items[..n][i] == items[i];
  }

  lemma {:induction false} PlacesFound(items: seq<Item>, at: seq<Bytes>, p: Place)
    ensures p in Places(items, at) <==> FoundAt(items, at, p)
    decreases items, 1
  {
    hide ItemHolds, PlacesOf, Holds;
    if items == [] {
      NothingHeld(p, at);
    } else {
      var n := |items| - 1;
      PlacesFound(items[..n], at, p);
      PlaceFound(items[n], at, p);
      if |at| < |p.names| {
        HoldsLast(items, p.names[|at|..], p.node);
      }
    }
  }

  lemma {:induction false} NothingHeld(p: Place, at: seq<Bytes>)
    ensures !FoundAt([], at, p)
  {
  }

  lemma {:induction false} PlaceFound(item: Item, at: seq<Bytes>, p: Place)
    ensures p in PlacesOf(item, at) <==>
      && |at| < |p.names| && at <= p.names && ItemHolds(item, p.names[|at|..], p.node)
      && (at == [] ==> p.names[0] != DOT_GIT)
    decreases item, 0
  {
    hide Places, Holds;
    var inner := at + [item.name];
    if item.node.Directory? {
      PlacesFound(item.node.items, inner, p);
    }
    if |at| < |p.names| && at <= p.names {
      var names := p.names[|at|..];
      assert p.names[|at|] == names[0];
      if |names| == 1 {
        assert p.names == at + [names[0]];
      } else {
        assert p.names[|inner|..] == names[1..];
        assert inner <= p.names <==> item.name == names[0];
      }
    }
  }

  /** What the walk passes below a root is what can be looked up there outside `.git`. */
  lemma {:induction false} PlacesExactly(root: seq<Item>, names: seq<Bytes>, node: Node)
    ensures Place(names, node) in Places(root, []) <==> Below(root, names, node)
  {
    hide Places, Holds;
    PlacesFound(root, [], Place(names, node));
    assert names != [] ==> names[0..] == names;
    NoNames(root, node);
  }

  lemma {:induction false} NoNames(root: seq<Item>, node: Node)
    ensures !Holds(root, [], node)
  {
  }

  // ----- the limits -----

  /** No directory lies deeper and no file is larger than the limits allow. */
  ghost predicate Fits(root: seq<Item>) {
    && (forall names, node :: Below(root, names, node) ==>
          SizeOf(node) <= MAX_FILE_BYTES && (node.Directory? ==> |names| <= MAX_DEPTH))
    && WithinTotals(Count(Emptied(root), 0))
  }

  /** The root with its repository directory closed: it is counted but not entered. */
  ghost function Emptied(root: seq<Item>): seq<Item> {
    seq(|root|, i requires 0 <= i < |root| =>
      if root[i].name == [46, 103, 105, 116] then Item(root[i].name, Special) else root[i])
  }

  /** Items, bytes of their paths, and bytes of their files, where `prefix` bytes come before a name. */
  ghost function Count(items: seq<Item>, prefix: nat): (int, int, int)
    decreases items
  {
    if items == [] then (0, 0, 0)
    else
      var item := items[|items| - 1];
      var own := (1, prefix + |item.name|, SizeOf(item.node));
      var below := if item.node.Directory? then Count(item.node.items, prefix + |item.name| + 1) else (0, 0, 0);
      Plus(Count(items[..|items| - 1], prefix), Plus(own, below))
  }

  lemma {:induction false} JoinSnoc(at: seq<Bytes>, name: Bytes)
    ensures Join(at + [name]) == if at == [] then name else Join(at) + [SLASH] + name
  {
    if at != [] {
      JoinSnoc(at[1..], name);
      assert (at + [name])[1..] == at[1..] + [name];
      if |at| > 1 {
        assert at[0] + [SLASH] + (Join(at[1..]) + [SLASH] + name) == at[0] + [SLASH] + Join(at[1..]) + [SLASH] + name;
      } else {
        assert at[1..] == [];
      }
    }
  }

  ghost function PrefixOf(at: seq<Bytes>): nat {
    if at == [] then 0 else |Join(at)| + 1
  }

  lemma {:induction false} TotalsBelow(items: seq<Item>, at: seq<Bytes>)
    requires at != []
    ensures Totals(items, at) == Count(items, PrefixOf(at))
    decreases items
  {
    hide Join;
    if items != [] {
      var item := items[|items| - 1];
      TotalsBelow(items[..|items| - 1], at);
      JoinSnoc(at, item.name);
      if item.node.Directory? {
        TotalsBelow(item.node.items, at + [item.name]);
      }
    }
  }

  lemma {:induction false} TotalsOfRoot(root: seq<Item>)
    ensures Totals(root, []) == Count(Emptied(root), 0)
  {
    hide Join;
    if root != [] {
      var n := |root| - 1;
      var item := root[n];
      TotalsOfRoot(root[..n]);
      assert Emptied(root)[..n] == Emptied(root[..n]);
      JoinSnoc([], item.name);
      assert [] + [item.name] == [item.name];
      if item.node.Directory? {
        TotalsBelow(item.node.items, [item.name]);
      }
    }
  }

  /** No node found below these items is too large or too deep. */
  ghost predicate AllFit(items: seq<Item>, at: seq<Bytes>) {
    forall p :: FoundAt(items, at, p) ==>
      SizeOf(p.node) <= MAX_FILE_BYTES && (p.node.Directory? ==> |p.names| <= MAX_DEPTH)
  }

  ghost predicate ItemFits(item: Item, at: seq<Bytes>) {
    forall p :: p in PlacesOf(item, at) ==>
      SizeOf(p.node) <= MAX_FILE_BYTES && (p.node.Directory? ==> |p.names| <= MAX_DEPTH)
  }

  lemma {:induction false} ItemBounded(item: Item, at: seq<Bytes>)
    requires |at| <= MAX_DEPTH
    ensures BoundedItem(item, at, |at|) <==> ItemFits(item, at)
    decreases item, 0
  {
    hide FoundAt, Places;
    var inner := at + [item.name];
    var here := Place(inner, item.node);
    if !Skipped(at, item) {
      assert here in PlacesOf(item, at);
      if item.node.Directory? {
        forall p ensures p in Places(item.node.items, inner) <==> FoundAt(item.node.items, inner, p) {
          PlacesFound(item.node.items, inner, p);
        }
        assert PlacesOf(item, at) == {here} + Places(item.node.items, inner);
        if |inner| <= MAX_DEPTH {
          AllBoundedFit(item.node.items, inner);
        }
      } else {
        assert PlacesOf(item, at) == {here};
      }
    }
  }

  lemma {:induction false} AllBoundedFit(items: seq<Item>, at: seq<Bytes>)
    requires |at| <= MAX_DEPTH
    ensures Bounded(items, at, |at|) <==> AllFit(items, at)
    decreases items, 1
  {
    hide FoundAt, Places, PlacesOf, BoundedItem, ItemFits;
    forall i | 0 <= i < |items| ensures BoundedItem(items[i], at, |at|) <==> ItemFits(items[i], at) {
      ItemBounded(items[i], at);
    }
    ItemsFit(items, at);
  }

  lemma {:induction false} ItemsFit(items: seq<Item>, at: seq<Bytes>)
    ensures AllFit(items, at) <==> forall i :: 0 <= i < |items| ==> ItemFits(items[i], at)
  {
    hide FoundAt, PlacesOf;
    forall p ensures FoundAt(items, at, p) <==> exists i :: 0 <= i < |items| && p in PlacesOf(items[i], at) {
      PlacesFound(items, at, p);
      PlacesSplit(items, at, p);
    }
    if AllFit(items, at) {
      forall i | 0 <= i < |items| ensures ItemFits(items[i], at) {
        assert forall p :: p in PlacesOf(items[i], at) ==> FoundAt(items, at, p);
      }
    }
  }

  lemma {:induction false} PlacesSplit(items: seq<Item>, at: seq<Bytes>, p: Place)
    ensures p in Places(items, at) <==> exists i :: 0 <= i < |items| && p in PlacesOf(items[i], at)
    decreases |items|
  {
    hide PlacesOf;
    if items != [] {
      var n := |items| - 1;
      PlacesSplit(items[..n], at, p);
      assert forall i :: 0 <= i < n ==> items[..n][i] == items[i];
    }
  }

  /** The limits of the walk are those of what can be looked up. */
  lemma {:induction false} LimitsExactly(root: seq<Item>)
    ensures WithinLimits(root) <==> Fits(root)
  {
    hide Bounded, Holds, Places, Totals, Count, Emptied, WithinTotals;
    AllBoundedFit(root, []);
    TotalsOfRoot(root);
    forall names, node ensures FoundAt(root, [], Place(names, node)) <==> Below(root, names, node) {
      PlacesFound(root, [], Place(names, node));
      PlacesExactly(root, names, node);
    }
    if Fits(root) {
      forall p | FoundAt(root, [], p)
        ensures SizeOf(p.node) <= MAX_FILE_BYTES && (p.node.Directory? ==> |p.names| <= MAX_DEPTH)
      {
        assert p == Place(p.names, p.node);
        assert Below(root, p.names, p.node);
      }
    }
  }

  // ----- the directories a path needs -----

  lemma {:induction false} AllowedExactly(paths: set<Bytes>, d: Bytes)
    ensures d in AllowedDirectories(paths) <==> exists path :: path in paths && d + [SLASH] <= path
  {
    hide Splitting.Split, Splitting.Join;
    if path, k :| path in paths && 1 <= k < |Split(path)| && d == Join(Split(path)[..k]) {
      Splitting.JoinSplit(path, SLASH);
      assert Split(path) == Split(path)[..k] + Split(path)[k..];
      Splitting.JoinPrefix(Split(path)[..k], Split(path)[k..], SLASH);
    }
    if path :| path in paths && d + [SLASH] <= path {
      Splitting.SplitPrefix(d, path, SLASH);
      Splitting.JoinSplit(d, SLASH);
      Splitting.JoinSplit(path, SLASH);
      var k := |Split(d)|;
      assert |path| > |d|;
      assert Split(path)[..k] == Split(d);
      assert k == |Split(path)| ==> Split(path) == Split(d);
      assert 1 <= k < |Split(path)| && d == Join(Split(path)[..k]);
    }
  }
}
