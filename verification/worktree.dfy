/** Comparing a stable directory tree with an index (capture/_git_proof.py,
    `prove_clean_worktree`): the walk as a function, and what it accepts. */
module Worktree {
  import opened Orders
  import opened Utf8
  import opened GitPaths
  import opened RawIndex

  const MAX_FILE_BYTES := 1024 * 1024 * 1024
  const MAX_TOTAL_FILE_BYTES := 4 * 1024 * 1024 * 1024

  datatype Node =
    | File(executable: bool, content: Bytes)
    | Link(target: Bytes)
    | Directory(items: seq<Item>)
    | Special

  datatype Item = Item(name: Bytes, node: Node)

  const DOT_GIT: Bytes := [46, 103, 105, 116]

  /** What a file system guarantees of names in a directory. */
  ghost predicate WellFormed(items: seq<Item>)
    decreases items, 0
  {
    forall i :: 0 <= i < |items| ==>
      items[i].name != [] && SLASH !in items[i].name && (items[i].node.Directory? ==> WellFormed(items[i].node.items))
  }

  /** `by_path`: a later entry for the same path replaces an earlier one. */
  function ByPath(entries: seq<IndexEntry>): map<Bytes, IndexEntry> {
    if entries == [] then map[]
    else
      var e := entries[|entries| - 1];
      ByPath(entries[..|entries| - 1])[e.path := e]
  }

  /** The proper prefixes of the paths. */
  function AllowedDirectories(paths: set<Bytes>): set<Bytes> {
    set p, k | p in paths && 1 <= k < |Split(p)| :: Join(Split(p)[..k])
  }

  /** What the bytes of a leaf are, for the object id and the limits. */
  function Content(node: Node): Bytes
    requires node.File? || node.Link?
  {
    match node case File(_, content) => content case Link(target) => target
  }

  function ModeOfLeaf(node: Node): Mode
    requires node.File? || node.Link?
  {
    match node case File(executable, _) => (if executable then Executable else Regular) case Link(_) => Symlink
  }

  /** The leaf is what the entry records. */
  predicate Matches(blobOid: Bytes -> Bytes, node: Node, e: IndexEntry) {
    (node.File? || node.Link?) && ModeOfLeaf(node) == e.mode && blobOid(Content(node)) == e.oid
  }

  // ----- the walk -----

  datatype Counters = Counters(entries: nat, pathBytes: nat, fileBytes: nat, seen: set<Bytes>)

  /** What the walk compares with. */
  datatype Target = Target(byPath: map<Bytes, IndexEntry>, allowed: set<Bytes>, blobOid: Bytes -> Bytes)

  predicate WithinCounts(c: Counters) {
    c.entries <= MAX_ENTRIES && c.pathBytes <= MAX_PATH_BYTES && c.fileBytes <= MAX_TOTAL_FILE_BYTES
  }

  predicate Skipped(at: seq<Bytes>, item: Item) {
    at == [] && item.name == DOT_GIT
  }

  function PathAt(at: seq<Bytes>, item: Item): Bytes {
    Join(at + [item.name])
  }

  function WalkDirectory(t: Target, items: seq<Item>, at: seq<Bytes>, depth: nat, c: Counters): Option<Counters>
    decreases items, 2
  {
    if depth > MAX_DEPTH then None else WalkItems(t, items, at, depth, c)
  }

  function WalkItems(t: Target, items: seq<Item>, at: seq<Bytes>, depth: nat, c: Counters): Option<Counters>
    decreases items, 1
  {
    if items == [] then Some(c)
    else
      match WalkItems(t, items[..|items| - 1], at, depth, c)
      case None => None
      case Some(before) => WalkItem(t, items[|items| - 1], at, depth, before)
  }

  function WalkItem(t: Target, item: Item, at: seq<Bytes>, depth: nat, c: Counters): Option<Counters>
    decreases item, 0
  {
    var path := PathAt(at, item);
    var counted := c.(entries := c.entries + 1, pathBytes := c.pathBytes + |path|);
    if counted.entries > MAX_ENTRIES || counted.pathBytes > MAX_PATH_BYTES then None
    else if Skipped(at, item) then Some(counted)
    else if item.node.Directory? then
      if path !in t.allowed then None else WalkDirectory(t, item.node.items, at + [item.name], depth + 1, counted)
    else WalkLeaf(t, item.node, path, counted)
  }

  function WalkLeaf(t: Target, node: Node, path: Bytes, c: Counters): Option<Counters> {
    if path !in t.byPath then None
    else if !Matches(t.blobOid, node, t.byPath[path]) then None
    else if |Content(node)| > MAX_FILE_BYTES || c.fileBytes + |Content(node)| > MAX_TOTAL_FILE_BYTES then None
    else Some(c.(fileBytes := c.fileBytes + |Content(node)|, seen := c.seen + {path}))
  }

  function Clean(blobOid: Bytes -> Bytes, root: seq<Item>, entries: seq<IndexEntry>): bool {
    var byPath := ByPath(entries);
    match WalkDirectory(Target(byPath, AllowedDirectories(byPath.Keys), blobOid), root, [], 0, Counters(0, 0, 0, {}))
    case None => false
    case Some(c) => c.seen == byPath.Keys
  }

  // ----- what a tree contains -----

  /** A leaf or directory below, by the names that lead to it. */
  datatype Place = Place(names: seq<Bytes>, node: Node)

  /** Everything below except the root `.git`, which is not entered. */
  ghost function Places(items: seq<Item>, at: seq<Bytes>): set<Place>
    decreases items, 1
  {
    if items == [] then {}
    else Places(items[..|items| - 1], at) + PlacesOf(items[|items| - 1], at)
  }

  ghost function PlacesOf(item: Item, at: seq<Bytes>): set<Place>
    decreases item, 0
  {
    if Skipped(at, item) then {}
    else
      {Place(at + [item.name], item.node)}
      + if item.node.Directory? then Places(item.node.items, at + [item.name]) else {}
  }

  /** Every leaf is recorded as it is and every directory is allowed. */
  ghost predicate Agrees(t: Target, places: set<Place>) {
    forall p :: p in places && p.names != [] ==>
      var path := Join(p.names);
      if p.node.Directory? then path in t.allowed else path in t.byPath && Matches(t.blobOid, p.node, t.byPath[path])
  }

  ghost function LeafPaths(places: set<Place>): set<Bytes> {
    set p | p in places && p.names != [] && !p.node.Directory? :: Join(p.names)
  }

  function SizeOf(node: Node): nat {
    match node case File(_, content) => |content| case Link(target) => |target| case _ => 0
  }

  /** Number of items, path bytes and file bytes a walk counts. */
  ghost function Totals(items: seq<Item>, at: seq<Bytes>): (int, int, int)
    decreases items, 1
  {
    if items == [] then (0, 0, 0)
    else Plus(Totals(items[..|items| - 1], at), TotalsOf(items[|items| - 1], at))
  }

  ghost function TotalsOf(item: Item, at: seq<Bytes>): (int, int, int)
    decreases item, 0
  {
    var own := (1, |PathAt(at, item)|, 0);
    if Skipped(at, item) then own
    else if item.node.Directory? then Plus(own, Totals(item.node.items, at + [item.name]))
    else Plus(own, (0, 0, SizeOf(item.node)))
  }

  ghost function Plus(a: (int, int, int), b: (int, int, int)): (int, int, int) {
    (a.0 + b.0, a.1 + b.1, a.2 + b.2)
  }

  /** No directory deeper than the limit and no file larger than its limit. */
  ghost predicate Bounded(items: seq<Item>, at: seq<Bytes>, depth: nat)
    decreases items, 1
  {
    depth <= MAX_DEPTH && forall i :: 0 <= i < |items| ==> BoundedItem(items[i], at, depth)
  }

  ghost predicate BoundedItem(item: Item, at: seq<Bytes>, depth: nat)
    decreases item, 0
  {
    Skipped(at, item) ||
    (SizeOf(item.node) <= MAX_FILE_BYTES
     && (item.node.Directory? ==> Bounded(item.node.items, at + [item.name], depth + 1)))
  }

  ghost predicate WithinTotals(x: (int, int, int)) {
    x.0 <= MAX_ENTRIES && x.1 <= MAX_PATH_BYTES && x.2 <= MAX_TOTAL_FILE_BYTES
  }

  ghost function Counted(c: Counters): (int, int, int) {
    (c.entries, c.pathBytes, c.fileBytes)
  }

  /** The tree within the limits of the walk. */
  ghost predicate WithinLimits(root: seq<Item>) {
    Bounded(root, [], 0) && WithinTotals(Totals(root, []))
  }

  // ----- the walk accepts exactly what agrees within the limits -----

  lemma {:induction false} TotalsPositive(items: seq<Item>, at: seq<Bytes>)
    ensures var x := Totals(items, at); x.0 >= 0 && x.1 >= 0 && x.2 >= 0
    decreases items, 1
  {
    if items != [] {
      TotalsPositive(items[..|items| - 1], at);
      TotalsOfPositive(items[|items| - 1], at);
    }
  }

  lemma {:induction false} TotalsOfPositive(item: Item, at: seq<Bytes>)
    ensures var x := TotalsOf(item, at); x.0 >= 0 && x.1 >= 0 && x.2 >= 0
    decreases item, 0
  {
    hide PathAt;
    if item.node.Directory? {
      TotalsPositive(item.node.items, at + [item.name]);
    }
  }

  /** How a walk ends: it succeeds exactly when all places agree and nothing exceeds a limit, and
      then it has counted and seen what is below. */
  ghost predicate Ends(t: Target, places: set<Place>, bounded: bool, totals: (int, int, int), c: Counters,
        r: Option<Counters>) {
    var end := Plus(Counted(c), totals);
    && (r.Some? <==> Agrees(t, places) && bounded && WithinTotals(end))
    && (r.Some? ==> Counted(r.value) == end && r.value.seen == c.seen + LeafPaths(places))
  }

  lemma {:induction false} Combine(t: Target, p1: set<Place>, p2: set<Place>)
    ensures Agrees(t, p1 + p2) <==> Agrees(t, p1) && Agrees(t, p2)
    ensures LeafPaths(p1 + p2) == LeafPaths(p1) + LeafPaths(p2)
  {
  }

  lemma {:induction false} LeafEnds(t: Target, item: Item, at: seq<Bytes>, depth: nat, c: Counters)
    requires WithinCounts(c) && !item.node.Directory?
    ensures Ends(t, PlacesOf(item, at), BoundedItem(item, at, depth), TotalsOf(item, at), c, WalkItem(t, item, at, depth, c))
  {
    hide Join;
    var place := Place(at + [item.name], item.node);
    if !Skipped(at, item) {
      assert PlacesOf(item, at) == {place};
      assert LeafPaths({place}) == {PathAt(at, item)};
      assert Agrees(t, {place}) <==>
        PathAt(at, item) in t.byPath && Matches(t.blobOid, item.node, t.byPath[PathAt(at, item)]);
    } else {
      assert LeafPaths({}) == {};
    }
  }

  lemma {:induction false} DirectoryEnds(t: Target, item: Item, at: seq<Bytes>, depth: nat, c: Counters)
    requires WithinCounts(c) && item.node.Directory?
    ensures Ends(t, PlacesOf(item, at), BoundedItem(item, at, depth), TotalsOf(item, at), c, WalkItem(t, item, at, depth, c))
    decreases item, 0
  {
    hide Join, WalkItems, Places, Totals;
    if Skipped(at, item) {
      assert LeafPaths({}) == {};
    } else {
      var path := PathAt(at, item);
      var inner := at + [item.name];
      var place := Place(inner, item.node);
      var counted := Counters(c.entries + 1, c.pathBytes + |path|, c.fileBytes, c.seen);
      TotalsPositive(item.node.items, inner);
      Combine(t, {place}, Places(item.node.items, inner));
      assert LeafPaths({place}) == {};
      assert Agrees(t, {place}) <==> path in t.allowed;
      if WithinCounts(counted) {
        DirectoryWalkEnds(t, item.node.items, inner, depth + 1, counted);
      }
    }
  }

  lemma {:induction false} DirectoryWalkEnds(t: Target, items: seq<Item>, at: seq<Bytes>, depth: nat, c: Counters)
    requires WithinCounts(c)
    ensures Ends(t, Places(items, at), Bounded(items, at, depth), Totals(items, at), c, WalkDirectory(t, items, at, depth, c))
    decreases items, 2
  {
    hide WalkItems, Places, Totals, Agrees, BoundedItem;
    if depth <= MAX_DEPTH {
      ItemsEnd(t, items, at, depth, c);
    }
  }

  ghost predicate AllBounded(items: seq<Item>, at: seq<Bytes>, depth: nat) {
    forall i :: 0 <= i < |items| ==> BoundedItem(items[i], at, depth)
  }

  lemma {:induction false} ItemsEnd(t: Target, items: seq<Item>, at: seq<Bytes>, depth: nat, c: Counters)
    requires WithinCounts(c)
    ensures Ends(t, Places(items, at), AllBounded(items, at, depth), Totals(items, at), c, WalkItems(t, items, at, depth, c))
    decreases items, 1
  {
    hide Agrees, LeafPaths, BoundedItem, WalkItem, PlacesOf, TotalsOf;
    if items == [] {
      NoPlaces(t);
    } else {
      var n := |items| - 1;
      var item := items[n];
      ItemsEnd(t, items[..n], at, depth, c);
      Combine(t, Places(items[..n], at), PlacesOf(item, at));
      TotalsOfPositive(item, at);
      assert AllBounded(items, at, depth) <==> AllBounded(items[..n], at, depth) && BoundedItem(item, at, depth) by {
        assert items == items[..n] + [item];
      }
      var before := WalkItems(t, items[..n], at, depth, c);
      if before.Some? {
        if item.node.Directory? {
          DirectoryEnds(t, item, at, depth, before.value);
        } else {
          LeafEnds(t, item, at, depth, before.value);
        }
      }
    }
  }

  lemma {:induction false} NoPlaces(t: Target)
    ensures Agrees(t, {}) && LeafPaths({}) == {}
  {
  }
}
