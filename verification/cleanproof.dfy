/** What the clean-worktree proof proves: HEAD, index and worktree hold the same files. */
module CleanProof {
  import opened Orders
  import opened Utf8
  import opened GitPaths
  import opened RawIndex
  import opened IndexParser
  import opened Worktree
  import opened Lookup

  /** A file by path, mode and blob id. */
  type Triple = (Bytes, Mode, Bytes)

  ghost predicate IsLeaf(node: Node) {
    node.File? || node.Link?
  }

  ghost function LeafTriples(blobOid: Bytes -> Bytes, places: set<Place>): set<Triple> {
    set p | p in places && p.names != [] && IsLeaf(p.node) :: (Join(p.names), ModeOfLeaf(p.node), blobOid(Content(p.node)))
  }

  ghost function DirectoryPaths(places: set<Place>): set<Bytes> {
    set p | p in places && p.names != [] && p.node.Directory? :: Join(p.names)
  }

  ghost predicate NoSpecial(places: set<Place>) {
    forall p :: p in places ==> p.node.Directory? || IsLeaf(p.node)
  }

  ghost function MapTriples(byPath: map<Bytes, IndexEntry>): set<Triple> {
    set path | path in byPath :: (path, byPath[path].mode, byPath[path].oid)
  }

  // ----- places by their names -----

  ghost predicate NamesOk(names: seq<Bytes>) {
    forall i :: 0 <= i < |names| ==> names[i] != [] && SLASH !in names[i]
  }

  /** Below a directory each place has longer, well-formed names, and the directories on the way
      to it are places too. */
  ghost predicate Rooted(places: set<Place>, at: seq<Bytes>) {
    forall p :: p in places ==>
      && |at| < |p.names| && at <= p.names && NamesOk(p.names)
      && forall k :: |at| < k < |p.names| ==> HasDirectory(places, p.names[..k])
  }

  ghost predicate HasDirectory(places: set<Place>, names: seq<Bytes>) {
    exists d :: d in places && d.node.Directory? && d.names == names
  }

  lemma {:induction false} RootedUnion(p1: set<Place>, p2: set<Place>, at: seq<Bytes>)
    requires Rooted(p1, at) && Rooted(p2, at)
    ensures Rooted(p1 + p2, at)
  {
    hide NamesOk;
    forall p, k | p in p1 + p2 && |at| < k < |p.names| ensures HasDirectory(p1 + p2, p.names[..k]) {
      if p in p1 {
        HasMore(p1, p1 + p2, p.names[..k]);
      } else {
        HasMore(p2, p1 + p2, p.names[..k]);
      }
    }
  }

  lemma {:induction false} HasMore(p1: set<Place>, p2: set<Place>, names: seq<Bytes>)
    requires HasDirectory(p1, names) && p1 <= p2
    ensures HasDirectory(p2, names)
  {
  }

  lemma {:induction false} PlacesRooted(items: seq<Item>, at: seq<Bytes>)
    requires WellFormed(items) && NamesOk(at)
    ensures Rooted(Places(items, at), at)
    decreases items, 1
  {
    hide Rooted;
    if items == [] {
      NothingRooted(at);
    } else {
      var n := |items| - 1;
      assert WellFormed(items[..n]);
      PlacesRooted(items[..n], at);
      PlaceRooted(items[n], at);
      RootedUnion(Places(items[..n], at), PlacesOf(items[n], at), at);
    }
  }

  lemma {:induction false} NothingRooted(at: seq<Bytes>)
    ensures Rooted({}, at)
  {
  }

  lemma {:induction false} PlaceRooted(item: Item, at: seq<Bytes>)
    requires item.name != [] && SLASH !in item.name && (item.node.Directory? ==> WellFormed(item.node.items)) && NamesOk(at)
    ensures Rooted(PlacesOf(item, at), at)
    decreases item, 0
  {
    var inner := at + [item.name];
    if !Skipped(at, item) && item.node.Directory? {
      PlacesRooted(item.node.items, inner);
      BelowRooted(Places(item.node.items, inner), item, at);
    }
  }

  lemma {:induction false} BelowRooted(below: set<Place>, item: Item, at: seq<Bytes>)
    requires NamesOk(at + [item.name]) && item.node.Directory? && Rooted(below, at + [item.name])
    ensures Rooted({Place(at + [item.name], item.node)} + below, at)
  {
    var inner := at + [item.name];
    var here := Place(inner, item.node);
    var all := {here} + below;
    forall p, k | p in all && |at| < k < |p.names| ensures HasDirectory(all, p.names[..k]) {
      if p in below {
        if k == |inner| {
          assert p.names[..k] == here.names;
        } else {
          HasMore(below, all, p.names[..k]);
        }
      }
    }
    assert at <= inner;
  }

  // ----- the walk accepts exactly the recorded tree -----

  lemma {:induction false} AgreedTriples(t: Target, places: set<Place>)
    requires Rooted(places, []) && Agrees(t, places) && LeafPaths(places) == t.byPath.Keys
    ensures NoSpecial(places) && LeafTriples(t.blobOid, places) == MapTriples(t.byPath)
  {
    hide Join, ModeOfLeaf, Content;
    forall x | x in MapTriples(t.byPath) ensures x in LeafTriples(t.blobOid, places) {
      assert x.0 in LeafPaths(places);
      var p :| p in places && p.names != [] && !p.node.Directory? && Join(p.names) == x.0;
    }
    forall x | x in LeafTriples(t.blobOid, places) ensures x in MapTriples(t.byPath) {
      var p :| p in places && p.names != [] && IsLeaf(p.node)
        && x == (Join(p.names), ModeOfLeaf(p.node), t.blobOid(Content(p.node)));
    }
  }

  lemma {:induction false} AgreedDirectories(t: Target, places: set<Place>)
    requires Rooted(places, []) && Agrees(t, places) && LeafPaths(places) == t.byPath.Keys
    requires t.allowed == AllowedDirectories(t.byPath.Keys)
    ensures DirectoryPaths(places) == t.allowed
  {
    hide Join, Split, Matches;
    forall d | d in t.allowed ensures d in DirectoryPaths(places) {
      var path, k :| path in t.byPath.Keys && 1 <= k < |Split(path)| && d == Join(Split(path)[..k]);
      assert path in LeafPaths(places);
      var p :| p in places && p.names != [] && !p.node.Directory? && Join(p.names) == path;
      SplitJoin(p.names);
      assert HasDirectory(places, p.names[..k]);
    }
  }

  lemma {:induction false} TriplesAgree(t: Target, places: set<Place>)
    requires NoSpecial(places) && LeafTriples(t.blobOid, places) == MapTriples(t.byPath)
    requires DirectoryPaths(places) == t.allowed
    ensures Agrees(t, places) && LeafPaths(places) == t.byPath.Keys
  {
    hide Join, ModeOfLeaf, Content;
    forall p | p in places && p.names != []
      ensures var path := Join(p.names);
        if p.node.Directory? then path in t.allowed else path in t.byPath && Matches(t.blobOid, p.node, t.byPath[path])
    {
      if p.node.Directory? {
        assert Join(p.names) in DirectoryPaths(places);
      } else {
        var x := (Join(p.names), ModeOfLeaf(p.node), t.blobOid(Content(p.node)));
        assert x in LeafTriples(t.blobOid, places);
        assert x in MapTriples(t.byPath);
      }
    }
    forall path | path in t.byPath ensures path in LeafPaths(places) {
      var x := (path, t.byPath[path].mode, t.byPath[path].oid);
      assert x in MapTriples(t.byPath);
      assert x in LeafTriples(t.blobOid, places);
    }
  }

  /** The walk by the places it passes. */
  lemma {:induction false} CleanByPlaces(blobOid: Bytes -> Bytes, root: seq<Item>, entries: seq<IndexEntry>)
    requires WellFormed(root)
    ensures var byPath := ByPath(entries); var places := Places(root, []);
      Clean(blobOid, root, entries) <==>
        && WithinLimits(root)
        && NoSpecial(places) && LeafTriples(blobOid, places) == MapTriples(byPath)
        && DirectoryPaths(places) == AllowedDirectories(byPath.Keys)
  {
    hide ByPath, Places, Agrees, LeafPaths, NoSpecial, LeafTriples, MapTriples, DirectoryPaths, AllowedDirectories,
      WalkDirectory,
      WellFormed, Rooted, Bounded, Totals;
    var byPath := ByPath(entries);
    var places := Places(root, []);
    var t := Target(byPath, AllowedDirectories(byPath.Keys), blobOid);
    var start := Counters(0, 0, 0, {});
    DirectoryWalkEnds(t, root, [], 0, start);
    PlacesRooted(root, []);
    if Agrees(t, places) && LeafPaths(places) == byPath.Keys {
      AgreedTriples(t, places);
      AgreedDirectories(t, places);
    }
    if NoSpecial(places) && LeafTriples(blobOid, places) == MapTriples(byPath) && DirectoryPaths(places) == t.allowed {
      TriplesAgree(t, places);
    }
    assert start.seen + LeafPaths(places) == LeafPaths(places);
  }

  // ----- the tree by what can be looked up in it -----

  ghost predicate FileBelow(blobOid: Bytes -> Bytes, root: seq<Item>, x: Triple) {
    exists names, node ::
      Below(root, names, node) && IsLeaf(node) && x == (Join(names), ModeOfLeaf(node), blobOid(Content(node)))
  }

  ghost predicate DirectoryBelow(root: seq<Item>, d: Bytes) {
    exists names, node :: Below(root, names, node) && node.Directory? && d == Join(names)
  }

  /** Some file lies in the directory or deeper. */
  ghost predicate NeededBy(files: set<Triple>, d: Bytes) {
    exists x :: x in files && d + [SLASH] <= x.0
  }

  /** Outside `.git` just these files can be found below the root, with their modes and blob ids,
      and just the directories they lie in. */
  ghost predicate SameTree(blobOid: Bytes -> Bytes, root: seq<Item>, files: set<Triple>) {
    && (forall names, node :: Below(root, names, node) ==> node.Directory? || IsLeaf(node))
    && (forall x :: x in files <==> FileBelow(blobOid, root, x))
    && (forall d :: NeededBy(files, d) <==> DirectoryBelow(root, d))
  }

  lemma {:induction false} FilesByPlaces(blobOid: Bytes -> Bytes, root: seq<Item>, x: Triple)
    ensures x in LeafTriples(blobOid, Places(root, [])) <==> FileBelow(blobOid, root, x)
  {
    hide Places, Below, Join, Content, ModeOfLeaf;
    var places := Places(root, []);
    if p :|
        p in places && p.names != [] && IsLeaf(p.node)
        && x == (Join(p.names), ModeOfLeaf(p.node), blobOid(Content(p.node))) {
      PlacesExactly(root, p.names, p.node);
      assert p == Place(p.names, p.node);
    }
    if names, node :| Below(root, names, node) && IsLeaf(node) && x == (Join(names), ModeOfLeaf(node), blobOid(Content(node))) {
      PlacesExactly(root, names, node);
      var p := Place(names, node);
      assert p in places && p.names != [];
    }
  }

  lemma {:induction false} DirectoriesByPlaces(root: seq<Item>, d: Bytes)
    ensures d in DirectoryPaths(Places(root, [])) <==> DirectoryBelow(root, d)
  {
    hide Places, Below, Join;
    var places := Places(root, []);
    if p :| p in places && p.names != [] && p.node.Directory? && d == Join(p.names) {
      PlacesExactly(root, p.names, p.node);
      assert p == Place(p.names, p.node);
    }
    if names, node :| Below(root, names, node) && node.Directory? && d == Join(names) {
      PlacesExactly(root, names, node);
      var p := Place(names, node);
      assert p in places && p.names != [];
    }
  }

  lemma {:induction false} SpecialByPlaces(root: seq<Item>)
    ensures NoSpecial(Places(root, [])) <==>
      forall names, node :: Below(root, names, node) ==> node.Directory? || IsLeaf(node)
  {
    hide Places, Below, IsLeaf;
    var places := Places(root, []);
    forall names, node ensures Place(names, node) in places <==> Below(root, names, node) {
      PlacesExactly(root, names, node);
    }
    if forall names, node :: Below(root, names, node) ==> node.Directory? || IsLeaf(node) {
      forall p | p in places ensures p.node.Directory? || IsLeaf(p.node) {
        assert p == Place(p.names, p.node);
      }
    }
  }

  lemma {:induction false} NeededExactly(byPath: map<Bytes, IndexEntry>, d: Bytes)
    ensures d in AllowedDirectories(byPath.Keys) <==> NeededBy(MapTriples(byPath), d)
  {
    hide AllowedDirectories;
    AllowedExactly(byPath.Keys, d);
    if path :| path in byPath.Keys && d + [SLASH] <= path {
      var x := (path, byPath[path].mode, byPath[path].oid);
      assert x in MapTriples(byPath) && d + [SLASH] <= x.0;
    }
  }

  lemma {:induction false} TreeByPlaces(blobOid: Bytes -> Bytes, root: seq<Item>, byPath: map<Bytes, IndexEntry>)
    ensures var places := Places(root, []);
      SameTree(blobOid, root, MapTriples(byPath)) <==>
        && NoSpecial(places) && LeafTriples(blobOid, places) == MapTriples(byPath)
        && DirectoryPaths(places) == AllowedDirectories(byPath.Keys)
  {
    hide Places, Below, NoSpecial, LeafTriples, MapTriples, DirectoryPaths, AllowedDirectories, FileBelow, DirectoryBelow,
      NeededBy, IsLeaf;
    SpecialByPlaces(root);
    forall x ensures x in LeafTriples(blobOid, Places(root, [])) <==> FileBelow(blobOid, root, x) {
      FilesByPlaces(blobOid, root, x);
    }
    forall d ensures d in DirectoryPaths(Places(root, [])) <==> DirectoryBelow(root, d) {
      DirectoriesByPlaces(root, d);
    }
    forall d ensures d in AllowedDirectories(byPath.Keys) <==> NeededBy(MapTriples(byPath), d) {
      NeededExactly(byPath, d);
    }
  }

  /** What an index records: of several entries for one path the last. */
  ghost function Recorded(entries: seq<IndexEntry>): set<Triple> {
    set i | 0 <= i < |entries| && (forall j :: i < j < |entries| ==> entries[j].path != entries[i].path) ::
      (entries[i].path, entries[i].mode, entries[i].oid)
  }

  lemma {:induction false} ByPathRecords(entries: seq<IndexEntry>)
    ensures MapTriples(ByPath(entries)) == Recorded(entries)
  {
    if entries != [] {
      var n := |entries| - 1;
      var e, shorter := entries[n], entries[..n];
      ByPathRecords(shorter);
      RecordedNext(shorter, e);
      assert entries == shorter + [e];
      TriplesNext(ByPath(shorter), e);
    }
  }

  lemma {:induction false} TriplesNext(before: map<Bytes, IndexEntry>, e: IndexEntry)
    ensures forall x :: x in MapTriples(before[e.path := e]) <==>
      x == (e.path, e.mode, e.oid) || (x in MapTriples(before) && x.0 != e.path)
  {
    var after := before[e.path := e];
    forall x ensures x in MapTriples(after) <==> x == (e.path, e.mode, e.oid) || (x in MapTriples(before) && x.0 != e.path) {
      assert x in MapTriples(after) <==> x.0 in after && x == (x.0, after[x.0].mode, after[x.0].oid);
      assert x in MapTriples(before) <==> x.0 in before && x == (x.0, before[x.0].mode, before[x.0].oid);
    }
  }

  lemma {:induction false} RecordedNext(shorter: seq<IndexEntry>, e: IndexEntry)
    ensures forall x :: x in Recorded(shorter + [e]) <==>
      x == (e.path, e.mode, e.oid) || (x in Recorded(shorter) && x.0 != e.path)
  {
    var all, n := shorter + [e], |shorter|;
    assert all[n] == e;
    assert forall i :: 0 <= i < n ==> all[i] == shorter[i];
    forall x ensures x in Recorded(all) <==> x == (e.path, e.mode, e.oid) || (x in Recorded(shorter) && x.0 != e.path) {
      if x in Recorded(all) {
        var i :| 0 <= i <= n && (forall j :: i < j <= n ==> all[j].path != all[i].path)
          && x == (all[i].path, all[i].mode, all[i].oid);
        if i < n {
          assert forall j :: i < j < n ==> shorter[j].path == all[j].path;
        }
      }
      if x in Recorded(shorter) && x.0 != e.path {
        var i :| 0 <= i < n && (forall j :: i < j < n ==> shorter[j].path != shorter[i].path)
          && x == (shorter[i].path, shorter[i].mode, shorter[i].oid);
        assert forall j :: i < j <= n ==> all[j].path != all[i].path;
      }
    }
  }

  /** On a stable tree the walk succeeds exactly when nothing exceeds a limit, and what can be
      looked up below the root outside `.git` is just what is recorded: the files, path by path
      with mode and blob id, the directories they lie in, and nothing else. */
  lemma {:induction false} CleanExactly(blobOid: Bytes -> Bytes, root: seq<Item>, entries: seq<IndexEntry>)
    requires WellFormed(root)
    ensures Clean(blobOid, root, entries) <==> Fits(root) && SameTree(blobOid, root, Recorded(entries))
  {
    hide ByPath, Places, NoSpecial, LeafTriples, MapTriples, DirectoryPaths, AllowedDirectories, WellFormed, Clean, Fits,
      WithinLimits, SameTree, Recorded;
    CleanByPlaces(blobOid, root, entries);
    TreeByPlaces(blobOid, root, ByPath(entries));
    ByPathRecords(entries);
    LimitsExactly(root);
  }

  // ----- HEAD, index, worktree -----

  /** A blob of the HEAD tree. */
  datatype TreeEntry = TreeEntry(mode: Mode, oid: Bytes, path: Bytes)

  /** `prove_head_equals_index`. */
  predicate HeadEqualsIndex(head: seq<TreeEntry>, index: seq<IndexEntry>) {
    |head| == |index| && forall i :: 0 <= i < |head| ==>
      (head[i].mode, head[i].oid, head[i].path) == (index[i].mode, index[i].oid, index[i].path)
  }

  ghost function HeadTriples(head: seq<TreeEntry>): set<Triple> {
    set e | e in head :: (e.path, e.mode, e.oid)
  }

  ghost function IndexTriples(index: seq<IndexEntry>): set<Triple> {
    set e | e in index :: (e.path, e.mode, e.oid)
  }

  ghost predicate DistinctPaths(index: seq<IndexEntry>) {
    forall i, j :: 0 <= i < j < |index| ==> index[i].path != index[j].path
  }

  lemma {:induction false} OrderedLess(es: seq<RawEntry>, i: nat, j: nat)
    requires PathsOrdered(es) && i < j < |es|
    ensures LexLt(es[i].path, es[j].path)
  {
    hide LexLe;
    if i + 1 < j {
      OrderedLess(es, i, j - 1);
      LexLtTransitive(es[i].path, es[j - 1].path, es[j].path);
    }
  }

  /** The parser never returns a path twice. */
  lemma {:induction false} ParsedPathsDistinct(es: seq<RawEntry>)
    requires PathsOrdered(es)
    ensures DistinctPaths(Views(es))
  {
    forall i, j | 0 <= i < j < |es| ensures es[i].path != es[j].path {
      OrderedLess(es, i, j);
    }
  }

  lemma {:induction false} DistinctRecorded(index: seq<IndexEntry>)
    requires DistinctPaths(index)
    ensures Recorded(index) == IndexTriples(index)
  {
    forall x | x in IndexTriples(index) ensures x in Recorded(index) {
      var e :| e in index && x == (e.path, e.mode, e.oid);
      var i :| 0 <= i < |index| && index[i] == e;
    }
    forall x | x in Recorded(index) ensures x in IndexTriples(index) {
      var i :| 0 <= i < |index| && x == (index[i].path, index[i].mode, index[i].oid);
      assert index[i] in index;
    }
  }

  /** Both proofs together: when the raw index parses, the two succeed exactly when HEAD lists the
      same entries as the index and the worktree, within the limits, has just those files with
      their modes and blob ids and just the directories they need. */
  lemma {:induction false} HeadIndexWorktree(
      digest: Bytes -> Bytes, blobOid: Bytes -> Bytes, h: nat, data: Bytes, head: seq<TreeEntry>, root: seq<Item>)
    requires ParseIndex(digest, h, data).Some? && WellFormed(root)
    ensures var index := Views(ParseIndex(digest, h, data).value.entries);
      HeadEqualsIndex(head, index) && Clean(blobOid, root, index) <==>
        && HeadEqualsIndex(head, index) && IndexTriples(index) == HeadTriples(head)
        && Fits(root) && SameTree(blobOid, root, IndexTriples(index))
  {
    hide Clean, Fits, SameTree, Recorded, ByPath, WellFormed, ParseEntries, PathsOrdered, PathBytes, ParseTree, IndexTriples,
      HeadTriples, HeadEqualsIndex;
    var es := ParseIndex(digest, h, data).value.entries;
    var index := Views(es);
    ParsedPathsDistinct(es);
    DistinctRecorded(index);
    CleanExactly(blobOid, root, index);
    if HeadEqualsIndex(head, index) {
      HeadTriplesEqual(head, index);
    }
  }

  lemma {:induction false} HeadTriplesEqual(head: seq<TreeEntry>, index: seq<IndexEntry>)
    requires HeadEqualsIndex(head, index)
    ensures HeadTriples(head) == IndexTriples(index)
  {
    forall x | x in HeadTriples(head) ensures x in IndexTriples(index) {
      var i :| 0 <= i < |head| && x == (head[i].path, head[i].mode, head[i].oid);
      assert index[i] in index;
    }
    forall x | x in IndexTriples(index) ensures x in HeadTriples(head) {
      var i :| 0 <= i < |index| && x == (index[i].path, index[i].mode, index[i].oid);
      assert head[i] in head;
    }
  }
}
