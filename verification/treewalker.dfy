/** The worktree walk as it runs, over counters and sets it updates in place
    (capture/_git_proof.py, `prove_clean_worktree`). */
module TreeWalker {
  import opened Orders
  import opened Utf8
  import opened GitPaths
  import opened RawIndex
  import opened IndexParser
  import opened Worktree
  import opened CleanProof
  import opened Lookup

  lemma {:induction false} JoinNotEmpty(at: seq<Bytes>)
    requires at != [] && at[0] != []
    ensures Join(at) != []
  {
  }

  lemma {:induction false} WalkFails(t: Target, items: seq<Item>, at: seq<Bytes>, depth: nat, c: Counters, i: nat)
    requires i <= |items| && WalkItems(t, items[..i], at, depth, c).None?
    ensures WalkItems(t, items, at, depth, c).None?
    decreases |items|
  {
    hide WalkItem;
    if i < |items| {
      var n := |items| - 1;
      assert items[..n][..i] == items[..i];
      WalkFails(t, items[..n], at, depth, c, i);
    } else {
      assert items[..i] == items;
    }
  }

  lemma {:induction false} WalkNext(t: Target, items: seq<Item>, at: seq<Bytes>, depth: nat, c: Counters, i: nat)
    requires i < |items| && WalkItems(t, items[..i], at, depth, c).Some?
    ensures WalkItems(t, items[..i + 1], at, depth, c) ==
      WalkItem(t, items[i], at, depth, WalkItems(t, items[..i], at, depth, c).value)
  {
    hide WalkItem;
    assert items[..i + 1][..i] == items[..i];
  }

  lemma {:induction false} WalkNone(t: Target, items: seq<Item>, at: seq<Bytes>, depth: nat, c: Counters)
    ensures WalkItems(t, items[..0], at, depth, c) == Some(c)
  {
  }

  class Walk {
    const target: Target
    var entries: nat
    var pathBytes: nat
    var fileBytes: nat
    var seen: set<Bytes>
    var contents: map<Bytes, Bytes>

    constructor (target: Target)
      ensures this.target == target && State() == Counters(0, 0, 0, {}) && ContentsOk()
    {
      this.target := target;
      entries, pathBytes, fileBytes := 0, 0, 0;
      seen, contents := {}, map[];
    }

    function State(): Counters
      reads this
    {
      Counters(entries, pathBytes, fileBytes, seen)
    }

    /** The bytes kept for a path are those its entry records. */
    ghost predicate ContentsOk()
      reads this
    {
      && contents.Keys == seen
      && forall path :: path in contents ==> path in target.byPath && target.blobOid(contents[path]) == target.byPath[path].oid
    }

    /** A leaf that is not a directory: its type, mode, bytes and sizes. */
    method VisitLeaf(node: Node, path: Bytes) returns (ok: bool)
      requires ContentsOk() && !node.Directory?
      modifies this
      ensures var r := WalkLeaf(target, node, path, old(State())); ok == r.Some? && (ok ==> State() == r.value)
      ensures ContentsOk()
    {
      if path !in target.byPath { return false; }
      var expected := target.byPath[path];
      if node.Special? { return false; }
      if expected.mode == Symlink {
        if !node.Link? { return false; }
      } else {
        if !node.File? { return false; }
        if node.executable != (expected.mode == Executable) { return false; }
      }
      var content := Content(node);
      var remaining := MAX_TOTAL_FILE_BYTES - fileBytes;
      if |content| > MAX_FILE_BYTES || |content| > remaining { return false; }
      if target.blobOid(content) != expected.oid { return false; }
      fileBytes := fileBytes + |content|;
      if fileBytes > MAX_TOTAL_FILE_BYTES { return false; }
      seen := seen + {path};
      contents := contents[path := content];
      ok := true;
    }

    method VisitItem(item: Item, ghost at: seq<Bytes>, prefix: Bytes, depth: nat) returns (ok: bool)
      requires NamesOk(at) && prefix == (if at == [] then [] else Join(at))
      requires item.name != [] && SLASH !in item.name && (item.node.Directory? ==> WellFormed(item.node.items))
      requires ContentsOk()
      modifies this
      ensures var r := WalkItem(target, item, at, depth, old(State())); ok == r.Some? && (ok ==> State() == r.value)
      ensures ContentsOk()
      decreases item, 0
    {
      hide WalkDirectory, WalkLeaf, Join, WellFormed;
      JoinSnoc(at, item.name);
      if at != [] { JoinNotEmpty(at); }
      var path := if prefix == [] then item.name else prefix + [SLASH] + item.name;
      assert path == PathAt(at, item);
      entries := entries + 1;
      pathBytes := pathBytes + |path|;
      if entries > MAX_ENTRIES || pathBytes > MAX_PATH_BYTES { return false; }
      if prefix == [] && item.name == DOT_GIT { return true; }
      if item.node.Directory? {
        if path !in target.allowed { return false; }
        PathNotEmpty(at, item.name);
        ok := VisitDirectory(item.node.items, at + [item.name], path, depth + 1);
      } else {
        ok := VisitLeaf(item.node, path);
      }
    }

    static lemma {:induction false} PathNotEmpty(at: seq<Bytes>, name: Bytes)
      requires NamesOk(at) && name != [] && SLASH !in name
      ensures NamesOk(at + [name])
    {
    }

    /** `walk`: every item of the directory in turn. */
    method VisitDirectory(items: seq<Item>, ghost at: seq<Bytes>, prefix: Bytes, depth: nat) returns (ok: bool)
      requires WellFormed(items) && NamesOk(at) && prefix == (if at == [] then [] else Join(at))
      requires ContentsOk()
      modifies this
      ensures var r := WalkDirectory(target, items, at, depth, old(State())); ok == r.Some? && (ok ==> State() == r.value)
      ensures ContentsOk()
      decreases items, 1
    {
      hide WalkItems, WalkItem, Join, NamesOk;
      if depth > MAX_DEPTH { return false; }
      ghost var start := State();
      WalkNone(target, items, at, depth, start);
      var i := 0;
      while i < |items|
        invariant 0 <= i <= |items|
        invariant WalkItems(target, items[..i], at, depth, start) == Some(State())
        invariant ContentsOk()
      {
        WalkNext(target, items, at, depth, start, i);
        ok := VisitItem(items[i], at, prefix, depth);
        if !ok {
          WalkFails(target, items, at, depth, start, i + 1);
          return false;
        }
        i := i + 1;
      }
      assert items[..i] == items;
      ok := true;
    }
  }

  lemma {:induction false} ByPathNext(entries: seq<IndexEntry>, i: nat)
    requires i < |entries|
    ensures ByPath(entries[..i + 1]) == ByPath(entries[..i])[entries[i].path := entries[i]]
  {
    assert entries[..i + 1][..i] == entries[..i];
  }

  lemma {:induction false} ByPathNone(entries: seq<IndexEntry>)
    ensures ByPath(entries[..0]) == map[]
  {
  }

  /** The proof succeeds exactly on clean trees, and returns for every recorded path bytes with
      the recorded blob id. */
  method ProveCleanWorktree(blobOid: Bytes -> Bytes, root: seq<Item>, entries: seq<IndexEntry>)
    returns (r: Result<map<Bytes, Bytes>, CaptureError>)
    requires WellFormed(root)
    ensures r.Ok? <==> Clean(blobOid, root, entries)
    ensures r.Ok? <==> Fits(root) && SameTree(blobOid, root, Recorded(entries))
    ensures r.Ok? ==>
      && r.value.Keys == ByPath(entries).Keys
      && forall path :: path in r.value ==> blobOid(r.value[path]) == ByPath(entries)[path].oid
  {
    hide WalkDirectory, ByPath, AllowedDirectories, WellFormed, Fits, SameTree, Recorded;
    CleanExactly(blobOid, root, entries);
    var byPath: map<Bytes, IndexEntry> := map[];
    var i := 0;
    ByPathNone(entries);
    while i < |entries|
      invariant 0 <= i <= |entries| && byPath == ByPath(entries[..i])
    {
      ByPathNext(entries, i);
      byPath := byPath[entries[i].path := entries[i]];
      i := i + 1;
    }
    assert entries[..i] == entries;
    var walk := new Walk(Target(byPath, AllowedDirectories(byPath.Keys), blobOid));
    var ok := walk.VisitDirectory(root, [], [], 0);
    if !ok || walk.seen != byPath.Keys { return Err(CaptureUnknown); }
    r := Ok(walk.contents);
  }

  /** `prove_head_equals_index`. */
  method ProveHeadEqualsIndex(head: seq<TreeEntry>, index: seq<IndexEntry>) returns (ok: bool)
    ensures ok <==> HeadEqualsIndex(head, index)
  {
    if |head| != |index| { return false; }
    var i := 0;
    while i < |head|
      invariant 0 <= i <= |head|
      invariant forall j :: 0 <= j < i ==> (head[j].mode, head[j].oid, head[j].path) == (index[j].mode, index[j].oid, index[j].path)
    {
      if (head[i].mode, head[i].oid, head[i].path) != (index[i].mode, index[i].oid, index[i].path) { return false; }
      i := i + 1;
    }
    ok := true;
  }

  // the name .gitattributes
  const GIT_ATTRIBUTES: Bytes := [46, 103, 105, 116, 97, 116, 116, 114, 105, 98, 117, 116, 101, 115]

  /** No attributes files, and no symbolic links where they are switched off. */
  predicate Supported(index: seq<IndexEntry>, linksOff: bool) {
    forall i :: 0 <= i < |index| ==>
      && Split(index[i].path)[|Split(index[i].path)| - 1] != GIT_ATTRIBUTES
      && !(linksOff && index[i].mode == Symlink)
  }

  /** HEAD, index and worktree hold the same supported files, Git's own listing agrees, and the
      directories are just those the files need. */
  ghost predicate SameFiles(blobOid: Bytes -> Bytes, index: seq<IndexEntry>, listed: seq<IndexEntry>,
        head: seq<TreeEntry>, linksOff: bool, root: seq<Item>)
    requires WellFormed(root)
  {
    && listed == index && HeadEqualsIndex(head, index) && Supported(index, linksOff)
    && IndexTriples(index) == HeadTriples(head) && Fits(root) && SameTree(blobOid, root, IndexTriples(index))
  }

  /** The proof of a clean worktree as a capture makes it: parse the raw index, compare it with
      Git's listing and with HEAD, refuse what is not supported, and walk the tree. It succeeds
      exactly when HEAD, index and worktree hold the same files, and returns their contents. */
  method ProveCapture(digest: Bytes -> Bytes, blobOid: Bytes -> Bytes, format: ObjectFormat, rawIndex: Bytes,
        listed: seq<IndexEntry>, head: seq<TreeEntry>, linksOff: bool, root: seq<Item>)
    returns (r: Result<map<Bytes, Bytes>, CaptureError>)
    requires WellFormed(root)
    ensures r.Ok? <==>
      && format != OtherFormat && ParseIndex(digest, HashBytes(format), rawIndex).Some?
      && var index := Views(ParseIndex(digest, HashBytes(format), rawIndex).value.entries);
      SameFiles(blobOid, index, listed, head, linksOff, root)
    ensures r.Ok? ==>
      && r.value.Keys == ByPath(listed).Keys
      && forall path :: path in r.value ==> blobOid(r.value[path]) == ByPath(listed)[path].oid
  {
    hide ParseIndex, Clean, Fits, SameTree, Recorded, ByPath, WellFormed, IndexTriples, HeadTriples, HeadEqualsIndex, Split;
    var parsed := ParseRawIndex(digest, rawIndex, format);
    if parsed.Err? { return Err(parsed.error); }
    var index := parsed.value;
    if index != listed { return Err(CaptureUnknown); }
    var same := ProveHeadEqualsIndex(head, index);
    if !same { return Err(CaptureUnknown); }
    if !Supported(index, linksOff) { return Err(CaptureUnknown); }
    HeadIndexWorktree(digest, blobOid, HashBytes(format), rawIndex, head, root);
    r := ProveCleanWorktree(blobOid, root, index);
  }
}
