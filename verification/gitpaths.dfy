/** Repository paths as bytes: splitting at slashes, and which paths an index may hold
    (capture/_git_proof.py, `validate_repo_path`). */
module GitPaths {
  import opened Utf8
  import Splitting

  const SLASH: Byte := 47
  const MAX_DEPTH := 128

  /** `raw.split(b"/")`. */
  function Split(raw: Bytes): (parts: seq<Bytes>)
    ensures parts != []
  {
    Splitting.Split(raw, SLASH)
  }

  /** `b"/".join(parts)`. */
  function Join(parts: seq<Bytes>): Bytes
    requires parts != []
  {
    Splitting.Join(parts, SLASH)
  }

  /** The parts ".", ".." and ".git" that no path may have. */
  predicate Forbidden(part: Bytes) {
    part == [] || part == [46] || part == [46, 46] || part == [46, 103, 105, 116]
  }

  predicate RepoPath(raw: Bytes) {
    && raw != [] && raw[0] != SLASH && raw[|raw| - 1] != SLASH
    && (forall i :: 0 <= i < |Split(raw)| ==> !Forbidden(Split(raw)[i]))
    && |Split(raw)| <= MAX_DEPTH
  }

  /** A path of an index: one to 128 names joined by slashes, none of them empty, a dot, two dots or
      the name of the repository directory. */
  lemma {:induction false} RepoPathExactly(raw: Bytes)
    ensures RepoPath(raw) <==>
      exists names: seq<Bytes> :: 1 <= |names| <= 128 && raw == Join(names) && forall i :: 0 <= i < |names| ==> NameOk(names[i])
  {
    hide Splitting.Split, Splitting.Join, NameOk;
    if RepoPath(raw) {
      Splitting.JoinSplit(raw, SLASH);
      Splitting.SplitParts(raw, SLASH);
      var names := Split(raw);
      forall i | 0 <= i < |names| ensures NameOk(names[i]) {
        Allowed(names[i]);
      }
      assert raw == Join(names);
    }
    if names: seq<Bytes> :| 1 <= |names| <= 128 && raw == Join(names) && forall i :: 0 <= i < |names| ==> NameOk(names[i]) {
      forall i | 0 <= i < |names| ensures SLASH !in names[i] && !Forbidden(names[i]) {
        Allowed(names[i]);
      }
      SplitJoin(names);
      JoinEnds(names);
    }
  }

  ghost predicate NameOk(name: Bytes) {
    && |name| >= 1 && (forall i :: 0 <= i < |name| ==> name[i] != '/' as int)
    && (|name| == 1 ==> name[0] != '.' as int) && (|name| == 2 ==> name[0] != '.' as int || name[1] != '.' as int)
    && (|name| == 4 ==>
          name[0] != '.' as int || name[1] != 'g' as int || name[2] != 'i' as int || name[3] != 't' as int)
  }

  lemma {:induction false} Allowed(name: Bytes)
    ensures SLASH !in name && !Forbidden(name) <==> NameOk(name)
  {
  }

  lemma {:induction false} JoinEnds(names: seq<Bytes>)
    requires names != [] && forall i :: 0 <= i < |names| ==> names[i] != [] && SLASH !in names[i]
    ensures var raw := Join(names); raw != [] && raw[0] != SLASH && raw[|raw| - 1] != SLASH
  {
    assert names[0][0] in names[0];
    if |names| > 1 {
      JoinEnds(names[1..]);
    } else {
      assert names[0][|names[0]| - 1] in names[0];
    }
  }

  lemma {:induction false} SplitJoin(parts: seq<Bytes>)
    requires parts != [] && forall i :: 0 <= i < |parts| ==> SLASH !in parts[i]
    ensures Split(Join(parts)) == parts
  {
    Splitting.SplitJoin(parts, SLASH);
  }
}
