/** The index parser as it runs: offsets into the body, checked step by step
    (capture/_git_proof.py, `parse_raw_index`). */
module IndexParser {
  import opened Orders
  import opened Utf8
  import opened GitPaths
  import opened RawIndex

  datatype CaptureError = CaptureUnknown

  function View(e: RawEntry): IndexEntry {
    IndexEntry(e.mode, e.oid, e.path)
  }

  function Views(es: seq<RawEntry>): (vs: seq<IndexEntry>)
    ensures |vs| == |es|
  {
    seq(|es|, i requires 0 <= i < |es| => View(es[i]))
  }

  /** Entries read already, in front of what reading on gives. */
  ghost function Prepend(before: seq<RawEntry>, r: Option<(seq<RawEntry>, Bytes)>): Option<(seq<RawEntry>, Bytes)> {
    match r
    case None => None
    case Some((es, rest)) => Some((before + es, rest))
  }

  lemma {:induction false} ReadOn(h: nat, count: nat, before: seq<RawEntry>, d: Bytes)
    requires count > 0
    ensures Prepend(before, ParseEntries(h, count, d)) ==
      match ParseEntry(h, d)
      case None => None
      case Some((e, rest)) => Prepend(before + [e], ParseEntries(h, count - 1, rest))
  {
    hide ParseEntry;
    match ParseEntry(h, d)
    case None =>
    case Some((e, rest)) =>
      match ParseEntries(h, count - 1, rest) {
        case None =>
        case Some((es, left)) => assert before + ([e] + es) == before + [e] + es;
      }
  }

  lemma {:induction false} PathBytesGrow(es: seq<RawEntry>, k: nat)
    requires k <= |es|
    ensures PathBytes(es[..k]) <= PathBytes(es)
  {
    if k < |es| {
      PathBytesGrow(es[..|es| - 1], k);
      assert es[..|es| - 1][..k] == es[..k];
    } else {
      assert es[..k] == es;
    }
  }

  /** Once the entries read are out of order or their paths too long, no continuation helps. */
  lemma {:induction false} BadPrefix(before: seq<RawEntry>, r: Option<(seq<RawEntry>, Bytes)>)
    requires !PathsOrdered(before) || PathBytes(before) > MAX_PATH_BYTES
    requires Prepend(before, r).Some?
    ensures var es := Prepend(before, r).value.0; !PathsOrdered(es) || PathBytes(es) > MAX_PATH_BYTES
  {
    hide LexLe, LexLt, PathBytes;
    var es := Prepend(before, r).value.0;
    assert es[..|before|] == before;
    PathBytesGrow(es, |before|);
    if !PathsOrdered(before) {
      var i :| 0 < i < |before| && !LexLt(before[i - 1].path, before[i].path);
      assert es[i - 1] == before[i - 1] && es[i] == before[i];
    }
  }

  lemma {:induction false} OrderedNext(es: seq<RawEntry>, e: RawEntry)
    requires PathsOrdered(es)
    ensures PathsOrdered(es + [e]) <==> es == [] || LexLt(es[|es| - 1].path, e.path)
    ensures PathBytes(es + [e]) == PathBytes(es) + |e.path|
  {
    hide LexLe, LexLt;
    var s := es + [e];
    assert s[..|es|] == es;
    if es == [] || LexLt(es[|es| - 1].path, e.path) {
      forall i | 0 < i < |s| ensures LexLt(s[i - 1].path, s[i].path) {
        assert i < |es| ==> s[i] == es[i];
      }
    } else {
      assert !LexLt(s[|es| - 1].path, s[|es|].path);
    }
  }

  lemma {:induction false} SliceFrom(body: Bytes, start: nat, a: nat)
    requires start + a <= |body|
    ensures body[start..][a..] == body[start + a..]
  {
  }

  lemma {:induction false} Slice(body: Bytes, start: nat, a: nat, b: nat)
    requires a <= b && start + b <= |body|
    ensures body[start..][a..b] == body[start + a..start + b]
  {
  }

  /** The assume-valid bit, the extended bit and the stage are all clear below 0x1000. */
  lemma {:induction false} FlagBits(flags: int)
    requires 0 <= flags < 65536
    ensures flags < 4096 <==> flags / 0x8000 % 2 != 1 && flags / 0x1000 % 4 == 0 && flags / 0x4000 % 2 != 1
  {
  }

  /** The saturated length field, tested as the parser does. */
  lemma {:induction false} SameLength(path: Bytes, flags: int)
    requires 0 <= flags < 4096
    ensures flags == LengthField(path) <==>
      !((flags < 0x0FFF && flags != |path|) || (flags == 0x0FFF && |path| < 0x0FFF))
  {
  }

  /** Reads the path of the entry at this offset and checks its length field and padding. */
  method ParseRawPath(body: Bytes, start: nat, h: nat, flags: int) returns (r: Option<(Bytes, nat)>)
    requires start + 42 + h <= |body| && 0 <= flags < 4096
    ensures match ParsePath(h, flags, body[start..])
      case None => r.None?
      case Some((path, end)) => r == Some((path, start + end))
  {
    hide RepoPath, FindNul, AllZero, LengthField;
    var offset := start + 42 + h;
    SliceFrom(body, start, 42 + h);
    var nul := FindNul(body[offset..]);
    if nul.None? { return None; }
    Slice(body, start, 42 + h, 42 + h + nul.value);
    var path := body[offset..offset + nul.value];
    SameLength(path, flags);
    if (flags < 0x0FFF && flags != |path|) || (flags == 0x0FFF && |path| < 0x0FFF) { return None; }
    if !RepoPath(path) { return None; }
    var consumed := offset + nul.value + 1 - start;
    var padding := -consumed % 8;
    var end := offset + nul.value + 1 + padding;
    assert offset + nul.value + 1 == start + consumed && end == start + consumed + padding;
    assert consumed == Consumed(h, path) && padding == Padding(consumed);
    if end > |body| { return None; }
    Slice(body, start, consumed, consumed + padding);
    if !AllZero(body[offset + nul.value + 1..end]) { return None; }
    r := Some((path, end));
  }

  /** Reads the entry at this offset. Every read is inside the body and the offset advances. */
  method ParseRawEntry(body: Bytes, start: nat, h: nat) returns (r: Option<(IndexEntry, nat)>)
    requires start <= |body|
    ensures match ParseEntry(h, body[start..])
      case None => r.None?
      case Some((e, rest)) =>
        r.Some? && r.value.0 == View(e) && start < r.value.1 <= |body| && rest == body[r.value.1..]
  {
    hide ReadU16, ReadU32, ModeOf, ParsePath;
    var offset: nat := start;
    if offset + 40 + h + 2 > |body| { return None; }
    SliceFrom(body, start, 24);
    SliceFrom(body, start, 40 + h);
    Slice(body, start, 40, 40 + h);
    var modeValue := ReadU32(body[offset + 24..]);
    offset := offset + 40;
    var oid := body[offset..offset + h];
    offset := offset + h;
    var flags := ReadU16(body[offset..]);
    FlagBits(flags);
    if flags / 0x8000 % 2 == 1 { return None; }
    var extended := flags / 0x4000 % 2 == 1;
    var stage := flags / 0x1000 % 4;
    if stage != 0 { return None; }
    // an extended entry is refused whether or not its flags are there and zero
    if extended { return None; }
    var read := ParseRawPath(body, start, h, flags);
    if read.None? { return None; }
    var path, end := read.value.0, read.value.1;
    SliceFrom(body, start, end - start);
    var mode := ModeOf(modeValue);
    if mode.None? { return None; }
    r := Some((IndexEntry(mode.value, oid, path), end));
  }

  /** Reads the extensions: no signature twice, and none but TREE. */
  method ParseExtensions(body: Bytes, start: nat) returns (ok: bool)
    requires start <= |body|
    ensures ok <==> ParseTree(body[start..]).Some?
  {
    hide ReadU32;
    var offset: nat := start;
    var seen: set<Bytes> := {};
    while offset < |body|
      invariant start <= offset <= |body|
      invariant seen == {} ==> offset == start
      invariant seen != {} ==> seen == {TREE} && offset > start && (ParseTree(body[start..]).Some? <==> offset == |body|)
    {
      if offset + 8 > |body| { return false; }
      var signature := body[offset..offset + 4];
      assert body[offset..][..4] == signature && body[offset..][4..] == body[offset + 4..];
      var size := ReadU32(body[offset + 4..]);
      offset := offset + 8;
      var end := offset + size;
      if end > |body| || signature in seen { return false; }
      seen := seen + {signature};
      if signature != TREE { return false; }
      offset := end;
    }
    ok := true;
  }

  /** The whole parser. It returns the entries that were encoded when the data is an encoded
      index with its digest, and refuses all other data. */
  method ParseRawIndex(digest: Bytes -> Bytes, data: Bytes,
        format: ObjectFormat) returns (r: Result<seq<IndexEntry>, CaptureError>)
    ensures r == if format == OtherFormat then Err(CaptureUnknown)
      else
        match ParseIndex(digest, HashBytes(format), data)
        case None => Err(CaptureUnknown)
        case Some(x) => Ok(Views(x.entries))
  {
    hide ReadU32, ParseEntries, ParseTree, ParseEntry, PathsOrdered, PathBytes, LexLe, LexLt, Prepend;
    if format == OtherFormat { return Err(CaptureUnknown); }
    var h := HashBytes(format);
    if |data| < 12 + h { return Err(CaptureUnknown); }
    var body := data[..|data| - h];
    if data[|data| - h..] != digest(body) { return Err(CaptureUnknown); }
    if body[..4] != SIGNATURE { return Err(CaptureUnknown); }
    var version, count := ReadU32(body[4..]), ReadU32(body[8..]);
    if version != 2 && version != 3 { return Err(CaptureUnknown); }
    if count > MAX_ENTRIES { return Err(CaptureUnknown); }
    var entries: seq<IndexEntry> := [];
    ghost var parsed: seq<RawEntry> := [];
    var offset: nat := 12;
    var previous: Option<Bytes> := None;
    var total := 0;
    var k := 0;
    NothingRead(h, count, body[12..]);
    while k < count
      invariant 0 <= k <= count && 12 <= offset <= |body|
      invariant ParseEntries(h, count, body[12..]) == Prepend(parsed, ParseEntries(h, count - k, body[offset..]))
      invariant |parsed| == k && entries == Views(parsed)
      invariant PathsOrdered(parsed) && total == PathBytes(parsed) <= MAX_PATH_BYTES
      invariant previous == if k == 0 then None else Some(parsed[k - 1].path)
    {
      ReadOn(h, count - k, parsed, body[offset..]);
      var next := ParseRawEntry(body, offset, h);
      if next.None? { return Err(CaptureUnknown); }
      var entry := next.value.0;
      ghost var raw := ParseEntry(h, body[offset..]).value.0;
      offset := next.value.1;
      OrderedNext(parsed, raw);
      ghost var more := ParseEntries(h, count - k - 1, body[offset..]);
      if previous.Some? && !LexLt(previous.value, entry.path) {
        Refused(h, count, body, parsed + [raw], more);
        return Err(CaptureUnknown);
      }
      previous := Some(entry.path);
      total := total + |entry.path|;
      if total > MAX_PATH_BYTES {
        Refused(h, count, body, parsed + [raw], more);
        return Err(CaptureUnknown);
      }
      entries := entries + [entry];
      parsed := parsed + [raw];
      k := k + 1;
    }
    AllRead(h, parsed, body[offset..]);
    var ok := ParseExtensions(body, offset);
    if !ok { return Err(CaptureUnknown); }
    r := Ok(entries);
  }

  lemma {:induction false} NothingRead(h: nat, count: nat, d: Bytes)
    ensures ParseEntries(h, count, d) == Prepend([], ParseEntries(h, count, d))
    ensures PathsOrdered([]) && PathBytes([]) == 0
  {
    hide ParseEntries;
    match ParseEntries(h, count, d)
    case None =>
    case Some((es, rest)) => assert [] + es == es;
  }

  lemma {:induction false} AllRead(h: nat, parsed: seq<RawEntry>, d: Bytes)
    ensures Prepend(parsed, ParseEntries(h, 0, d)) == Some((parsed, d))
  {
    assert parsed + [] == parsed;
  }

  lemma {:induction false} Refused(h: nat, count: nat, body: Bytes, before: seq<RawEntry>,
        more: Option<(seq<RawEntry>, Bytes)>)
    requires |body| >= 12 && ReadU32(body[8..]) == count
    requires ParseEntries(h, count, body[12..]) == Prepend(before, more)
    requires !PathsOrdered(before) || PathBytes(before) > MAX_PATH_BYTES
    ensures ParseBody(h, body).None?
  {
    hide ReadU32, ParseEntries, ParseTree, PathsOrdered, PathBytes, Prepend;
    if Prepend(before, more).Some? {
      BadPrefix(before, more);
    }
  }

  /** For the two supported formats: the parser succeeds exactly on encoded indexes. */
  lemma {:induction false} AcceptsEncodedOnly(digest: Bytes -> Bytes, data: Bytes, format: ObjectFormat)
    requires format != OtherFormat && forall d :: |digest(d)| == HashBytes(format)
    ensures ParseIndex(digest, HashBytes(format), data).Some? <==>
      exists x :: IndexOk(HashBytes(format), x) && data == EncodeIndex(digest, HashBytes(format), x)
  {
    hide IndexOk, EncodeIndex, ParseIndex;
    var h := HashBytes(format);
    if ParseIndex(digest, h, data).Some? {
      ParserIsInverse(digest, h, data, ParseIndex(digest, h, data).value);
    }
    if x :| IndexOk(h, x) && data == EncodeIndex(digest, h, x) {
      ParserIsInverse(digest, h, data, x);
    }
  }
}
