/** Path identities and scopes over exact bytes (kernel/paths.py). Two encodings separate segments
    by the byte `/`, the third by either slash in UTF-16LE. */
module Paths {
  import opened Orders
  import opened Utf8
  import opened Utf16
  import opened Base64Url
  import Splitting

  datatype Encoding = PosixBytes | GitPathBytes | WindowsUtf16le

  /** PathIdentityV1. */
  datatype PathIdentity = PathIdentity(encoding: Encoding, raw64: Text, offsets: seq<int>, caseKey64: Option<Text>)

  /** Full Unicode case folding. */
  type Fold = Text -> Text

  const SLASH: Byte := 47
  const SLASH_UNIT: Unit := 47

  // ----- segments -----

  predicate BadSegment(segment: seq<int>) {
    segment == [] || segment == [46, 46]
  }

  predicate SegmentsOk(parts: seq<seq<int>>) {
    forall i :: 0 <= i < |parts| ==> !BadSegment(parts[i])
  }

  /** Relative, without NUL, empty segments or parent traversal. */
  predicate PosixPathOk(raw: Bytes) {
    raw != [] && raw[0] != SLASH && 0 !in raw && SegmentsOk(Splitting.Split(raw, SLASH))
  }

  /** A backslash separates like a slash. */
  function Unify(u: Unit): Unit {
    if u == 92 then SLASH_UNIT else u
  }

  function Unified(us: seq<Unit>): (r: seq<Unit>)
    ensures |r| == |us| && forall i :: 0 <= i < |us| ==> r[i] == Unify(us[i])
  {
    seq(|us|, i requires 0 <= i < |us| => Unify(us[i]))
  }

  function WindowsParts(raw: Bytes): (parts: seq<seq<Unit>>)
    requires |raw| % 2 == 0
    ensures parts != []
  {
    Splitting.Split(Unified(UnitsOf(raw)), SLASH_UNIT)
  }

  predicate Separator(c: CodePoint) { c == 92 || c == 47 }

  /** Well-formed UTF-16LE of a relative path without NUL, drive, empty segments or parent
      traversal. */
  predicate WindowsTextOk(text: Text) {
    && 0 !in text && (text != [] ==> !Separator(text[0]))
    && !(|text| >= 2 && text[1] == 58)
  }

  predicate WindowsPathOk(raw: Bytes) {
    && raw != [] && |raw| % 2 == 0 && Decode16(raw).Some? && WindowsTextOk(Decode16(raw).value)
    && SegmentsOk(WindowsParts(raw))
  }

  predicate PathBytesOk(encoding: Encoding, raw: Bytes) {
    if encoding == WindowsUtf16le then WindowsPathOk(raw) else PosixPathOk(raw)
  }

  /** Unit positions as byte positions. */
  function Doubled(starts: seq<int>): (r: seq<int>)
    ensures |r| == |starts| && forall i :: 0 <= i < |starts| ==> r[i] == 2 * starts[i]
  {
    seq(|starts|, i requires 0 <= i < |starts| => 2 * starts[i])
  }

  /** `_segment_offsets`. */
  function SegmentOffsets(encoding: Encoding, raw: Bytes): (r: Result<seq<int>, PathError>)
    ensures r.Ok? <==> PathBytesOk(encoding, raw)
  {
    if !PathBytesOk(encoding, raw) then Err(CanonicalJSONError)
    else if encoding == WindowsUtf16le then Ok(Doubled(Splitting.StartsOf(WindowsParts(raw), 0)))
    else Ok(Splitting.StartsOf(Splitting.Split(raw, SLASH), 0))
  }

  /** `_path_components`. */
  function Components(encoding: Encoding, raw: Bytes): seq<Bytes>
    requires encoding == WindowsUtf16le ==> |raw| % 2 == 0
  {
    if encoding == WindowsUtf16le then PartBytes(WindowsParts(raw)) else Splitting.Split(raw, SLASH)
  }

  function PartBytes(parts: seq<seq<Unit>>): (r: seq<Bytes>)
    ensures |r| == |parts| && forall i :: 0 <= i < |parts| ==> r[i] == BytesOf(parts[i])
  {
    seq(|parts|, i requires 0 <= i < |parts| => BytesOf(parts[i]))
  }

  lemma {:induction false} PartsCut<T>(raw: seq<T>, sep: T, i: nat)
    requires i < |Splitting.Split(raw, sep)|
    ensures var parts := Splitting.Split(raw, sep); var starts := Splitting.StartsOf(parts, 0);
      && starts[0] == 0 && 0 <= starts[i]
      && starts[i] + |parts[i]| <= |raw| && raw[starts[i]..starts[i] + |parts[i]|] == parts[i] && sep !in parts[i]
      && (if i + 1 < |parts|
          then starts[i] + |parts[i]| < |raw| && raw[starts[i] + |parts[i]|] == sep && starts[i + 1] == starts[i] + |parts[i]| + 1
          else starts[i] + |parts[i]| == |raw|)
  {
    hide Splitting.Join, Splitting.StartsOf, Splitting.Split;
    var parts := Splitting.Split(raw, sep);
    Splitting.JoinSplit(raw, sep);
    Splitting.SplitParts(raw, sep);
    Splitting.PartAt(parts, sep, i);
    Splitting.StartsNext(parts, 0, sep, i);
    Splitting.StartsNext(parts, 0, sep, 0);
  }

  /** `_posix_segment_offsets` as it runs. */
  method PosixSegmentOffsets(raw: Bytes) returns (r: Result<seq<int>, PathError>)
    ensures r == SegmentOffsets(PosixBytes, raw) == SegmentOffsets(GitPathBytes, raw)
  {
    hide Splitting.Split, Splitting.StartsOf;
    if raw == [] || raw[0] == SLASH || 0 in raw { return Err(CanonicalJSONError); }
    var segments := Splitting.Split(raw, SLASH);
    if exists i :: 0 <= i < |segments| && segments[i] == [] { return Err(CanonicalJSONError); }
    if exists i :: 0 <= i < |segments| && segments[i] == [46, 46] { return Err(CanonicalJSONError); }
    var offsets: seq<int> := [];
    var offset := 0;
    var k := 0;
    Splitting.StartsNext(segments, 0, SLASH, 0);
    while k < |segments|
      invariant 0 <= k <= |segments|
      invariant offsets == Splitting.StartsOf(segments, 0)[..k]
      invariant k < |segments| ==> offset == Splitting.StartsOf(segments, 0)[k]
      invariant k == 0 ==> offset == 0
    {
      Splitting.StartsNext(segments, 0, SLASH, k);
      offsets := offsets + [offset];
      offset := offset + |segments[k]| + 1;
      k := k + 1;
    }
    assert offsets == Splitting.StartsOf(segments, 0);
    r := Ok(offsets);
  }

  // ----- segments of Windows paths -----

  /** What the loop over code units has cut off before position k: the closed segments, and
      the bytes of the open one. */
  ghost predicate CutSoFar(raw: Bytes, k: int, segments: seq<(int, Bytes)>, start: int)
    requires |raw| % 2 == 0 && 0 <= 2 * k <= |raw|
  {
    var parts := Splitting.Split(Unified(UnitsOf(raw))[..k], SLASH_UNIT);
    var starts := Splitting.StartsOf(parts, 0);
    var n := |parts| - 1;
    && |segments| == n && 0 <= start <= 2 * k && start == 2 * starts[n]
    && raw[start..2 * k] == BytesOf(parts[n])
    && forall j :: 0 <= j < n ==> segments[j] == (2 * starts[j], BytesOf(parts[j]))
  }

  lemma {:induction false} SeparatorUnit(raw: Bytes, k: nat)
    requires |raw| % 2 == 0 && 2 * k < |raw|
    ensures k < |UnitsOf(raw)|
    ensures var u := UnitsOf(raw)[k]; var unit := raw[2 * k..2 * k + 2];
      && unit == [LowByte(u), HighByte(u)]
      && (Unify(u) == SLASH_UNIT <==> unit == [92, 0] || unit == [47, 0])
      && (Unify(u) != SLASH_UNIT ==> Unify(u) == u)
  {
    UnitsAt(raw, k);
    UnitBytes(raw[2 * k], raw[2 * k + 1]);
    assert raw[2 * k..2 * k + 2] == [raw[2 * k], raw[2 * k + 1]];
  }

  lemma {:induction false} CutNext(raw: Bytes, k: nat, segments: seq<(int, Bytes)>, start: int)
    requires |raw| % 2 == 0 && 2 * k < |raw| && CutSoFar(raw, k, segments, start)
    ensures var unit := raw[2 * k..2 * k + 2];
      if unit == [92, 0] || unit == [47, 0]
      then CutSoFar(raw, k + 1, segments + [(start, raw[start..2 * k])], 2 * k + 2)
      else CutSoFar(raw, k + 1, segments, start)
  {
    hide Splitting.Split, Splitting.StartsOf, BytesOf, UnitsOf, Unify, LowByte, HighByte;
    var us := Unified(UnitsOf(raw));
    var c := us[k];
    var parts, next := Splitting.Split(us[..k], SLASH_UNIT), Splitting.Split(us[..k + 1], SLASH_UNIT);
    var n := |parts| - 1;
    assert us[..k + 1] == us[..k] + [c];
    SeparatorUnit(raw, k);
    Splitting.SplitSnoc(us[..k], c, SLASH_UNIT);
    forall j | 0 <= j <= n ensures Splitting.StartsOf(next, 0)[j] == Splitting.StartsOf(parts, 0)[j] {
      assert next[..j] == parts[..j];
      Splitting.StartsAgree(next, parts, 0, j);
    }
    if c == SLASH_UNIT {
      Splitting.StartsNext(next, 0, SLASH_UNIT, n);
      NoBytes();
    } else {
      BytesSnoc(parts[n], c);
      assert raw[start..2 * k + 2] == raw[start..2 * k] + raw[2 * k..2 * k + 2];
    }
  }

  lemma {:induction false} NoBytes()
    ensures BytesOf([]) == []
  {
  }

  lemma {:induction false} CutStart(raw: Bytes)
    requires |raw| % 2 == 0
    ensures CutSoFar(raw, 0, [], 0)
  {
    var us := Unified(UnitsOf(raw))[..0];
    assert us == [];
    assert Splitting.Split(us, SLASH_UNIT) == [[]];
  }

  /** The loop of `_windows_segment_offsets` and of `_path_components`: each separator closes a
      segment, which is listed with the position of its first byte. */
  method CutWindows(raw: Bytes) returns (segments: seq<(int, Bytes)>)
    requires |raw| % 2 == 0
    ensures var parts := WindowsParts(raw);
      && |segments| == |parts|
      && forall i :: 0 <= i < |parts| ==> segments[i] == (2 * Splitting.StartsOf(parts, 0)[i], BytesOf(parts[i]))
  {
    hide CutSoFar;
    segments := [];
    var start := 0;
    var index := 0;
    CutStart(raw);
    while index < |raw|
      invariant 0 <= index <= |raw| && index % 2 == 0
      invariant CutSoFar(raw, index / 2, segments, start)
    {
      CutNext(raw, index / 2, segments, start);
      var unit := raw[index..index + 2];
      if unit == [92, 0] || unit == [47, 0] {
        CutBounds(raw, index / 2, segments, start);
        segments := segments + [(start, raw[start..index])];
        start := index + 2;
      }
      index := index + 2;
    }
    CutEnd(raw, segments, start);
    segments := segments + [(start, raw[start..])];
  }

  lemma {:induction false} CutBounds(raw: Bytes, k: nat, segments: seq<(int, Bytes)>, start: int)
    requires |raw| % 2 == 0 && 2 * k <= |raw| && CutSoFar(raw, k, segments, start)
    ensures 0 <= start <= 2 * k
  {
    hide Splitting.Split, Splitting.StartsOf, BytesOf, UnitsOf, Unify;
  }

  lemma {:induction false} CutEnd(raw: Bytes, segments: seq<(int, Bytes)>, start: int)
    requires |raw| % 2 == 0 && CutSoFar(raw, |raw| / 2, segments, start)
    ensures 0 <= start <= |raw|
    ensures var parts := WindowsParts(raw); var all := segments + [(start, raw[start..])];
      && |all| == |parts|
      && forall i :: 0 <= i < |parts| ==> all[i] == (2 * Splitting.StartsOf(parts, 0)[i], BytesOf(parts[i]))
  {
    hide Splitting.Split, Splitting.StartsOf, BytesOf, UnitsOf, Unify;
    var us := Unified(UnitsOf(raw));
    assert us[..|raw| / 2] == us;
    assert raw[start..|raw|] == raw[start..];
  }

  /** How many bytes a separator takes. */
  function Width(encoding: Encoding): int {
    if encoding == WindowsUtf16le then 2 else 1
  }

  predicate SeparatorAt(encoding: Encoding, d: Bytes, i: int) {
    && 0 <= i && i + Width(encoding) <= |d|
    && if encoding == WindowsUtf16le then d[i..i + 2] == [92, 0] || d[i..i + 2] == [47, 0] else d[i] == SLASH
  }

  /** Offset i is where component i starts, and the component ends at the next separator or at
      the end; no separator is inside it. */
  ghost predicate CutAt(encoding: Encoding, raw: Bytes, offsets: seq<int>, components: seq<Bytes>, i: int)
    requires 0 <= i < |components| == |offsets|
  {
    var end := offsets[i] + |components[i]|;
    && 0 <= offsets[i] && end <= |raw| && raw[offsets[i]..end] == components[i]
    && (forall j {:trigger j * Width(encoding)} :: 0 <= j ==> !SeparatorAt(encoding, components[i], j * Width(encoding)))
    && (if i + 1 < |components|
        then SeparatorAt(encoding, raw, end) && offsets[i + 1] == end + Width(encoding)
        else end == |raw|)
  }

  lemma {:induction false} PosixCut(encoding: Encoding, raw: Bytes, i: nat)
    requires encoding != WindowsUtf16le && SegmentOffsets(encoding, raw).Ok? && i < |Components(encoding, raw)|
    ensures |SegmentOffsets(encoding, raw).value| == |Components(encoding, raw)|
    ensures CutAt(encoding, raw, SegmentOffsets(encoding, raw).value, Components(encoding, raw), i)
  {
    hide Splitting.Split, Splitting.StartsOf;
    PartsCut(raw, SLASH, i);
  }

  lemma {:induction false} SliceOfSlice(d: Bytes, a: nat, b: nat, i: nat, j: nat)
    requires a <= b <= |d| && i <= j <= b - a
    ensures d[a..b][i..j] == d[a + i..a + j]
  {
    var x, y := d[a..b][i..j], d[a + i..a + j];
    assert |x| == |y| && forall k :: 0 <= k < |x| ==> x[k] == y[k];
  }

  lemma {:induction false} WindowsCut(raw: Bytes, i: nat)
    requires SegmentOffsets(WindowsUtf16le, raw).Ok? && i < |Components(WindowsUtf16le, raw)|
    ensures |SegmentOffsets(WindowsUtf16le, raw).value| == |Components(WindowsUtf16le, raw)|
    ensures CutAt(WindowsUtf16le, raw, SegmentOffsets(WindowsUtf16le, raw).value, Components(WindowsUtf16le, raw), i)
  {
    hide Splitting.Split, Splitting.StartsOf, BytesOf, UnitsOf, Unify, LowByte, HighByte, Decode16, WindowsTextOk,
      SegmentsOk;
    var us := UnitsOf(raw);
    var parts := WindowsParts(raw);
    var starts := Splitting.StartsOf(parts, 0);
    PartsCut(Unified(us), SLASH_UNIT, i);
    var start, end := starts[i], starts[i] + |parts[i]|;
    forall k | start <= k < end ensures us[k] == parts[i][k - start] && !SeparatorAt(WindowsUtf16le, raw, 2 * k) {
      assert parts[i][k - start] in parts[i];
      assert parts[i][k - start] == Unified(us)[k];
      SeparatorUnit(raw, k);
    }
    assert us[start..end] == parts[i];
    BytesSlice(raw, start, end);
    var component := BytesOf(parts[i]);
    forall j | 0 <= j ensures !SeparatorAt(WindowsUtf16le, component, j * 2) {
      if j * 2 + 2 <= |component| {
        var k := start + j;
        assert !SeparatorAt(WindowsUtf16le, raw, 2 * k);
        assert component == raw[2 * start..2 * end];
        SliceOfSlice(raw, 2 * start, 2 * end, j * 2, j * 2 + 2);
      }
    }
    if i + 1 < |parts| {
      SeparatorUnit(raw, end);
    }
  }

  /** The offsets cut the bytes into exactly the components: they start at 0, strictly increase,
      and from each the next separator or the end closes its component. */
  lemma {:induction false} OffsetsCut(encoding: Encoding, raw: Bytes, i: nat)
    requires SegmentOffsets(encoding, raw).Ok? && i < |Components(encoding, raw)|
    ensures |SegmentOffsets(encoding, raw).value| == |Components(encoding, raw)| && SegmentOffsets(encoding, raw).value[0] == 0
    ensures CutAt(encoding, raw, SegmentOffsets(encoding, raw).value, Components(encoding, raw), i)
  {
    hide Splitting.Split, Decode16, UnitsOf, CutAt, Components;
    if encoding == WindowsUtf16le {
      WindowsCut(raw, i);
    } else {
      PosixCut(encoding, raw, i);
    }
  }

  lemma {:induction false} SegmentBytes(part: seq<Unit>)
    ensures BytesOf(part) == [] <==> part == []
    ensures BytesOf(part) == [46, 0, 46, 0] <==> part == [46, 46]
  {
    hide BytesOf;
    DotsEncoded();
    if BytesOf(part) == [46, 0, 46, 0] {
      UnitsOfBytes(part);
      UnitsOfBytes([46, 46]);
    }
  }

  lemma {:induction false} DotsEncoded()
    ensures BytesOf([46, 46]) == [46, 0, 46, 0]
  {
    BytesSnoc([46], 46);
    BytesSnoc([], 46);
    assert [46] == [] + [46] && [46, 46] == [46] + [46];
  }

  /** `_windows_segment_offsets` as it runs. */
  method WindowsSegmentOffsets(raw: Bytes) returns (r: Result<seq<int>, PathError>)
    ensures r == SegmentOffsets(WindowsUtf16le, raw)
  {
    hide Decode16, Splitting.Split, Splitting.StartsOf, UnitsOf, BytesOf;
    if raw == [] || |raw| % 2 != 0 { return Err(CanonicalJSONError); }
    var decoded := Decode16(raw);
    if decoded.None? { return Err(CanonicalJSONError); }
    var text := decoded.value;
    if 0 in text || (text != [] && Separator(text[0])) { return Err(CanonicalJSONError); }
    if |text| >= 2 && text[1] == 58 { return Err(CanonicalJSONError); }
    var segments := CutWindows(raw);
    ghost var parts := WindowsParts(raw);
    forall i | 0 <= i < |parts|
      ensures segments[i].1 == [] <==> parts[i] == []
      ensures segments[i].1 == [46, 0, 46, 0] <==> parts[i] == [46, 46]
    {
      SegmentBytes(parts[i]);
    }
    if exists i :: 0 <= i < |segments| && segments[i].1 == [] { return Err(CanonicalJSONError); }
    if exists i :: 0 <= i < |segments| && segments[i].1 == [46, 0, 46, 0] { return Err(CanonicalJSONError); }
    var offsets := seq(|segments|, i requires 0 <= i < |segments| => segments[i].0);
    assert offsets == Doubled(Splitting.StartsOf(parts, 0));
    r := Ok(offsets);
  }

  // ----- identities -----

  /** ASCII letters lowered. */
  function Lowered(raw: Bytes): (low: Bytes)
    ensures |low| == |raw|
  {
    seq(|raw|, i requires 0 <= i < |raw| => Lower(raw[i]))
  }

  function Lower(b: Byte): Byte {
    if 65 <= b < 91 then Up(b) else b
  }

  function Up(b: Byte): int {
    var n: int := b;
    n + 32
  }

  /** `_trusted_case_key`. */
  function CaseKey(fold: Fold, encoding: Encoding, raw: Bytes): (key: Bytes)
    requires PathBytesOk(encoding, raw)
    ensures encoding == WindowsUtf16le ==> |key| % 2 == 0
  {
    if encoding == WindowsUtf16le then Encode16(fold(Decode16(raw).value)) else Lowered(raw)
  }

  /** What the PathIdentityV1 constructor checks. */
  predicate Valid(fold: Fold, p: PathIdentity) {
    match Decode64(p.raw64)
    case Err(_) => false
    case Ok(raw) =>
      && SegmentOffsets(p.encoding, raw) == Ok(p.offsets)
      && (p.caseKey64.Some? ==> Decode64(p.caseKey64.value) == Ok(CaseKey(fold, p.encoding, raw)))
  }

  function FromBytes(fold: Fold, encoding: Encoding, raw: Bytes, caseKey: Option<Bytes>): Result<PathIdentity, PathError> {
    match SegmentOffsets(encoding, raw)
    case Err(e) => Err(e)
    case Ok(offsets) =>
      var p := PathIdentity(encoding, Encode64(raw), offsets, if caseKey.Some? then Some(Encode64(caseKey.value)) else None);
      if Valid(fold, p) then Ok(p) else Err(CanonicalJSONError)
  }

  function RawBytes(fold: Fold, p: PathIdentity): (raw: Bytes)
    requires Valid(fold, p)
    ensures PathBytesOk(p.encoding, raw)
  {
    Decode64(p.raw64).value
  }

  /** Path bytes survive: an identity can be made of bytes exactly when they are a relative path
      of the encoding and the case key, if given, is the nonempty one derived from them; the
      identity then gives the bytes back. */
  lemma {:induction false} BytesSurvive(fold: Fold, encoding: Encoding, raw: Bytes, caseKey: Option<Bytes>)
    ensures var r := FromBytes(fold, encoding, raw, caseKey);
      && (r.Ok? <==>
            PathBytesOk(encoding, raw) && (caseKey.Some? ==> caseKey.value == CaseKey(fold, encoding, raw) != []))
      && (r.Ok? ==> Valid(fold, r.value) && RawBytes(fold, r.value) == raw && r.value.encoding == encoding)
  {
    hide Encode64, Decode64, SegmentOffsets, PathBytesOk, CaseKey;
    Decode64Inverse(Encode64(raw), raw);
    if PathBytesOk(encoding, raw) {
      NotEmpty(encoding, raw);
      if caseKey.Some? {
        Decode64Inverse(Encode64(caseKey.value), CaseKey(fold, encoding, raw));
        Decode64Inverse(Encode64(caseKey.value), caseKey.value);
      }
    }
  }

  lemma {:induction false} NotEmpty(encoding: Encoding, raw: Bytes)
    requires PathBytesOk(encoding, raw)
    ensures raw != []
  {
    hide Splitting.Split, Decode16, UnitsOf;
  }

  /** An identity is determined by its encoding, bytes and whether it has a case key. */
  lemma {:induction false} IdentityOfBytes(fold: Fold, p: PathIdentity)
    requires Valid(fold, p)
    ensures var raw := RawBytes(fold, p);
      FromBytes(fold, p.encoding, raw, if p.caseKey64.Some? then Some(CaseKey(fold, p.encoding, raw)) else None) == Ok(p)
  {
    hide Encode64, Decode64, SegmentOffsets, PathBytesOk, CaseKey;
    var raw := RawBytes(fold, p);
    Decode64Inverse(p.raw64, raw);
    if p.caseKey64.Some? {
      Decode64Inverse(p.caseKey64.value, CaseKey(fold, p.encoding, raw));
    }
  }

  // ----- scopes -----

  datatype ScopeKind = FileScope | TreeScope

  datatype Scope = Scope(path: Option<PathIdentity>, kind: ScopeKind)

  predicate ScopeOk(fold: Fold, s: Scope) {
    if s.path.None? then s.kind == TreeScope else Valid(fold, s.path.value)
  }

  /** The bytes scopes compare: the case key if there is one. */
  function Compared(fold: Fold, p: PathIdentity): (raw: Bytes)
    requires Valid(fold, p)
    ensures p.encoding == WindowsUtf16le ==> |raw| % 2 == 0
  {
    if p.caseKey64.Some? then CaseKey(fold, p.encoding, RawBytes(fold, p)) else RawBytes(fold, p)
  }

  predicate Contains(fold: Fold, s: Scope, candidate: PathIdentity)
    requires ScopeOk(fold, s) && Valid(fold, candidate)
  {
    if s.path.None? then true
    else
      var p := s.path.value;
      && p.encoding == candidate.encoding
      && p.caseKey64.Some? == candidate.caseKey64.Some?
      && var x, y := Components(p.encoding, Compared(fold, p)), Components(p.encoding, Compared(fold, candidate));
      if s.kind == FileScope then y == x else x <= y
  }

  method PathComponents(encoding: Encoding, raw: Bytes) returns (components: seq<Bytes>)
    requires encoding == WindowsUtf16le ==> |raw| % 2 == 0
    ensures components == Components(encoding, raw)
  {
    hide Splitting.Split, BytesOf, WindowsParts;
    if encoding != WindowsUtf16le { return Splitting.Split(raw, SLASH); }
    var segments := CutWindows(raw);
    components := seq(|segments|, i requires 0 <= i < |segments| => segments[i].1);
  }

  /** What is compared, with one spelling for the separator. */
  function Spelled(encoding: Encoding, raw: Bytes): seq<int>
    requires encoding == WindowsUtf16le ==> |raw| % 2 == 0
  {
    if encoding == WindowsUtf16le then Unified(UnitsOf(raw)) else raw
  }

  lemma {:induction false} PartBytesPrefix(a: seq<seq<Unit>>, b: seq<seq<Unit>>)
    ensures PartBytes(a) <= PartBytes(b) <==> a <= b
  {
    hide BytesOf;
    if PartBytes(a) <= PartBytes(b) {
      forall i | 0 <= i < |a| ensures a[i] == b[i] {
        assert PartBytes(a)[i] == PartBytes(b)[i];
        UnitsOfBytes(a[i]);
        UnitsOfBytes(b[i]);
      }
    }
  }

  lemma {:induction false} ComponentsPrefix(encoding: Encoding, x: Bytes, y: Bytes)
    requires encoding == WindowsUtf16le ==> |x| % 2 == 0 && |y| % 2 == 0
    ensures Components(encoding, x) <= Components(encoding, y) <==>
      Spelled(encoding, x) == Spelled(encoding, y) || Spelled(encoding, x) + [47] <= Spelled(encoding, y)
    ensures Components(encoding, x) == Components(encoding, y) <==> Spelled(encoding, x) == Spelled(encoding, y)
  {
    hide Splitting.Split, UnitsOf, BytesOf, Unified, PartBytes;
    if encoding == WindowsUtf16le {
      var us, vs := Unified(UnitsOf(x)), Unified(UnitsOf(y));
      Splitting.SplitPrefix(us, vs, SLASH_UNIT);
      Splitting.SplitPrefix(vs, us, SLASH_UNIT);
      PartBytesPrefix(WindowsParts(x), WindowsParts(y));
      PartBytesPrefix(WindowsParts(y), WindowsParts(x));
      Longer(us, vs, SLASH_UNIT);
    } else {
      Splitting.SplitPrefix(x, y, SLASH);
      Splitting.SplitPrefix(y, x, SLASH);
      Longer(x, y, SLASH);
    }
  }

  lemma {:induction false} Longer<T>(x: seq<T>, y: seq<T>, sep: T)
    ensures !(x + [sep] <= y && (y == x || y + [sep] <= x))
  {
  }

  /** A tree scope contains just the paths equal to it or extending it by a separator; a file
      scope just the equal ones; for Windows paths either slash counts as the same one. */
  lemma {:induction false} ContainsExactly(fold: Fold, s: Scope, candidate: PathIdentity)
    requires ScopeOk(fold, s) && Valid(fold, candidate) && s.path.Some?
    ensures var p := s.path.value;
      Contains(fold, s, candidate) <==>
        && p.encoding == candidate.encoding && p.caseKey64.Some? == candidate.caseKey64.Some?
        && var x, y := Spelled(p.encoding, Compared(fold, p)), Spelled(p.encoding, Compared(fold, candidate));
        x == y || (s.kind == TreeScope && x + [47] <= y)
  {
    hide Components, Spelled, Valid, Compared;
    var p := s.path.value;
    if p.encoding == candidate.encoding {
      ComponentsPrefix(p.encoding, Compared(fold, p), Compared(fold, candidate));
    }
  }

  /** Scopes nest: what a contained path's own scope contains, the outer one contains too, as a
      tree unless both are file scopes. */
  lemma {:induction false} ContainsTransitive(fold: Fold, s: Scope, b: PathIdentity, kind: ScopeKind, c: PathIdentity)
    requires ScopeOk(fold, s) && Valid(fold, b) && Valid(fold, c)
    requires Contains(fold, s, b) && Contains(fold, Scope(Some(b), kind), c)
    ensures var outer := Scope(s.path, if s.kind == FileScope && kind == FileScope then FileScope else TreeScope);
      Contains(fold, outer, c)
  {
    hide Components, Valid, Compared;
  }
}
