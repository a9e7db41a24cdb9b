/** The raw Git index (capture/_git_proof.py, `parse_raw_index`; section "Index entry" of
    gitformat-index): an encoder, the parser, and that the parser accepts exactly what the
    encoder produces. */
module RawIndex {
  import opened Orders
  import opened Utf8
  import opened GitPaths

  const MAX_ENTRIES := 1_000_000
  const MAX_PATH_BYTES := 256 * 1024 * 1024

  datatype ObjectFormat = Sha1 | Sha256 | OtherFormat

  /** `expected_oid_length(...) // 2`. */
  function HashBytes(format: ObjectFormat): nat {
    match format case Sha1 => 20 case Sha256 => 32 case OtherFormat => 0
  }

  datatype Mode = Regular | Executable | Symlink

  function ModeValue(mode: Mode): (n: int)
    ensures 0 <= n < 65536
  {
    match mode case Regular => 33188 case Executable => 33261 case Symlink => 40960
  }

  function ModeOf(value: int): Option<Mode> {
    if value == 33188 then Some(Regular) else if value == 33261 then Some(Executable)
    else if value == 40960 then Some(Symlink) else None
  }

  /** An entry as stored: `before` and `after` are the stat words around the mode. */
  datatype RawEntry = RawEntry(before: Bytes, mode: Mode, after: Bytes, oid: Bytes, path: Bytes)

  /** An index file without its checksum: the entries and the TREE extension, if any. */
  datatype Index = Index(version: int, entries: seq<RawEntry>, tree: Option<Bytes>)

  /** What the parser returns for an entry; the stage is always 0. */
  datatype IndexEntry = IndexEntry(mode: Mode, oid: Bytes, path: Bytes)

  // ----- integers in network order -----

  function U32(n: int): (b: Bytes)
    requires 0 <= n < 0x1_0000_0000
    ensures |b| == 4
  {
    [n / 16777216, n / 65536 % 256, n / 256 % 256, n % 256]
  }

  function ReadU32(b: Bytes): (n: int)
    requires |b| >= 4
    ensures 0 <= n < 0x1_0000_0000
  {
    Num(b[0]) * 16777216 + Num(b[1]) * 65536 + Num(b[2]) * 256 + Num(b[3])
  }

  function U16(n: int): (b: Bytes)
    requires 0 <= n < 65536
    ensures |b| == 2
  {
    [n / 256, n % 256]
  }

  function ReadU16(b: Bytes): (n: int)
    requires |b| >= 2
    ensures 0 <= n < 65536
  {
    Num(b[0]) * 256 + Num(b[1])
  }

  lemma {:induction false} Digits256(n: int)
    requires 0 <= n < 0x1_0000_0000
    ensures n == n / 16777216 * 16777216 + n / 65536 % 256 * 65536 + n / 256 % 256 * 256 + n % 256
  {
    var a, b := n / 256, n / 65536;
    assert n == a * 256 + n % 256;
    assert a == b * 256 + a % 256;
    assert b == n / 16777216 * 256 + b % 256;
  }

  lemma {:induction false} ReadWritten32(n: int, rest: Bytes)
    requires 0 <= n < 0x1_0000_0000
    ensures ReadU32(U32(n) + rest) == n
  {
    Digits256(n);
    var b := U32(n) + rest;
    assert b[0] == U32(n)[0] && b[1] == U32(n)[1] && b[2] == U32(n)[2] && b[3] == U32(n)[3];
  }

  lemma {:induction false} WrittenRead32(b: Bytes)
    requires |b| >= 4
    ensures U32(ReadU32(b)) == b[..4]
  {
    var n := ReadU32(b);
    assert n / 16777216 == b[0];
    assert n / 65536 == Num(b[0]) * 256 + Num(b[1]);
    assert n / 256 == Num(b[0]) * 65536 + Num(b[1]) * 256 + Num(b[2]);
  }

  lemma {:induction false} ReadWritten16(n: int, rest: Bytes)
    requires 0 <= n < 65536
    ensures ReadU16(U16(n) + rest) == n
  {
  }

  lemma {:induction false} WrittenRead16(b: Bytes)
    requires |b| >= 2
    ensures U16(ReadU16(b)) == b[..2]
  {
  }

  // ----- one entry -----

  function Zeros(n: nat): (z: Bytes)
    ensures |z| == n && forall i :: 0 <= i < n ==> z[i] == 0
  {
    seq(n, i => 0)
  }

  /** Bytes from the start of an entry up to and including the NUL after its path. */
  function Consumed(h: nat, path: Bytes): nat {
    42 + h + |path| + 1
  }

  /** NUL bytes after that NUL, up to a multiple of eight. */
  function Padding(consumed: int): nat {
    -consumed % 8
  }

  /** The length field: 12 bits, saturated. */
  function LengthField(path: Bytes): (n: int)
    ensures 0 <= n < 4096
  {
    if |path| < 4095 then |path| else 4095
  }

  predicate EntryOk(h: nat, e: RawEntry) {
    |e.before| == 24 && |e.after| == 12 && |e.oid| == h && 0 !in e.path && RepoPath(e.path)
  }

  function EncodeEntry(h: nat, e: RawEntry): Bytes {
    e.before + U32(ModeValue(e.mode)) + e.after + e.oid + U16(LengthField(e.path)) + e.path + [0]
    + Zeros(Padding(Consumed(h, e.path)))
  }

  /** `find(b"\x00")`: the first NUL. */
  function FindNul(d: Bytes): (r: Option<nat>)
    ensures r.Some? ==> r.value < |d| && d[r.value] == 0 && 0 !in d[..r.value]
    ensures r.None? ==> 0 !in d
  {
    if d == [] then None
    else if d[0] == 0 then Some(0)
    else
      match FindNul(d[1..])
      case None => assert d == [d[0]] + d[1..]; None
      case Some(n) => assert d[..n + 1] == [d[0]] + d[1..][..n]; Some(n + 1)
  }

  predicate AllZero(d: Bytes) {
    forall i :: 0 <= i < |d| ==> d[i] == 0
  }

  /** The path behind the fixed part of an entry, and where the entry ends. */
  function ParsePath(h: nat, length: int, d: Bytes): (r: Option<(Bytes, nat)>)
    requires |d| >= 42 + h
    ensures r.Some? ==> 42 + h < r.value.1 <= |d|
  {
    match FindNul(d[42 + h..])
    case None => None
    case Some(n) =>
      var path := d[42 + h..42 + h + n];
      var end := Consumed(h, path) + Padding(Consumed(h, path));
      if length != LengthField(path) || !RepoPath(path) then None
      else if end > |d| || !AllZero(d[Consumed(h, path)..end]) then None
      else Some((path, end))
  }

  /** Reads one entry from the front of these bytes; what is left follows it. */
  function ParseEntry(h: nat, d: Bytes): (r: Option<(RawEntry, Bytes)>)
    ensures r.Some? ==> |r.value.1| < |d|
  {
    if |d| < 42 + h then None
    else if ReadU16(d[40 + h..]) >= 4096 then None
    else
      match ParsePath(h, ReadU16(d[40 + h..]), d)
      case None => None
      case Some((path, end)) =>
        match ModeOf(ReadU32(d[24..]))
        case None => None
        case Some(mode) => Some((RawEntry(d[..24], mode, d[28..40], d[40..40 + h], path), d[end..]))
  }

  lemma {:induction false} NulAt(path: Bytes, rest: Bytes)
    requires 0 !in path
    ensures FindNul(path + [0] + rest) == Some(|path|)
  {
    if path != [] {
      assert path[0] in path;
      NulAt(path[1..], rest);
      assert (path + [0] + rest)[1..] == path[1..] + [0] + rest;
    }
  }

  lemma {:induction false} EntryBytes(h: nat, e: RawEntry, rest: Bytes)
    requires EntryOk(h, e)
    ensures var d := EncodeEntry(h, e) + rest; var c := Consumed(h, e.path);
      && |d| == c + Padding(c) + |rest|
      && d[..24] == e.before && d[24..28] == U32(ModeValue(e.mode)) && d[28..40] == e.after && d[40..40 + h] == e.oid
      && d[40 + h..42 + h] == U16(LengthField(e.path)) && d[42 + h..42 + h + |e.path|] == e.path
      && d[42 + h..] == e.path + [0] + (Zeros(Padding(c)) + rest)
      && d[c..c + Padding(c)] == Zeros(Padding(c)) && d[c + Padding(c)..] == rest
  {
    hide RepoPath, U32, U16, Padding, LengthField, ModeValue, Zeros;
    var c := Consumed(h, e.path);
    var d := EncodeEntry(h, e) + rest;
    var z := Zeros(Padding(c));
    var f := e.before + U32(ModeValue(e.mode)) + e.after + e.oid + U16(LengthField(e.path));
    assert d == f + (e.path + [0] + (z + rest));
    assert |f| == 42 + h;
  }

  /** An encoded entry is read back, and what follows it is left. */
  lemma {:induction false} ParseEncodedEntry(h: nat, e: RawEntry, rest: Bytes)
    requires EntryOk(h, e)
    ensures ParseEntry(h, EncodeEntry(h, e) + rest) == Some((e, rest))
  {
    hide RepoPath, U32, U16, ReadU16, ReadU32, Padding, EncodeEntry, FindNul, Zeros;
    var d := EncodeEntry(h, e) + rest;
    EntryBytes(h, e, rest);
    NulAt(e.path, Zeros(Padding(Consumed(h, e.path))) + rest);
    ReadWritten16(LengthField(e.path), d[42 + h..]);
    assert d[40 + h..] == U16(LengthField(e.path)) + d[42 + h..];
    ReadWritten32(ModeValue(e.mode), d[28..]);
    assert d[24..] == U32(ModeValue(e.mode)) + d[28..];
  }

  lemma {:induction false} ModeRoundTrip(value: int)
    requires ModeOf(value).Some?
    ensures ModeValue(ModeOf(value).value) == value
  {
  }

  lemma {:induction false} ZerosOnly(d: Bytes)
    requires AllZero(d)
    ensures d == Zeros(|d|)
  {
  }

  /** Bytes read as an entry are the encoding of that entry. */
  lemma {:induction false} EncodeParsedEntry(h: nat, d: Bytes)
    requires ParseEntry(h, d).Some?
    ensures var (e, rest) := ParseEntry(h, d).value; EntryOk(h, e) && d == EncodeEntry(h, e) + rest
  {
    hide RepoPath, U32, U16, ReadU16, ReadU32, Padding, FindNul, Zeros, ModeOf, ModeValue, LengthField;
    var (e, rest) := ParseEntry(h, d).value;
    var c := Consumed(h, e.path);
    var end := c + Padding(c);
    WrittenRead32(d[24..]);
    ModeRoundTrip(ReadU32(d[24..]));
    assert d[24..][..4] == d[24..28];
    WrittenRead16(d[40 + h..]);
    assert d[40 + h..][..2] == d[40 + h..42 + h];
    ZerosOnly(d[c..end]);
    assert d[42 + h..][..|e.path|] == e.path;
    assert d[c - 1] == 0 by {
      assert d[42 + h..][|e.path|] == d[c - 1];
    }
    assert d[c - 1..c] == [0];
    Reassemble(d, h, |e.path|, end);
  }

  lemma {:induction false} Reassemble(d: Bytes, h: nat, n: nat, end: nat)
    requires 42 + h + n + 1 <= end <= |d|
    ensures d == d[..24] + d[24..28] + d[28..40] + d[40..40 + h] + d[40 + h..42 + h] + d[42 + h..42 + h + n]
      + d[42 + h + n..42 + h + n + 1] + d[42 + h + n + 1..end] + d[end..]
  {
  }

  /** An entry on disk: the mode in its two words, the length field, the path, and one to eight
      NULs that fill it up to a multiple of eight bytes. */
  lemma {:induction false} EntryLayout(h: nat, e: RawEntry)
    requires EntryOk(h, e)
    ensures var d := EncodeEntry(h, e); var fixed := 42 + h;
      && |d| % 8 == 0 && fixed + |e.path| < |d| <= fixed + |e.path| + 8
      && d[..24] == e.before && d[24] == 0 && d[25] == 0
      && Num(d[26]) * 256 + Num(d[27]) == (if e.mode == Symlink then 0xA000 else if e.mode == Executable then 0x81ED else 0x81A4)
      && d[28..40] == e.after && d[40..40 + h] == e.oid
      && Num(d[40 + h]) * 256 + Num(d[41 + h]) == (if |e.path| <= 4095 then |e.path| else 4095)
      && d[fixed..fixed + |e.path|] == e.path
      && forall i :: fixed + |e.path| <= i < |d| ==> d[i] == 0
  {
    hide RepoPath, U32, U16, EncodeEntry, Zeros;
    var d := EncodeEntry(h, e);
    var c := Consumed(h, e.path);
    assert d + [] == d;
    EntryBytes(h, e, []);
    ReadWritten32(ModeValue(e.mode), []);
    ReadWritten16(LengthField(e.path), []);
    var m, f := U32(ModeValue(e.mode)), U16(LengthField(e.path));
    assert m + [] == m && f + [] == f;
    assert m[0] == d[24..28][0] && m[1] == d[24..28][1] && m[2] == d[24..28][2] && m[3] == d[24..28][3];
    assert f[0] == d[40 + h..42 + h][0] && f[1] == d[40 + h..42 + h][1];
    NulFill(d, h, e.path);
  }

  lemma {:induction false} NulFill(d: Bytes, h: nat, path: Bytes)
    requires var c := Consumed(h, path);
      |d| == c + Padding(c) && d[42 + h..] == path + [0] + Zeros(Padding(c))
    ensures forall i :: 42 + h + |path| <= i < |d| ==> d[i] == 0
  {
    var c := Consumed(h, path);
    var tail := path + [0] + Zeros(Padding(c));
    assert forall i :: 42 + h <= i < |d| ==> d[i] == d[42 + h..][i - 42 - h];
    assert forall j :: |path| <= j < |tail| ==> tail[j] == 0;
  }

  /** The mode words are those of regular files without and with permission to execute, and of
      symbolic links, and no others are read. */
  lemma {:induction false} ModeWords(value: int, mode: Mode)
    ensures ModeOf(value) == Some(mode) <==> value == ModeValue(mode)
    ensures ModeValue(mode) / 0x1000 == if mode == Symlink then 0xA else 8
    ensures ModeValue(mode) % 0x1000 ==
      match mode case Regular => 6 * 64 + 4 * 8 + 4 case Executable => 7 * 64 + 5 * 8 + 5 case Symlink => 0
  {
  }

  // ----- all entries -----

  function EncodeEntries(h: nat, es: seq<RawEntry>): Bytes {
    if es == [] then [] else EncodeEntry(h, es[0]) + EncodeEntries(h, es[1..])
  }

  function ParseEntries(h: nat, count: nat, d: Bytes): Option<(seq<RawEntry>, Bytes)> {
    if count == 0 then Some(([], d))
    else
      match ParseEntry(h, d)
      case None => None
      case Some((e, rest)) =>
        match ParseEntries(h, count - 1, rest)
        case None => None
        case Some((es, left)) => Some(([e] + es, left))
  }

  lemma {:induction false} ParseEncodedEntries(h: nat, es: seq<RawEntry>, rest: Bytes)
    requires forall i :: 0 <= i < |es| ==> EntryOk(h, es[i])
    ensures ParseEntries(h, |es|, EncodeEntries(h, es) + rest) == Some((es, rest))
  {
    hide EntryOk, ParseEntry, EncodeEntry;
    if es != [] {
      var tail := EncodeEntries(h, es[1..]) + rest;
      assert EncodeEntries(h, es) + rest == EncodeEntry(h, es[0]) + tail;
      ParseEncodedEntry(h, es[0], tail);
      ParseEncodedEntries(h, es[1..], rest);
      assert es == [es[0]] + es[1..];
    } else {
      assert EncodeEntries(h, es) + rest == rest;
    }
  }

  lemma {:induction false} EncodeParsedEntries(h: nat, count: nat, d: Bytes)
    requires ParseEntries(h, count, d).Some?
    ensures var (es, rest) := ParseEntries(h, count, d).value;
      |es| == count && (forall i :: 0 <= i < |es| ==> EntryOk(h, es[i])) && d == EncodeEntries(h, es) + rest
  {
    hide EntryOk, ParseEntry, EncodeEntry;
    if count > 0 {
      EncodeParsedEntry(h, d);
      var (e, left) := ParseEntry(h, d).value;
      EncodeParsedEntries(h, count - 1, left);
      var (es, rest) := ParseEntries(h, count, d).value;
      assert es[1..] == ParseEntries(h, count - 1, left).value.0;
    }
  }

  /** Paths strictly increase as byte strings. */
  predicate PathsOrdered(es: seq<RawEntry>) {
    forall i :: 0 < i < |es| ==> LexLt(es[i - 1].path, es[i].path)
  }

  function PathBytes(es: seq<RawEntry>): nat {
    if es == [] then 0 else PathBytes(es[..|es| - 1]) + |es[|es| - 1].path|
  }

  // ----- the extension area -----

  const TREE: Bytes := [84, 82, 69, 69]

  predicate TreeOk(tree: Option<Bytes>) {
    tree.Some? ==> |tree.value| < 0x1_0000_0000
  }

  function EncodeTree(tree: Option<Bytes>): Bytes
    requires TreeOk(tree)
  {
    match tree
    case None => []
    case Some(data) => TREE + U32(|data|) + data
  }

  /** Nothing, or one TREE extension that fills the rest. */
  function ParseTree(d: Bytes): Option<Option<Bytes>> {
    if d == [] then Some(None)
    else if |d| < 8 || d[..4] != TREE || ReadU32(d[4..]) != |d| - 8 then None
    else Some(Some(d[8..]))
  }

  lemma {:induction false} ParseEncodedTree(tree: Option<Bytes>)
    requires TreeOk(tree)
    ensures ParseTree(EncodeTree(tree)) == Some(tree)
  {
    hide U32, ReadU32;
    if tree.Some? {
      var data := tree.value;
      var d := EncodeTree(tree);
      assert d[4..] == U32(|data|) + data;
      ReadWritten32(|data|, data);
      assert d[..4] == TREE && d[8..] == data;
    }
  }

  lemma {:induction false} EncodeParsedTree(d: Bytes)
    requires ParseTree(d).Some?
    ensures TreeOk(ParseTree(d).value) && d == EncodeTree(ParseTree(d).value)
  {
    hide U32, ReadU32;
    if d != [] {
      WrittenRead32(d[4..]);
      assert d[4..][..4] == d[4..8];
      assert d == d[..4] + d[4..8] + d[8..];
    }
  }

  // ----- the whole file -----

  const SIGNATURE: Bytes := [68, 73, 82, 67]

  predicate IndexOk(h: nat, x: Index) {
    && (x.version == 2 || x.version == 3) && |x.entries| <= MAX_ENTRIES
    && (forall i :: 0 <= i < |x.entries| ==> EntryOk(h, x.entries[i]))
    && PathsOrdered(x.entries) && PathBytes(x.entries) <= MAX_PATH_BYTES && TreeOk(x.tree)
  }

  function EncodeBody(h: nat, x: Index): Bytes
    requires IndexOk(h, x)
  {
    SIGNATURE + U32(x.version) + U32(|x.entries|) + EncodeEntries(h, x.entries) + EncodeTree(x.tree)
  }

  function ParseBody(h: nat, body: Bytes): Option<Index> {
    if |body| < 12 || body[..4] != SIGNATURE then None
    else
      var version := ReadU32(body[4..]);
      var count := ReadU32(body[8..]);
      if (version != 2 && version != 3) || count > MAX_ENTRIES then None
      else
        match ParseEntries(h, count, body[12..])
        case None => None
        case Some((es, rest)) =>
          if !PathsOrdered(es) || PathBytes(es) > MAX_PATH_BYTES then None
          else
            match ParseTree(rest)
            case None => None
            case Some(tree) => Some(Index(version, es, tree))
  }

  /** An index file: the body and its digest. */
  function EncodeIndex(digest: Bytes -> Bytes, h: nat, x: Index): Bytes
    requires IndexOk(h, x)
  {
    EncodeBody(h, x) + digest(EncodeBody(h, x))
  }

  function ParseIndex(digest: Bytes -> Bytes, h: nat, data: Bytes): Option<Index> {
    if |data| < 12 + h then None
    else
      var body := data[..|data| - h];
      if data[|data| - h..] != digest(body) then None else ParseBody(h, body)
  }

  lemma {:induction false} ParseEncodedBody(h: nat, x: Index)
    requires IndexOk(h, x)
    ensures ParseBody(h, EncodeBody(h, x)) == Some(x)
  {
    hide EntryOk, U32, ReadU32, ParseEntries, EncodeEntries, ParseTree, EncodeTree, PathBytes, PathsOrdered;
    var body := EncodeBody(h, x);
    var tail := EncodeEntries(h, x.entries) + EncodeTree(x.tree);
    assert body == SIGNATURE + U32(x.version) + U32(|x.entries|) + tail;
    assert body[..4] == SIGNATURE && body[12..] == tail;
    assert body[4..] == U32(x.version) + body[8..] && body[8..] == U32(|x.entries|) + tail;
    ReadWritten32(x.version, body[8..]);
    ReadWritten32(|x.entries|, tail);
    ParseEncodedEntries(h, x.entries, EncodeTree(x.tree));
    ParseEncodedTree(x.tree);
  }

  lemma {:induction false} EncodeParsedBody(h: nat, body: Bytes)
    requires ParseBody(h, body).Some?
    ensures IndexOk(h, ParseBody(h, body).value) && EncodeBody(h, ParseBody(h, body).value) == body
  {
    hide EntryOk, U32, ReadU32, ParseEntries, EncodeEntries, ParseTree, EncodeTree, PathBytes, PathsOrdered, TreeOk;
    var count := ReadU32(body[8..]);
    WrittenRead32(body[4..]);
    WrittenRead32(body[8..]);
    EncodeParsedEntries(h, count, body[12..]);
    EncodeParsedTree(ParseEntries(h, count, body[12..]).value.1);
    assert body[4..][..4] == body[4..8] && body[8..][..4] == body[8..12];
    assert body == body[..4] + body[4..8] + body[8..12] + body[12..];
  }

  /** The parser accepts exactly the image of the encoder, and returns what was encoded. */
  lemma {:induction false} ParserIsInverse(digest: Bytes -> Bytes, h: nat, data: Bytes, x: Index)
    requires forall d :: |digest(d)| == h
    ensures ParseIndex(digest, h, data) == Some(x) <==> IndexOk(h, x) && data == EncodeIndex(digest, h, x)
  {
    hide IndexOk, EncodeBody, ParseBody;
    if ParseIndex(digest, h, data) == Some(x) {
      var body := data[..|data| - h];
      EncodeParsedBody(h, body);
      assert data == body + data[|data| - h..];
    }
    if IndexOk(h, x) && data == EncodeIndex(digest, h, x) {
      var body := EncodeBody(h, x);
      ParseEncodedBody(h, x);
      BodyLong(h, x);
      assert data[..|data| - h] == body && data[|data| - h..] == digest(body);
    }
  }

  lemma {:induction false} BodyLong(h: nat, x: Index)
    requires IndexOk(h, x)
    ensures |EncodeBody(h, x)| >= 12
  {
    hide EncodeEntries, EncodeTree;
  }
}
