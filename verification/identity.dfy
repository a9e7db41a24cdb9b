/** Domain-separated record identities (kernel/canonical.py): the hashed bytes determine the
    record type, the schema version and the normalised payload. */
module Identity {
  import opened Orders
  import opened Utf8
  import opened Canonical
  import opened RoundTrip

  datatype IdentityError = DomainNotAscii | DomainEmpty | DomainHasNul | Payload(e: JsonError)

  predicate Ascii(s: Text) {
    forall i :: 0 <= i < |s| ==> s[i] < 0x80
  }

  const PREFIX: Bytes := [97, 99, 103, 0]

  /** The bytes `record_id` hashes. */
  function Preimage(nfc: Text -> Text, recordType: Text, version: Text, payload: Json): Result<Bytes, IdentityError> {
    if !Ascii(recordType) || !Ascii(version) then Err(DomainNotAscii)
    else if recordType == [] || version == [] then Err(DomainEmpty)
    else if 0 in recordType || 0 in version then Err(DomainHasNul)
    else
      match CanonicalBytes(nfc, payload)
      case Err(e) => Err(Payload(e))
      case Ok(data) => Ok(PREFIX + AsciiBytes(recordType) + [0] + AsciiBytes(version) + [0] + data)
  }

  function AsciiBytes(s: Text): (r: Bytes)
    requires Ascii(s)
    ensures |r| == |s| && forall i :: 0 <= i < |s| ==> r[i] == s[i]
  {
    seq(|s|, i requires 0 <= i < |s| => s[i] as int)
  }

  /** The hashed bytes: the letters acg, the type, the version, each with a NUL behind it, and the
      canonical bytes; refused just for an empty domain part, one that is not ASCII or holds a NUL,
      and a payload that has no canonical form. */
  lemma {:induction false} PreimageLayout(nfc: Text -> Text, recordType: Text, version: Text, payload: Json)
    ensures var r := Preimage(nfc, recordType, version, payload); var m, n := |recordType|, |version|;
      && (r.Ok? <==> DomainPart(recordType) && DomainPart(version) && CanonicalBytes(nfc, payload).Ok?)
      && (r.Ok? ==>
            var data := r.value;
            && |data| >= m + n + 6
            && data[0] == 'a' as int && data[1] == 'c' as int && data[2] == 'g' as int && data[3] == 0
            && (forall i :: 0 <= i < m ==> data[4 + i] == recordType[i]) && data[4 + m] == 0
            && (forall i :: 0 <= i < n ==> data[5 + m + i] == version[i]) && data[5 + m + n] == 0
            && CanonicalBytes(nfc, payload) == Ok(data[6 + m + n..]))
  {
    hide CanonicalBytes;
  }

  /** Nonempty printable or control ASCII without NUL. */
  predicate DomainPart(s: Text) {
    s != [] && forall i :: 0 <= i < |s| ==> 0 < s[i] < 0x80
  }

  function NulIndex(s: Bytes): nat {
    if s == [] || s[0] == 0 then 0 else 1 + NulIndex(s[1..])
  }

  lemma {:induction false} NulIndexAfter(a: Bytes, b: Bytes)
    requires 0 !in a
    ensures NulIndex(a + [0] + b) == |a|
  {
    if a != [] {
      assert (a + [0] + b)[1..] == a[1..] + [0] + b;
      NulIndexAfter(a[1..], b);
    }
  }

  /** A separator that does not occur in the first parts can be found again. */
  lemma {:induction false} SplitAtNul(a: Bytes, b: Bytes, c: Bytes, d: Bytes)
    requires 0 !in a && 0 !in c && a + [0] + b == c + [0] + d
    ensures a == c && b == d
  {
    var s, t := a + [0] + b, c + [0] + d;
    NulIndexAfter(a, b);
    NulIndexAfter(c, d);
    assert s[..|a|] == a && t[..|a|] == c;
    assert s[|a| + 1..] == b && t[|a| + 1..] == d;
  }

  lemma {:induction false} BehindPrefix(t: Bytes, v: Bytes, data: Bytes)
    ensures (PREFIX + t + [0] + v + [0] + data)[4..] == t + [0] + (v + [0] + data)
  {
  }

  lemma {:induction false} AsciiInjective(s: Text, t: Text)
    requires Ascii(s) && Ascii(t) && AsciiBytes(s) == AsciiBytes(t)
    ensures s == t
  {
    forall i | 0 <= i < |s| ensures s[i] == t[i] {
      assert AsciiBytes(s)[i] == s[i] && AsciiBytes(t)[i] == t[i];
    }
  }

  /** Two identities hash the same bytes only for the same type, version and normalised payload. */
  lemma {:induction false} PreimageInjective(nfc: Text -> Text, type1: Text, version1: Text, payload1: Json,
                                             type2: Text, version2: Text, payload2: Json)
    requires NfcLaws(nfc)
    requires Preimage(nfc, type1, version1, payload1).Ok? && Preimage(nfc, type2, version2, payload2).Ok?
    ensures Preimage(nfc, type1, version1, payload1) == Preimage(nfc, type2, version2, payload2) <==>
      type1 == type2 && version1 == version2 && Canon(nfc, payload1) == Canon(nfc, payload2)
  {
    hide CanonicalBytes, Canon, NulIndex, Ascii;
    var data1, data2 := CanonicalBytes(nfc, payload1).value, CanonicalBytes(nfc, payload2).value;
    BytesInjective(nfc, payload1, payload2);
    var t1, t2, v1, v2 := AsciiBytes(type1), AsciiBytes(type2), AsciiBytes(version1), AsciiBytes(version2);
    if Preimage(nfc, type1, version1, payload1) == Preimage(nfc, type2, version2, payload2) {
      BehindPrefix(t1, v1, data1);
      BehindPrefix(t2, v2, data2);
      SplitAtNul(t1, v1 + [0] + data1, t2, v2 + [0] + data2);
      SplitAtNul(v1, data1, v2, data2);
      AsciiInjective(type1, type2);
      AsciiInjective(version1, version2);
    }
  }
}
