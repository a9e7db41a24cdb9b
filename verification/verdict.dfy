/** Findings and the verdict over them (kernel/findings.py, kernel/evaluation.py). */
module Verdicts {
  import opened Orders
  import opened Utf8
  import opened Canonical
  import opened RoundTrip
  import opened RecordFields
  import Evidence
  import Invalidations = Invalidation
  import FixedPoint
  import Decision
  import Doubts
  import Engine

  datatype Verdict = Pass | Warn | Unknown | Block
  datatype Profile = Observe | Guard | Strict

  /** `VERDICT_RANK`. */
  function VerdictRank(v: Verdict): int {
    match v case Pass => 0 case Warn => 1 case Unknown => 2 case Block => 3
  }

  /** Finding/v1. `parameters` is what its canonical bytes load to. */
  datatype Finding = Finding(
    code: Text, verdict: Verdict, subjectId: Text, messageId: Text, parameters: Json, integrityFailure: bool)

  /** How findings are printed: NFC and the texts of field names, verdicts, identifiers and codes. */
  datatype Printing = Printing(
    nfc: Text -> Text, key: Naming, verdictText: Verdict -> Text, idText: int -> Text, codeText: Evidence.Code -> Text,
    messageText: Evidence.Code -> Text)

  ghost predicate PrintingLaws(k: Printing) {
    && NfcLaws(k.nfc) && KeepsPlain(k.nfc) && FieldNames(k.key)
    && (forall v :: Plain(k.verdictText(v)))
    && (forall v, w :: k.verdictText(v) == k.verdictText(w) ==> v == w)
    && (forall id :: Plain(k.idText(id)))
    && (forall c :: Plain(k.codeText(c)) && Plain(k.messageText(c)))
  }

  /** What the Finding constructor guarantees: identifiers are printable ASCII and the parameters
      a normal object. */
  ghost predicate FindingOk(k: Printing, x: Finding) {
    Plain(x.code) && Plain(x.subjectId) && Plain(x.messageId) && x.parameters.Obj? && Normal(k.nfc, x.parameters)
  }

  const FINDING_FIELDS: set<Field> := {
    CodeKey, IntegrityFailureKey, MessageIdKey, ParametersKey, SubjectIdKey, VerdictKey}

  function FindingField(k: Printing, x: Finding, f: Field): Json {
    match f
    case CodeKey => Str(x.code)
    case IntegrityFailureKey => Boolean(x.integrityFailure)
    case MessageIdKey => Str(x.messageId)
    case ParametersKey => x.parameters
    case SubjectIdKey => Str(x.subjectId)
    case VerdictKey => Str(k.verdictText(x.verdict))
    case _ => Null
  }

  /** `finding_payload`. */
  function FindingPayload(k: Printing, x: Finding): Json {
    Record(k.key, FINDING_FIELDS, f => FindingField(k, x, f))
  }

  /** The sort key: the rank of the verdict, then the canonical bytes. */
  function SortKey(k: Printing, x: Finding): seq<int> {
    [VerdictRank(x.verdict)] +
    match CanonicalBytes(k.nfc, FindingPayload(k, x))
    case Ok(data) => data
    case Err(_) => []
  }

  function InsertFinding(k: Printing, x: Finding, xs: seq<Finding>): seq<Finding> {
    if xs == [] || LexLe(SortKey(k, x), SortKey(k, xs[0])) then [x] + xs
    else [xs[0]] + InsertFinding(k, x, xs[1..])
  }

  function SortFindings(k: Printing, xs: seq<Finding>): seq<Finding> {
    if xs == [] then [] else InsertFinding(k, xs[0], SortFindings(k, xs[1..]))
  }

  lemma {:induction false} InsertKeepsAll(k: Printing, x: Finding, xs: seq<Finding>)
    ensures multiset(InsertFinding(k, x, xs)) == multiset{x} + multiset(xs)
  {
    hide SortKey, LexLe;
    if xs != [] {
      InsertKeepsAll(k, x, xs[1..]);
      assert xs == [xs[0]] + xs[1..];
    }
  }

  lemma {:induction false} SortKeepsAll(k: Printing, xs: seq<Finding>)
    ensures multiset(SortFindings(k, xs)) == multiset(xs)
  {
    hide InsertFinding;
    if xs != [] {
      SortKeepsAll(k, xs[1..]);
      InsertKeepsAll(k, xs[0], SortFindings(k, xs[1..]));
      assert xs == [xs[0]] + xs[1..];
    }
  }

  /** The verdict `max` picks, or Pass for no findings. */
  function Highest(xs: seq<Finding>): (v: Verdict)
    ensures forall x :: x in xs ==> VerdictRank(x.verdict) <= VerdictRank(v)
    ensures xs == [] ==> v == Pass
    ensures xs != [] ==> exists x :: x in xs && x.verdict == v
  {
    if xs == [] then Pass
    else
      var n := |xs| - 1;
      var before := Highest(xs[..n]);
      assert xs == xs[..n] + [xs[n]];
      assert xs[n] in xs;
      if n == 0 || VerdictRank(xs[n].verdict) > VerdictRank(before) then xs[n].verdict else before
  }

  datatype EvaluationResult = EvaluationResult(verdict: Verdict, transitionAllowed: bool, findings: seq<Finding>)

  predicate Allowed(profile: Profile, verdict: Verdict, findings: seq<Finding>) {
    if exists i :: 0 <= i < |findings| && findings[i].integrityFailure then false
    else match profile
      case Observe => true
      case Guard => verdict == Pass || verdict == Warn
      case Strict => verdict == Pass
  }

  function EvaluationOf(k: Printing, profile: Profile, supplied: seq<Finding>): EvaluationResult {
    var findings := SortFindings(k, supplied);
    EvaluationResult(Highest(findings), Allowed(profile, Highest(findings), findings), findings)
  }

  // ----- findings of invalidations -----

  const CAUSE_FIELDS: set<Field> := {DirectCauseIdsKey, TransitivePathKey}

  function Ids(k: Printing, ids: seq<int>): Json {
    Arr(seq(|ids|, i requires 0 <= i < |ids| => Str(k.idText(ids[i]))))
  }

  function CauseField(k: Printing, v: Evidence.Invalidation, f: Field): Json {
    match f
    case DirectCauseIdsKey => Ids(k, v.directCauseIds)
    case TransitivePathKey => Ids(k, v.transitivePath)
    case _ => Null
  }

  function FindingOf(k: Printing, v: Evidence.Invalidation): Finding {
    Finding(k.codeText(v.code), if v.state == Evidence.Invalidated then Block else Unknown, k.idText(v.evidenceId),
            k.messageText(v.code), Record(k.key, CAUSE_FIELDS, f => CauseField(k, v, f)), false)
  }

  /** `findings_from_invalidations`: one finding for each outcome that is not current. */
  function FindingsFrom(k: Printing, vs: seq<Evidence.Invalidation>): seq<Finding> {
    if vs == [] then []
    else
      var v := vs[|vs| - 1];
      FindingsFrom(k, vs[..|vs| - 1]) + if v.state == Evidence.Current then [] else [FindingOf(k, v)]
  }

  method FindingsFromInvalidations(k: Printing, vs: seq<Evidence.Invalidation>) returns (findings: seq<Finding>)
    ensures findings == FindingsFrom(k, vs)
  {
    hide FindingOf;
    findings := [];
    var i := 0;
    NoFindings(k, vs);
    while i < |vs|
      invariant 0 <= i <= |vs| && findings == FindingsFrom(k, vs[..i])
    {
      MoreFindings(k, vs, i);
      if vs[i].state != Evidence.Current { findings := findings + [FindingOf(k, vs[i])]; }
      i := i + 1;
    }
    assert vs[..i] == vs;
  }

  lemma {:induction false} NoFindings(k: Printing, vs: seq<Evidence.Invalidation>)
    ensures FindingsFrom(k, vs[..0]) == []
  {
  }

  lemma {:induction false} MoreFindings(k: Printing, vs: seq<Evidence.Invalidation>, i: nat)
    requires i < |vs|
    ensures FindingsFrom(k, vs[..i + 1]) ==
      FindingsFrom(k, vs[..i]) + if vs[i].state == Evidence.Current then [] else [FindingOf(k, vs[i])]
  {
    hide FindingOf;
    assert vs[..i + 1][..i] == vs[..i];
  }

  // ----- evaluation -----

  datatype EvidenceInput = EvidenceInput(records: Invalidations.Records, context: Evidence.Context)

  /** What an evaluation finds: the findings handed in, then one for each record that the
      propagation does not leave current. */
  ghost function Evaluated(k: Printing, profile: Profile, findings: seq<Finding>, evidence: Option<EvidenceInput>)
    : Result<EvaluationResult, Engine.GraphError>
  {
    match evidence
    case None => Ok(EvaluationOf(k, profile, findings))
    case Some(input) =>
      if !Engine.ConsistentIdentities(input.records) then Err(Engine.InconsistentIdentity)
      else
        var outcomes := Engine.Listing(FixedPoint.Final(input.records, Engine.Base(input.records, input.context)));
        Ok(EvaluationOf(k, profile, findings + FindingsFrom(k, outcomes)))
  }

  /** `evaluate`. */
  method Evaluate(k: Printing, profile: Profile, findings: seq<Finding>, evidence: Option<EvidenceInput>)
    returns (result: Result<EvaluationResult, Engine.GraphError>)
    ensures result == Evaluated(k, profile, findings, evidence)
  {
    hide FindingsFrom, SortFindings, Engine.Listing, FixedPoint.Final, Engine.Base;
    var supplied := findings;
    if evidence.Some? {
      var outcomes := Engine.EvaluateInvalidations(evidence.value.records, evidence.value.context);
      if outcomes.Err? { assert outcomes.error.InconsistentIdentity?; return Err(outcomes.error); }
      var more := FindingsFromInvalidations(k, outcomes.value);
      supplied := supplied + more;
    }
    var sorted := SortFindings(k, supplied);
    var verdict := Highest(sorted);
    var allowed;
    if exists i :: 0 <= i < |sorted| && sorted[i].integrityFailure {
      allowed := false;
    } else if profile == Observe {
      allowed := true;
    } else if profile == Guard {
      allowed := verdict in {Pass, Warn};
    } else {
      allowed := verdict == Pass;
    }
    result := Ok(EvaluationResult(verdict, allowed, sorted));
  }

  // ----- the sort key identifies a finding -----

  lemma {:induction false} ReadField(k: Printing, x: Finding, f: Field)
    requires FieldNames(k.key) && f in FINDING_FIELDS
    ensures Get(k.key, FindingPayload(k, x).members, f) == Some(FindingField(k, x, f))
  {
    hide Record, Get, FieldNames, FindingField;
    GetField(k.key, FINDING_FIELDS, f => FindingField(k, x, f), f);
  }

  lemma {:induction false} PlainNormal(k: Printing, s: Text)
    requires PrintingLaws(k) && Plain(s)
    ensures Normal(k.nfc, Str(s))
  {
    hide FieldNames, NfcLaws;
    PlainString(k.nfc, s);
  }

  lemma {:induction false} FindingNormal(k: Printing, x: Finding)
    requires PrintingLaws(k) && FindingOk(k, x)
    ensures Normal(k.nfc, FindingPayload(k, x))
    ensures CanonicalBytes(k.nfc, FindingPayload(k, x)).Ok?
    ensures Canon(k.nfc, FindingPayload(k, x)) == Ok(FindingPayload(k, x))
  {
    hide Record, FieldNames, KeepsPlain, NfcLaws, Plain, CanonicalBytes, Canon;
    forall f | f in FINDING_FIELDS ensures Normal(k.nfc, FindingField(k, x, f)) {
      PlainNormal(k, x.code);
      PlainNormal(k, x.messageId);
      PlainNormal(k, x.subjectId);
      PlainNormal(k, k.verdictText(x.verdict));
    }
    RecordNormal(k.nfc, k.key, FINDING_FIELDS, f => FindingField(k, x, f));
    NormalFixed(k.nfc, FindingPayload(k, x));
  }

  lemma {:induction false} SamePayload(k: Printing, x: Finding, y: Finding)
    requires PrintingLaws(k) && FindingPayload(k, x) == FindingPayload(k, y)
    ensures x == y
  {
    hide Get, FindingPayload, Plain, FieldNames, KeepsPlain, NfcLaws;
    ReadField(k, x, CodeKey);
    ReadField(k, x, IntegrityFailureKey);
    ReadField(k, x, MessageIdKey);
    ReadField(k, x, ParametersKey);
    ReadField(k, x, SubjectIdKey);
    ReadField(k, x, VerdictKey);
    ReadField(k, y, CodeKey);
    ReadField(k, y, IntegrityFailureKey);
    ReadField(k, y, MessageIdKey);
    ReadField(k, y, ParametersKey);
    ReadField(k, y, SubjectIdKey);
    ReadField(k, y, VerdictKey);
  }

  lemma {:induction false} SortKeyInjective(k: Printing, x: Finding, y: Finding)
    requires PrintingLaws(k) && FindingOk(k, x) && FindingOk(k, y) && SortKey(k, x) == SortKey(k, y)
    ensures x == y
  {
    hide FindingPayload, FindingOk, CanonicalBytes, Canon, Normal, NfcLaws, FieldNames, KeepsPlain, Plain;
    FindingNormal(k, x);
    FindingNormal(k, y);
    assert SortKey(k, x)[1..] == CanonicalBytes(k.nfc, FindingPayload(k, x)).value;
    assert SortKey(k, y)[1..] == CanonicalBytes(k.nfc, FindingPayload(k, y)).value;
    BytesInjective(k.nfc, FindingPayload(k, x), FindingPayload(k, y));
    SamePayload(k, x, y);
  }

  /** Findings made of invalidations are such findings. */
  lemma {:induction false} FindingOfOk(k: Printing, v: Evidence.Invalidation)
    requires PrintingLaws(k)
    ensures FindingOk(k, FindingOf(k, v))
  {
    hide Record, FieldNames, NfcLaws, KeepsPlain, Plain, Normal;
    IdsNormal(k, v.directCauseIds);
    IdsNormal(k, v.transitivePath);
    RecordNormal(k.nfc, k.key, CAUSE_FIELDS, f => CauseField(k, v, f));
  }

  lemma {:induction false} IdsNormal(k: Printing, ids: seq<int>)
    requires PrintingLaws(k)
    ensures Normal(k.nfc, Ids(k, ids))
  {
    hide PrintingLaws, Plain;
    forall i | 0 <= i < |ids| ensures Normal(k.nfc, Str(k.idText(ids[i]))) {
      IdPlain(k, ids[i]);
      PlainNormal(k, k.idText(ids[i]));
    }
  }

  lemma {:induction false} IdPlain(k: Printing, id: int)
    requires PrintingLaws(k)
    ensures Plain(k.idText(id))
  {
    hide FieldNames, NfcLaws, KeepsPlain;
  }

  // ----- order independence -----

  ghost predicate KeySorted(k: Printing, xs: seq<Finding>) {
    forall i, j :: 0 <= i < j < |xs| ==> LexLe(SortKey(k, xs[i]), SortKey(k, xs[j]))
  }

  lemma {:induction false} InsertKeepsSorted(k: Printing, x: Finding, xs: seq<Finding>)
    requires KeySorted(k, xs)
    ensures KeySorted(k, InsertFinding(k, x, xs))
  {
    hide SortKey, LexLe;
    var r := InsertFinding(k, x, xs);
    if xs == [] {
    } else if LexLe(SortKey(k, x), SortKey(k, xs[0])) {
      forall i, j | 0 <= i < j < |r| ensures LexLe(SortKey(k, r[i]), SortKey(k, r[j])) {
        if i == 0 && j > 1 { LexTransitive(SortKey(k, x), SortKey(k, xs[0]), SortKey(k, xs[j - 1])); }
      }
    } else {
      LexTotal(SortKey(k, x), SortKey(k, xs[0]));
      InsertKeepsSorted(k, x, xs[1..]);
      InsertKeepsAll(k, x, xs[1..]);
      var t := InsertFinding(k, x, xs[1..]);
      forall j | 0 <= j < |t| ensures LexLe(SortKey(k, xs[0]), SortKey(k, t[j])) {
        assert t[j] in multiset(t);
        assert t[j] == x || t[j] in multiset(xs[1..]);
      }
    }
  }

  lemma {:induction false} SortedFindings(k: Printing, xs: seq<Finding>)
    ensures KeySorted(k, SortFindings(k, xs))
  {
    hide KeySorted, InsertFinding;
    if xs == [] {
      NothingSorted(k);
    } else {
      SortedFindings(k, xs[1..]);
      InsertKeepsSorted(k, xs[0], SortFindings(k, xs[1..]));
    }
  }

  lemma {:induction false} NothingSorted(k: Printing)
    ensures KeySorted(k, [])
  {
  }

  lemma {:induction false} LeastFirst(k: Printing, xs: seq<Finding>, y: Finding)
    requires KeySorted(k, xs) && y in multiset(xs)
    ensures LexLe(SortKey(k, xs[0]), SortKey(k, y))
  {
    hide SortKey, LexLe;
    var i :| 0 <= i < |xs| && xs[i] == y;
    LexRefl(SortKey(k, y));
  }

  lemma {:induction false} TailOf(xs: seq<Finding>)
    requires xs != []
    ensures multiset(xs[1..]) == multiset(xs) - multiset{xs[0]}
    ensures forall x :: x in xs[1..] ==> x in xs
  {
    assert xs == [xs[0]] + xs[1..];
  }

  lemma {:induction false} SortedTail(k: Printing, xs: seq<Finding>)
    requires KeySorted(k, xs) && xs != []
    ensures KeySorted(k, xs[1..])
  {
    hide SortKey, LexLe;
  }

  lemma {:induction false} SortedUnique(k: Printing, a: seq<Finding>, b: seq<Finding>)
    requires PrintingLaws(k) && (forall x :: x in a ==> FindingOk(k, x))
    requires KeySorted(k, a) && KeySorted(k, b) && multiset(a) == multiset(b)
    ensures a == b
  {
    hide SortKey, PrintingLaws, FindingOk, LexLe, KeySorted;
    assert |a| == |multiset(a)| == |multiset(b)| == |b|;
    if a != [] {
      assert a[0] in multiset(a) && b[0] in multiset(b);
      LeastFirst(k, a, b[0]);
      LeastFirst(k, b, a[0]);
      LexAntisymmetric(SortKey(k, a[0]), SortKey(k, b[0]));
      assert b[0] in multiset(a);
      SortKeyInjective(k, a[0], b[0]);
      TailOf(a);
      TailOf(b);
      SortedTail(k, a);
      SortedTail(k, b);
      SortedUnique(k, a[1..], b[1..]);
      assert a == [a[0]] + a[1..] && b == [b[0]] + b[1..];
    }
  }

  /** The result does not depend on the order of the findings. */
  lemma {:induction false} OrderIndependent(k: Printing, profile: Profile, a: seq<Finding>, b: seq<Finding>)
    requires PrintingLaws(k) && (forall x :: x in a ==> FindingOk(k, x))
    requires multiset(a) == multiset(b)
    ensures EvaluationOf(k, profile, a) == EvaluationOf(k, profile, b)
  {
    hide PrintingLaws, FindingOk, KeySorted, SortFindings;
    SortedFindings(k, a);
    SortedFindings(k, b);
    SortKeepsAll(k, a);
    SortKeepsAll(k, b);
    forall x | x in SortFindings(k, a) ensures FindingOk(k, x) {
      assert x in multiset(SortFindings(k, a));
      assert x in multiset(a);
    }
    SortedUnique(k, SortFindings(k, a), SortFindings(k, b));
  }

  lemma {:induction false} FindingsFromOk(k: Printing, vs: seq<Evidence.Invalidation>)
    requires PrintingLaws(k)
    ensures forall x :: x in FindingsFrom(k, vs) ==> FindingOk(k, x)
  {
    hide PrintingLaws, FindingOk, FindingOf;
    if vs != [] {
      FindingsFromOk(k, vs[..|vs| - 1]);
      FindingOfOk(k, vs[|vs| - 1]);
    }
  }

  /** Evaluating with evidence gives the same result, or the same error, for every order of the
      findings handed in. */
  lemma {:induction false} EvaluationOrderIndependent(k: Printing, profile: Profile, a: seq<Finding>, b: seq<Finding>,
        evidence: Option<EvidenceInput>)
    requires PrintingLaws(k) && (forall x :: x in a ==> FindingOk(k, x))
    requires multiset(a) == multiset(b)
    ensures Evaluated(k, profile, a, evidence) == Evaluated(k, profile, b, evidence)
  {
    hide PrintingLaws, FindingOk, FindingsFrom, EvaluationOf, Engine.Listing, FixedPoint.Final, Engine.Base;
    match evidence {
      case None => OrderIndependent(k, profile, a, b);
      case Some(input) =>
        var outcomes := Engine.Listing(FixedPoint.Final(input.records, Engine.Base(input.records, input.context)));
        var more := FindingsFrom(k, outcomes);
        FindingsFromOk(k, outcomes);
        assert multiset(a + more) == multiset(b + more);
        OrderIndependent(k, profile, a + more, b + more);
    }
  }

  // ----- what is allowed -----

  /** The verdict is the highest among the findings, whatever their order. */
  lemma {:induction false} VerdictIsHighest(k: Printing, profile: Profile, xs: seq<Finding>)
    ensures var v := EvaluationOf(k, profile, xs).verdict;
      && (forall x :: x in xs ==> VerdictRank(x.verdict) <= VerdictRank(v))
      && (v == Pass || exists x :: x in xs && x.verdict == v)
  {
    hide SortFindings;
    SortKeepsAll(k, xs);
    var sorted := SortFindings(k, xs);
    forall x ensures x in xs <==> x in sorted {
      assert x in xs <==> x in multiset(xs);
      assert x in sorted <==> x in multiset(sorted);
    }
  }

  /** The findings come out by rising severity, and of one severity by their canonical bytes. */
  ghost predicate BySeverity(k: Printing, xs: seq<Finding>) {
    forall i, j :: 0 <= i < j < |xs| ==>
      var v, w := xs[i].verdict, xs[j].verdict;
      && (v == w ==> LexLe(BytesOf(k, xs[i]), BytesOf(k, xs[j])))
      && (v == w || v == Pass || w == Block || (v == Warn && w == Unknown))
  }

  function BytesOf(k: Printing, x: Finding): seq<int> {
    match CanonicalBytes(k.nfc, FindingPayload(k, x)) case Ok(data) => data case Err(_) => []
  }

  lemma {:induction false} KeysBySeverity(k: Printing, x: Finding, y: Finding)
    requires LexLe(SortKey(k, x), SortKey(k, y))
    ensures x.verdict == y.verdict ==> LexLe(BytesOf(k, x), BytesOf(k, y))
    ensures x.verdict == y.verdict || x.verdict == Pass || y.verdict == Block || (x.verdict == Warn && y.verdict == Unknown)
  {
    hide FindingPayload, CanonicalBytes;
    assert SortKey(k, x)[1..] == BytesOf(k, x) && SortKey(k, y)[1..] == BytesOf(k, y);
  }

  /** Block outweighs Unknown, Unknown outweighs Warn, and Warn outweighs Pass. The transition is
      allowed when no finding is an integrity failure and, for guard, none is Unknown or Block, for
      strict, none is other than Pass. Every finding is kept. */
  lemma {:induction false} VerdictMeaning(k: Printing, profile: Profile, xs: seq<Finding>)
    ensures var r := EvaluationOf(k, profile, xs);
      && (r.verdict == Block <==> exists x :: x in xs && x.verdict == Block)
      && (r.verdict == Unknown <==>
            (exists x :: x in xs && x.verdict == Unknown) && forall x :: x in xs ==> x.verdict != Block)
      && (r.verdict == Warn <==>
            (exists x :: x in xs && x.verdict == Warn) && forall x :: x in xs ==> x.verdict == Warn || x.verdict == Pass)
      && (r.transitionAllowed <==>
            && (forall x :: x in xs ==> !x.integrityFailure)
            && (profile == Guard ==> forall x :: x in xs ==> x.verdict != Unknown && x.verdict != Block)
            && (profile == Strict ==> forall x :: x in xs ==> x.verdict == Pass))
      && multiset(r.findings) == multiset(xs) && BySeverity(k, r.findings)
  {
    hide SortFindings, BySeverity;
    VerdictIsHighest(k, profile, xs);
    SortKeepsAll(k, xs);
    var sorted := SortFindings(k, xs);
    forall x ensures x in xs <==> x in sorted {
      assert x in xs <==> x in multiset(xs);
      assert x in sorted <==> x in multiset(sorted);
    }
    SortedBySeverity(k, xs);
    AllowedMeans(profile, Highest(sorted), sorted);
  }

  lemma {:induction false} AllowedMeans(profile: Profile, verdict: Verdict, xs: seq<Finding>)
    requires forall x :: x in xs ==> VerdictRank(x.verdict) <= VerdictRank(verdict)
    requires verdict == Pass || exists x :: x in xs && x.verdict == verdict
    ensures Allowed(profile, verdict, xs) <==>
      && (forall x :: x in xs ==> !x.integrityFailure)
      && (profile == Guard ==> forall x :: x in xs ==> x.verdict != Unknown && x.verdict != Block)
      && (profile == Strict ==> forall x :: x in xs ==> x.verdict == Pass)
  {
    assert (exists i :: 0 <= i < |xs| && xs[i].integrityFailure) <==> exists x :: x in xs && x.integrityFailure;
  }

  lemma {:induction false} SortedBySeverity(k: Printing, xs: seq<Finding>)
    ensures BySeverity(k, SortFindings(k, xs))
  {
    hide SortFindings, SortKey, LexLe, BytesOf;
    var sorted := SortFindings(k, xs);
    SortedFindings(k, xs);
    forall i, j | 0 <= i < j < |sorted|
      ensures var v, w := sorted[i].verdict, sorted[j].verdict;
        && (v == w ==> LexLe(BytesOf(k, sorted[i]), BytesOf(k, sorted[j])))
        && (v == w || v == Pass || w == Block || (v == Warn && w == Unknown))
    {
      KeysBySeverity(k, sorted[i], sorted[j]);
    }
  }

  /** What the finding of an outcome tells: who it is about, why, by which causes and along which
      path, and that it blocks just when the record is invalidated. */
  lemma {:induction false} FindingTells(k: Printing, v: Evidence.Invalidation)
    requires PrintingLaws(k) && v.state != Evidence.Current
    ensures var x := FindingOf(k, v);
      && x.subjectId == k.idText(v.evidenceId) && x.code == k.codeText(v.code) && x.messageId == k.messageText(v.code)
      && !x.integrityFailure
      && (v.state == Evidence.Invalidated <==> x.verdict == Block) && (v.state == Evidence.Unknown <==> x.verdict == Unknown)
      && Get(k.key, x.parameters.members, DirectCauseIdsKey) == Some(Ids(k, v.directCauseIds))
      && Get(k.key, x.parameters.members, TransitivePathKey) == Some(Ids(k, v.transitivePath))
  {
    hide Get, FieldNames, NfcLaws, KeepsPlain, Plain, Record, Ids;
    GetField(k.key, CAUSE_FIELDS, f => CauseField(k, v, f), DirectCauseIdsKey);
    GetField(k.key, CAUSE_FIELDS, f => CauseField(k, v, f), TransitivePathKey);
  }

  lemma {:induction false} FindingDoubts(k: Printing, v: Evidence.Invalidation)
    ensures !FindingOf(k, v).integrityFailure && VerdictRank(FindingOf(k, v).verdict) >= 2
  {
    hide Record;
  }

  lemma {:induction false} FindingsOnlyDoubt(k: Printing, vs: seq<Evidence.Invalidation>)
    ensures FindingsFrom(k, vs) == [] <==> forall i :: 0 <= i < |vs| ==> vs[i].state == Evidence.Current
    ensures forall i :: 0 <= i < |FindingsFrom(k, vs)| ==>
      !FindingsFrom(k, vs)[i].integrityFailure && VerdictRank(FindingsFrom(k, vs)[i].verdict) >= 2
  {
    hide FindingOf, VerdictRank;
    if vs != [] {
      var n := |vs| - 1;
      FindingsOnlyDoubt(k, vs[..n]);
      FindingDoubts(k, vs[n]);
      assert vs == vs[..n] + [vs[n]];
    }
  }

  lemma {:induction false} ListingStates(values: Invalidations.Outcomes)
    ensures (forall i :: 0 <= i < |Engine.Listing(values)| ==> Engine.Listing(values)[i].state == Evidence.Current)
      <==> forall u :: u in values ==> values[u].state == Evidence.Current
  {
    var order := SortSet(values.Keys);
    var vs := Engine.Listing(values);
    assert forall i :: 0 <= i < |order| ==> order[i] in order && vs[i] == values[order[i]];
    if forall i :: 0 <= i < |vs| ==> vs[i].state == Evidence.Current {
      forall u | u in values ensures values[u].state == Evidence.Current {
        assert u in order;
        var i :| 0 <= i < |order| && order[i] == u;
        assert vs[i].state == Evidence.Current;
      }
    }
  }

  /** With evidence and no other findings, guard and strict allow the transition exactly when
      every record's propagated state is current; observe always does. */
  lemma {:induction false} AllowedWhenCurrent(k: Printing, profile: Profile, values: Invalidations.Outcomes)
    ensures EvaluationOf(k, profile, FindingsFrom(k, Engine.Listing(values))).transitionAllowed <==>
      profile == Observe || forall u :: u in values ==> values[u].state == Evidence.Current
  {
    hide SortFindings, Engine.Listing, FindingsFrom;
    var xs := FindingsFrom(k, Engine.Listing(values));
    SortKeepsAll(k, xs);
    var sorted := SortFindings(k, xs);
    FindingsOnlyDoubt(k, Engine.Listing(values));
    ListingStates(values);
    forall i | 0 <= i < |sorted| ensures !sorted[i].integrityFailure && VerdictRank(sorted[i].verdict) >= 2 {
      assert sorted[i] in multiset(sorted);
      assert sorted[i] in multiset(xs);
    }
    assert |sorted| == |multiset(sorted)| == |multiset(xs)| == |xs|;
    if sorted != [] {
      assert sorted[0] in sorted;
    }
  }

  lemma {:induction false} BlocksWhenInvalidated(k: Printing, vs: seq<Evidence.Invalidation>)
    ensures forall x :: x in FindingsFrom(k, vs) ==> x.verdict == Block || x.verdict == Unknown
    ensures (exists x :: x in FindingsFrom(k, vs) && x.verdict == Block) <==>
      exists v :: v in vs && v.state == Evidence.Invalidated
  {
    hide Record;
    if vs != [] {
      var n := |vs| - 1;
      BlocksWhenInvalidated(k, vs[..n]);
      assert vs == vs[..n] + [vs[n]];
      if vs[n].state == Evidence.Invalidated {
        assert FindingOf(k, vs[n]) in FindingsFrom(k, vs) && FindingOf(k, vs[n]).verdict == Block;
        assert vs[n] in vs;
      }
    }
  }

  lemma {:induction false} ListingMembers(values: Invalidations.Outcomes, v: Evidence.Invalidation)
    ensures v in Engine.Listing(values) <==> exists u :: u in values && values[u] == v
  {
    hide SortSet;
    var order := SortSet(values.Keys);
    var vs := Engine.Listing(values);
    assert forall i :: 0 <= i < |order| ==> order[i] in order && vs[i] == values[order[i]];
    if u :| u in values && values[u] == v {
      assert u in order;
      var i :| 0 <= i < |order| && order[i] == u;
      assert vs[i] == v;
    }
  }

  /** With evidence and no other findings the verdict is Block when some record is invalidated,
      otherwise Unknown when some record is not current, and otherwise Pass. */
  lemma {:induction false} VerdictOfOutcomes(k: Printing, profile: Profile, values: Invalidations.Outcomes)
    ensures EvaluationOf(k, profile, FindingsFrom(k, Engine.Listing(values))).verdict ==
      if exists u :: u in values && values[u].state == Evidence.Invalidated then Block
      else if exists u :: u in values && values[u].state != Evidence.Current then Unknown
      else Pass
  {
    hide EvaluationOf, Engine.Listing, FindingsFrom;
    var vs := Engine.Listing(values);
    var xs := FindingsFrom(k, vs);
    VerdictIsHighest(k, profile, xs);
    FindingsOnlyDoubt(k, vs);
    BlocksWhenInvalidated(k, vs);
    ListingStates(values);
    if u :| u in values && values[u].state == Evidence.Invalidated {
      ListingMembers(values, values[u]);
    }
    if v :| v in vs && v.state == Evidence.Invalidated {
      ListingMembers(values, v);
    }
    if xs != [] {
      assert xs[0] in xs;
    }
  }

  /** A dependency path through records off every cycle leads to a directly invalidated record. */
  ghost predicate SomeInvalidated(input: EvidenceInput) {
    var base := Engine.Base(input.records, input.context);
    exists u :: u in input.records && u !in Invalidations.Cyclic(input.records) && Decision.Reachable(input.records, base, u)
  }

  /** Some record is on a cycle, or such a path leads from it to a source of doubt. */
  ghost predicate SomeUndecided(input: EvidenceInput) {
    var base := Engine.Base(input.records, input.context);
    exists u :: u in input.records && (u in Invalidations.Cyclic(input.records) || Doubts.InDoubt(input.records, base, u))
  }

  /** From the evidence to the decision: with no other findings, the verdict is Block exactly when
      a dependency path through records off every cycle leads from some record to a directly
      invalidated one; otherwise Unknown exactly when some record is on a cycle or such a path
      leads from it to a source of doubt; otherwise Pass. Guard and strict allow the transition
      exactly in the last case, and observe always does. */
  lemma {:induction false} EvaluatedDecision(k: Printing, profile: Profile, input: EvidenceInput)
    requires Engine.ConsistentIdentities(input.records)
    ensures var result := Evaluated(k, profile, [], Some(input));
      && result.Ok?
      && result.value.verdict ==
           (if SomeInvalidated(input) then Block else if SomeUndecided(input) then Unknown else Pass)
      && (result.value.transitionAllowed <==> profile == Observe || result.value.verdict == Pass)
  {
    hide FindingsFrom, EvaluationOf, Engine.Listing, FixedPoint.Final, Engine.Base, Invalidations.Cyclic, Decision.Reachable,
      Doubts.InDoubt;
    var records := input.records;
    var base := Engine.Base(records, input.context);
    var values := FixedPoint.Final(records, base);
    assert [] + FindingsFrom(k, Engine.Listing(values)) == FindingsFrom(k, Engine.Listing(values));
    VerdictOfOutcomes(k, profile, values);
    AllowedWhenCurrent(k, profile, values);
    FinalKeys(records, base);
    forall u | u in records
      ensures values[u].state ==
        if u in Invalidations.Cyclic(records) then Evidence.Unknown
        else if Decision.Reachable(records, base, u) then Evidence.Invalidated
        else if Doubts.InDoubt(records, base, u) then Evidence.Unknown else Evidence.Current
    {
      Engine.EvaluatedState(records, input.context, u);
      CycleIsUnknown(records, u);
    }
  }

  lemma {:induction false} FinalKeys(records: Invalidations.Records, base: Invalidations.Outcomes)
    requires records.Keys == base.Keys
    ensures FixedPoint.Final(records, base).Keys == records.Keys
  {
  }

  lemma {:induction false} CycleIsUnknown(records: Invalidations.Records, u: int)
    requires u in records
    ensures Invalidations.CycleOutcome(records, u).state == Evidence.Unknown
  {
  }

  /** The laws of printing can be met. */
  lemma {:induction false} PrintingExists()
    ensures exists k: Printing :: PrintingLaws(k)
  {
    hide FieldNames;
    NamesExist();
    var key: Naming :| FieldNames(key);
    var k := Printing((s: Text) => s, key, (v: Verdict) => [VerdictLetter(v)], (id: int) => [65], (c: Evidence.Code) => [65],
                      (c: Evidence.Code) => [65]);
    assert PrintingLaws(k);
  }

  function VerdictLetter(v: Verdict): CodePoint {
    match v case Pass => 65 case Warn => 66 case Unknown => 67 case Block => 68
  }
}
