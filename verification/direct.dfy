/** What a record's own observations say, independently of how they are collected
    (kernel/invalidation.py, `_evaluate_direct`). */
module DirectLaws {
  import opened Orders
  import opened Evidence
  import LogicalTime

  // ----- when a required invalidator is violated or cannot be decided -----

  /** A stable observation of the cited bytes that differ from the recorded digest, or of a
      missing path. */
  ghost predicate CitationViolated(r: EvidenceRecord, subject: Id, c: Context) {
    && subject in c.citations && c.citations[subject].stable
    && var o := c.citations[subject];
    if !o.available then o.unknownCode == Some("citation.path_missing")
    else
      && o.unknownCode.None?
      && (if o.spanDigest.Some? then r.subjectDigest != o.spanDigest.value
          else o.fileDigest.Some? && r.subjectDigest != o.fileDigest.value)
  }

  ghost predicate CitationConfirmed(r: EvidenceRecord, subject: Id, c: Context) {
    && subject in c.citations && c.citations[subject].stable && c.citations[subject].available
    && var o := c.citations[subject];
    && o.unknownCode.None?
    && (if o.spanDigest.Some? then r.subjectDigest == o.spanDigest.value
        else o.fileDigest.Some? && r.subjectDigest == o.fileDigest.value)
  }

  ghost predicate Violated(r: EvidenceRecord, i: Invalidator, c: Context) {
    i.required &&
    match i.kind
    case CitationKind => CitationViolated(r, i.subjectId, c)
    case TargetKind => i.subjectId != c.targetId
    case CheckpointKind => i.subjectId != c.checkpointId
    case ProducerKind => i.subjectId !in c.producerIds
    case _ => false
  }

  ghost predicate Undecided(r: EvidenceRecord, i: Invalidator, c: Context) {
    i.required &&
    match i.kind
    case CitationKind => !CitationViolated(r, i.subjectId, c) && !CitationConfirmed(r, i.subjectId, c)
    case PolicyKind => true
    case _ => false
  }

  /** Expired, or recorded for another target, checkpoint or an unknown producer. */
  ghost predicate Misplaced(r: EvidenceRecord, c: Context) {
    || (r.expiresAt.Some? && LexLe(r.expiresAt.value, c.logicalTime))
    || r.targetId != c.targetId || r.checkpointId != c.checkpointId || r.producerId !in c.producerIds
  }

  /** Between accepted times the string comparison of expiry is a comparison of instants. */
  lemma {:induction false} ExpiryIsChronological(r: EvidenceRecord, c: Context)
    requires LogicalTime.Validate(c.logicalTime).Ok?
    requires r.expiresAt.Some? ==> LogicalTime.Validate(r.expiresAt.value).Ok?
    ensures Misplaced(r, c) <==>
      || (r.expiresAt.Some? &&
          LogicalTime.Seconds(LogicalTime.Fields(r.expiresAt.value)) <= LogicalTime.Seconds(LogicalTime.Fields(c.logicalTime)))
      || r.targetId != c.targetId || r.checkpointId != c.checkpointId || r.producerId !in c.producerIds
  {
    hide LogicalTime.Seconds, LexLe;
    if r.expiresAt.Some? {
      LogicalTime.StringOrderIsTimeOrder(r.expiresAt.value, c.logicalTime);
    }
  }

  lemma {:induction false} ObserveState(r: EvidenceRecord, i: Invalidator, c: Context)
    ensures Violated(r, i, c) <==> exists o :: o in Observe(r, i, c) && o.state == Invalidated
    ensures Undecided(r, i, c) <==> exists o :: o in Observe(r, i, c) && o.state == Unknown
  {
    hide SortSet, Elems;
    var os := Observe(r, i, c);
    assert |os| <= 1;
    if |os| == 1 { assert os[0] in os; }
  }

  lemma {:induction false} ObservedStates(r: EvidenceRecord, invalidators: seq<Invalidator>, c: Context)
    ensures (exists i :: i in invalidators && Violated(r, i, c)) <==>
      exists o :: o in Observations(r, invalidators, c) && o.state == Invalidated
    ensures (exists i :: i in invalidators && Undecided(r, i, c)) <==>
      exists o :: o in Observations(r, invalidators, c) && o.state == Unknown
  {
    hide Observe, Violated, Undecided;
    if invalidators != [] {
      assert invalidators == [invalidators[0]] + invalidators[1..];
      ObserveState(r, invalidators[0], c);
      ObservedStates(r, invalidators[1..], c);
    }
  }

  /** A record is unknown when it is incomplete; otherwise invalidated exactly when it is
      misplaced or some required invalidator is violated; otherwise unknown exactly when some
      required invalidator cannot be decided; otherwise current. */
  lemma {:induction false} DirectMeaning(r: EvidenceRecord, c: Context)
    ensures EvaluateDirect(r, c).state ==
      if r.completeness != Complete then Unknown
      else if Misplaced(r, c) || exists i :: i in r.invalidators && Violated(r, i, c) then Invalidated
      else if exists i :: i in r.invalidators && Undecided(r, i, c) then Unknown
      else Current
  {
    hide Observations, Violated, Undecided, LexLe, SortSet, First;
    ObservedStates(r, r.invalidators, c);
    FirstMember(Observations(r, r.invalidators, c), Invalidated);
    FirstMember(Observations(r, r.invalidators, c), Unknown);
  }

  // ----- the order of the invalidators does not matter -----

  lemma {:induction false} FirstIsLeast(items: seq<Evidence.Invalidation>, state: EvidenceState)
    ensures var first := First(items, state);
      forall o :: o in items && o.state == state ==> first.Some? && LexLe(Key(first.value), Key(o))
  {
    hide Key, LexLe;
    if items != [] {
      FirstIsLeast(items[1..], state);
      FirstMember(items[1..], state);
      assert items == [items[0]] + items[1..];
      var rest, first := First(items[1..], state), First(items, state);
      LexRefl(Key(items[0]));
      forall o | o in items && o.state == state ensures first.Some? && LexLe(Key(first.value), Key(o)) {
        if rest.Some? {
          LexTotal(Key(items[0]), Key(rest.value));
          if o != items[0] && first == Some(items[0]) && o in items[1..] {
            LexTransitive(Key(items[0]), Key(rest.value), Key(o));
          }
        }
      }
    }
  }

  lemma {:induction false} KeyIdentifies(v: Evidence.Invalidation, w: Evidence.Invalidation, id: Id)
    requires DirectShape(v, id) && DirectShape(w, id) && v.state == w.state != Current && Key(v) == Key(w)
    ensures v == w
  {
    assert Key(v)[0] == Key(w)[0] && Key(v)[1..] == v.directCauseIds && Key(w)[1..] == w.directCauseIds;
    RankInjective(v.code, w.code);
  }

  lemma {:induction false} RankInjective(a: Code, b: Code)
    requires Rank(a) == Rank(b)
    ensures a == b
  {
  }

  lemma {:induction false} SameFirst(a: seq<Evidence.Invalidation>, b: seq<Evidence.Invalidation>,
        state: EvidenceState, id: Id)
    requires state != Current && (forall o :: o in a <==> o in b) && forall o :: o in a ==> DirectShape(o, id)
    ensures First(a, state) == First(b, state)
  {
    hide First, Key, LexLe, DirectShape;
    FirstIsLeast(a, state);
    FirstIsLeast(b, state);
    FirstMember(a, state);
    FirstMember(b, state);
    if First(a, state).Some? {
      var v, w := First(a, state).value, First(b, state).value;
      LexAntisymmetric(Key(v), Key(w));
      KeyIdentifies(v, w, id);
    }
  }

  lemma {:induction false} ObservedMembers(r: EvidenceRecord, s: EvidenceRecord, invalidators: seq<Invalidator>,
        c: Context, o: Evidence.Invalidation)
    requires s.evidenceId == r.evidenceId && s.subjectDigest == r.subjectDigest
    ensures o in Observations(s, invalidators, c) <==> exists i :: i in invalidators && o in Observe(r, i, c)
  {
    if invalidators != [] {
      SameObservation(r, s, invalidators[0], c);
      hide Observe;
      ObservedMembers(r, s, invalidators[1..], c, o);
      assert invalidators == [invalidators[0]] + invalidators[1..];
    }
  }

  lemma {:induction false} SameObservation(r: EvidenceRecord, s: EvidenceRecord, i: Invalidator, c: Context)
    requires s.evidenceId == r.evidenceId && s.subjectDigest == r.subjectDigest
    ensures Observe(s, i, c) == Observe(r, i, c)
  {
    hide Outcome;
  }

  /** The direct outcome, code and causes included, is the same for every order of the
      invalidators and however often they are repeated. */
  lemma {:induction false} DirectOrderIndependent(r: EvidenceRecord, invalidators: seq<Invalidator>, c: Context)
    requires forall i :: i in r.invalidators <==> i in invalidators
    ensures EvaluateDirect(r.(invalidators := invalidators), c) == EvaluateDirect(r, c)
  {
    hide Observations, Observe, First, LexLe, Outcome, DirectShape;
    var s := r.(invalidators := invalidators);
    var a, b := Observations(r, r.invalidators, c), Observations(s, invalidators, c);
    forall o ensures o in a <==> o in b {
      ObservedMembers(r, r, r.invalidators, c, o);
      ObservedMembers(r, s, invalidators, c, o);
    }
    ObservationsShape(r, r.invalidators, c);
    SameFirst(a, b, Invalidated, r.evidenceId);
    SameFirst(a, b, Unknown, r.evidenceId);
  }

  // ----- the texts of the codes -----

  /** The code as it is stored. */
  function CodeText(c: Code): string {
    match c
    case NoCode => ""
    case FileChanged => "citation.file_changed"
    case PathMissing => "citation.path_missing"
    case SpanChanged => "citation.span_changed"
    case CheckpointMismatch => "evidence.checkpoint_mismatch"
    case DependencyCycle => "evidence.dependency_cycle"
    case DependencyInvalid => "evidence.dependency_invalid"
    case DependencyUnknown => "evidence.dependency_unknown"
    case Expired => "evidence.expired"
    case ObservationUnavailable => "evidence.observation_unavailable"
    case ProducerMismatch => "evidence.producer_mismatch"
    case TargetMismatch => "evidence.target_mismatch"
  }

  function Points(s: string): (r: seq<int>)
    ensures |r| == |s| && forall i :: 0 <= i < |s| ==> r[i] == s[i] as int
  {
    seq(|s|, i requires 0 <= i < |s| => s[i] as int)
  }

  lemma {:induction false} TextsDiffer(a: string, b: string, k: nat)
    requires k < |a| && k < |b| && (forall i :: 0 <= i < k ==> a[i] == b[i]) && a[k] < b[k]
    ensures LexLt(Points(a), Points(b))
  {
    assert Points(a)[..k] == Points(b)[..k];
    LexAt(Points(a), Points(b), k);
  }

  lemma {:induction false} NextCitationText(a: Code, b: Code)
    requires Rank(b) == Rank(a) + 1 <= 5
    ensures LexLt(Points(CodeText(a)), Points(CodeText(b)))
  {
    hide LexLt, LexLe;
    match a {
      case NoCode => NothingFirst(Points(CodeText(b)));
      case FileChanged => TextsDiffer("citation.file_changed", "citation.path_missing", 9);
      case PathMissing => TextsDiffer("citation.path_missing", "citation.span_changed", 9);
      case SpanChanged => TextsDiffer("citation.span_changed", "evidence.checkpoint_mismatch", 0);
      case CheckpointMismatch => TextsDiffer("evidence.checkpoint_mismatch", "evidence.dependency_cycle", 9);
    }
  }

  lemma {:induction false} NextDependencyText(a: Code, b: Code)
    requires 5 <= Rank(a) < 8 && Rank(b) == Rank(a) + 1
    ensures LexLt(Points(CodeText(a)), Points(CodeText(b)))
  {
    hide LexLt, LexLe;
    match a {
      case DependencyCycle => TextsDiffer("evidence.dependency_cycle", "evidence.dependency_invalid", 20);
      case DependencyInvalid => TextsDiffer("evidence.dependency_invalid", "evidence.dependency_unknown", 20);
      case DependencyUnknown => TextsDiffer("evidence.dependency_unknown", "evidence.expired", 9);
    }
  }

  lemma {:induction false} NextText(a: Code, b: Code)
    requires Rank(b) == Rank(a) + 1
    ensures LexLt(Points(CodeText(a)), Points(CodeText(b)))
  {
    hide LexLt, LexLe;
    if Rank(a) < 5 {
      NextCitationText(a, b);
    } else if Rank(a) < 8 {
      NextDependencyText(a, b);
    } else {
      match a {
        case Expired => TextsDiffer("evidence.expired", "evidence.observation_unavailable", 9);
        case ObservationUnavailable => TextsDiffer("evidence.observation_unavailable", "evidence.producer_mismatch", 9);
        case ProducerMismatch => TextsDiffer("evidence.producer_mismatch", "evidence.target_mismatch", 9);
      }
    }
  }

  lemma {:induction false} NothingFirst(s: seq<int>)
    requires s != []
    ensures LexLt([], s)
  {
  }

  lemma {:induction false} StrictlyBetween(a: seq<int>, b: seq<int>, c: seq<int>)
    requires LexLt(a, b) && LexLt(b, c)
    ensures LexLt(a, c)
  {
    LexLtTransitive(a, b, c);
  }

  /** The code one place before another in the order. */
  lemma {:induction false} CodeBefore(b: Code) returns (a: Code)
    requires Rank(b) > 0
    ensures Rank(a) == Rank(b) - 1
  {
    match b {
      case FileChanged => a := NoCode;
      case PathMissing => a := FileChanged;
      case SpanChanged => a := PathMissing;
      case CheckpointMismatch => a := SpanChanged;
      case DependencyCycle => a := CheckpointMismatch;
      case DependencyInvalid => a := DependencyCycle;
      case DependencyUnknown => a := DependencyInvalid;
      case Expired => a := DependencyUnknown;
      case ObservationUnavailable => a := Expired;
      case ProducerMismatch => a := ObservationUnavailable;
      case TargetMismatch => a := ProducerMismatch;
    }
  }

  lemma {:induction false} LowerRankFirst(a: Code, b: Code)
    requires Rank(a) < Rank(b)
    ensures LexLt(Points(CodeText(a)), Points(CodeText(b)))
    decreases Rank(b)
  {
    hide LexLt, LexLe, CodeText, Points;
    var c := CodeBefore(b);
    NextText(c, b);
    if Rank(a) < Rank(c) {
      LowerRankFirst(a, c);
      StrictlyBetween(Points(CodeText(a)), Points(CodeText(c)), Points(CodeText(b)));
    } else {
      RankInjective(a, c);
    }
  }

  /** The rank of a code is its place in the string order of the texts. */
  lemma {:induction false} RankOrdersTexts(a: Code, b: Code)
    ensures Rank(a) < Rank(b) <==> LexLt(Points(CodeText(a)), Points(CodeText(b)))
    ensures Rank(a) == Rank(b) <==> CodeText(a) == CodeText(b)
  {
    hide LexLe, CodeText, Points;
    var s, t := Points(CodeText(a)), Points(CodeText(b));
    if Rank(a) < Rank(b) {
      LowerRankFirst(a, b);
    } else if Rank(b) < Rank(a) {
      LowerRankFirst(b, a);
      if LexLt(s, t) { LexAntisymmetric(s, t); }
    } else {
      RankInjective(a, b);
    }
  }

  // ----- code and causes of a record's own observations -----

  /** The order of the pairs (code text, causes). */
  ghost predicate NoLater(code: Code, causes: seq<Id>, code': Code, causes': seq<Id>) {
    var s, t := Points(CodeText(code)), Points(CodeText(code'));
    LexLt(s, t) || (code == code' && LexLe(causes, causes'))
  }

  lemma {:induction false} KeyOrder(v: Evidence.Invalidation, w: Evidence.Invalidation)
    ensures LexLe(Key(v), Key(w)) <==> NoLater(v.code, v.directCauseIds, w.code, w.directCauseIds)
  {
    hide LexLt, Points, CodeText;
    RankOrdersTexts(v.code, w.code);
    assert Key(v)[1..] == v.directCauseIds && Key(w)[1..] == w.directCauseIds;
    if Rank(v.code) == Rank(w.code) {
      RankInjective(v.code, w.code);
      assert !LexLt(Points(CodeText(v.code)), Points(CodeText(w.code)));
    }
  }

  /** What a violated invalidator is reported as. */
  ghost function ViolationCode(r: EvidenceRecord, i: Invalidator, c: Context): Code {
    match i.kind
    case TargetKind => TargetMismatch
    case CheckpointKind => CheckpointMismatch
    case ProducerKind => ProducerMismatch
    case _ =>
      if i.subjectId !in c.citations || !c.citations[i.subjectId].available then PathMissing
      else if c.citations[i.subjectId].spanDigest.Some? then SpanChanged else FileChanged
  }

  ghost predicate Expiry(r: EvidenceRecord, c: Context) {
    r.expiresAt.Some? && LexLe(r.expiresAt.value, c.logicalTime)
  }

  /** What the header of a record says against it: expiry, target, checkpoint and producer object
      in this order, each with the identifier that was not met. */
  ghost predicate Objection(r: EvidenceRecord, c: Context, code: Code, causes: seq<Id>) {
    || (Expiry(r, c) && code == Expired && causes == [])
    || (!Expiry(r, c) && r.targetId != c.targetId && code == TargetMismatch && causes == [c.targetId])
    || (!Expiry(r, c) && r.targetId == c.targetId && r.checkpointId != c.checkpointId
        && code == CheckpointMismatch && causes == [c.checkpointId])
    || (!Expiry(r, c) && r.targetId == c.targetId && r.checkpointId == c.checkpointId && r.producerId !in c.producerIds
        && code == ProducerMismatch && causes == [r.producerId])
  }

  ghost predicate AnyViolated(r: EvidenceRecord, c: Context) {
    exists i :: i in r.invalidators && Violated(r, i, c)
  }

  ghost predicate AnyUndecided(r: EvidenceRecord, c: Context) {
    exists i :: i in r.invalidators && Undecided(r, i, c)
  }

  /** What is reported of a record by itself, and why: an incomplete record is unavailable; then
      its header objects; then the violated invalidators, of which the first in the order of code
      text and cause is reported; then the undecided ones, of which the first cause is. */
  ghost predicate Explained(r: EvidenceRecord, c: Context, v: Evidence.Invalidation) {
    && v.evidenceId == r.evidenceId && v.transitivePath == (if v.state == Current then [] else [r.evidenceId])
    && if r.completeness != Complete then v.state == Unknown && v.code == ObservationUnavailable && v.directCauseIds == []
       else if Misplaced(r, c) then v.state == Invalidated && Objection(r, c, v.code, v.directCauseIds)
       else if AnyViolated(r, c) then v.state == Invalidated && FirstViolation(r, c, v)
       else if AnyUndecided(r, c) then v.state == Unknown && FirstUndecided(r, c, v)
       else v.state == Current && v.code == NoCode && v.directCauseIds == []
  }

  ghost predicate FirstViolation(r: EvidenceRecord, c: Context, v: Evidence.Invalidation) {
    && (exists i :: i in r.invalidators && Violated(r, i, c)
          && v.code == ViolationCode(r, i, c) && v.directCauseIds == [i.subjectId])
    && forall j :: j in r.invalidators && Violated(r, j, c) ==>
         NoLater(v.code, v.directCauseIds, ViolationCode(r, j, c), [j.subjectId])
  }

  ghost predicate FirstUndecided(r: EvidenceRecord, c: Context, v: Evidence.Invalidation) {
    && v.code == ObservationUnavailable
    && (exists i :: i in r.invalidators && Undecided(r, i, c) && v.directCauseIds == [i.subjectId])
    && forall j :: j in r.invalidators && Undecided(r, j, c) ==> LexLe(v.directCauseIds, [j.subjectId])
  }

  lemma {:induction false} OneCause(x: Id)
    ensures SortSet(Elems([x])) == [x]
  {
    hide SortSet;
    assert Elems([x]) == {x};
    assert x in SortSet({x}) && |SortSet({x})| == 1;
  }

  lemma {:induction false} ObservedAs(r: EvidenceRecord, i: Invalidator, c: Context, o: Evidence.Invalidation)
    ensures o in Observe(r, i, c) && o.state == Invalidated <==>
      Violated(r, i, c) && o == Evidence.Invalidation(r.evidenceId, Invalidated, ViolationCode(r, i, c), [i.subjectId], [r.evidenceId])
    ensures o in Observe(r, i, c) && o.state == Unknown <==>
      Undecided(r, i, c) && o == Evidence.Invalidation(r.evidenceId, Unknown, ObservationUnavailable, [i.subjectId], [r.evidenceId])
  {
    hide SortSet, Elems;
    OneCause(i.subjectId);
    OneCause(c.targetId);
  }

  lemma {:induction false} AllObserved(r: EvidenceRecord, invalidators: seq<Invalidator>, c: Context,
        o: Evidence.Invalidation)
    ensures o in Observations(r, invalidators, c) <==> exists i :: i in invalidators && o in Observe(r, i, c)
  {
    hide Observe;
    ObservedMembers(r, r, invalidators, c, o);
  }

  ghost function Violation(r: EvidenceRecord, i: Invalidator, c: Context): Evidence.Invalidation {
    Evidence.Invalidation(r.evidenceId, Invalidated, ViolationCode(r, i, c), [i.subjectId], [r.evidenceId])
  }

  ghost function Doubted(r: EvidenceRecord, i: Invalidator): Evidence.Invalidation {
    Evidence.Invalidation(r.evidenceId, Unknown, ObservationUnavailable, [i.subjectId], [r.evidenceId])
  }

  lemma {:induction false} ViolationsExplained(r: EvidenceRecord, c: Context)
    ensures var first := First(Observations(r, r.invalidators, c), Invalidated);
      && (first.Some? <==> exists i :: i in r.invalidators && Violated(r, i, c))
      && (first.Some? ==>
            && first.value.evidenceId == r.evidenceId && first.value.state == Invalidated
            && first.value.transitivePath == [r.evidenceId] && FirstViolation(r, c, first.value))
  {
    hide Observations, Observe, First, Violated, ViolationCode, Key, NoLater, LexLe;
    var os := Observations(r, r.invalidators, c);
    var first := First(os, Invalidated);
    FirstMember(os, Invalidated);
    FirstIsLeast(os, Invalidated);
    forall j | j in r.invalidators && Violated(r, j, c)
      ensures first.Some?
        && NoLater(first.value.code, first.value.directCauseIds, ViolationCode(r, j, c), [j.subjectId])
    {
      ObservedAs(r, j, c, Violation(r, j, c));
      AllObserved(r, r.invalidators, c, Violation(r, j, c));
      KeyOrder(first.value, Violation(r, j, c));
    }
    if first.Some? {
      AllObserved(r, r.invalidators, c, first.value);
      var i :| i in r.invalidators && first.value in Observe(r, i, c);
      ObservedAs(r, i, c, first.value);
    }
  }

  lemma {:induction false} DoubtsExplained(r: EvidenceRecord, c: Context)
    ensures var first := First(Observations(r, r.invalidators, c), Unknown);
      && (first.Some? <==> exists i :: i in r.invalidators && Undecided(r, i, c))
      && (first.Some? ==>
            && first.value.evidenceId == r.evidenceId && first.value.state == Unknown
            && first.value.transitivePath == [r.evidenceId] && FirstUndecided(r, c, first.value))
  {
    hide Observations, Observe, First, Undecided, Key, LexLe, LexLt, Points, CodeText;
    var os := Observations(r, r.invalidators, c);
    var first := First(os, Unknown);
    FirstMember(os, Unknown);
    FirstIsLeast(os, Unknown);
    if first.Some? {
      AllObserved(r, r.invalidators, c, first.value);
      var i :| i in r.invalidators && first.value in Observe(r, i, c);
      ObservedAs(r, i, c, first.value);
    }
    forall j | j in r.invalidators && Undecided(r, j, c)
      ensures first.Some? && LexLe(first.value.directCauseIds, [j.subjectId])
    {
      ObservedAs(r, j, c, Doubted(r, j));
      AllObserved(r, r.invalidators, c, Doubted(r, j));
      KeyOrder(first.value, Doubted(r, j));
      RankOrdersTexts(first.value.code, ObservationUnavailable);
    }
  }

  /** The whole direct outcome, from the record and the context alone. */
  lemma {:induction false} DirectExplained(r: EvidenceRecord, c: Context)
    ensures Explained(r, c, EvaluateDirect(r, c))
  {
    hide Observations, First, Violated, Undecided, FirstViolation, FirstUndecided, SortSet, LexLe;
    ViolationsExplained(r, c);
    DoubtsExplained(r, c);
    OneCause(c.targetId);
    OneCause(c.checkpointId);
    OneCause(r.producerId);
    NoCauses();
  }

  lemma {:induction false} NoCauses()
    ensures SortSet(Elems([])) == []
  {
    hide SortSet;
    assert Elems<int>([]) == {} && |SortSet({})| == 0;
  }

  /** There is only one such outcome. */
  lemma {:induction false} ExplainedOnce(r: EvidenceRecord, c: Context, v: Evidence.Invalidation)
    ensures Explained(r, c, v) <==> v == EvaluateDirect(r, c)
  {
    hide EvaluateDirect, Violated, Undecided, LexLe, LexLt, Points, CodeText, ViolationCode;
    DirectExplained(r, c);
    var w := EvaluateDirect(r, c);
    if Explained(r, c, v) {
      RankOrdersTexts(v.code, w.code);
      RankOrdersTexts(w.code, v.code);
      if LexLe(v.directCauseIds, w.directCauseIds) && LexLe(w.directCauseIds, v.directCauseIds) {
        LexAntisymmetric(v.directCauseIds, w.directCauseIds);
      }
      assert v == w;
    }
  }
}
