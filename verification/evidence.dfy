/** Evidence records and the direct part of their evaluation (kernel/evidence.py,
    kernel/invalidation.py): what one record's own observations say about it. */
module Evidence {
  import opened Orders

  /** A digest or record identifier. Both are fixed-width lower-case hexadecimal, so their
      string order is the order of the numbers they spell. */
  type Id = int
  type Text = seq<int>

  datatype EvidenceAuthority = Deterministic | Advisory
  datatype Completeness = Complete | Incomplete | Truncated | Unavailable
  datatype InvalidatorKind = CitationKind | EvidenceDependency | TargetKind | CheckpointKind | ProducerKind | PolicyKind
  datatype Invalidator = Invalidator(kind: InvalidatorKind, subjectId: Id, required: bool)

  datatype EvidenceRecord = EvidenceRecord(
    evidenceId: Id,
    subjectDigest: Id,
    authority: EvidenceAuthority,
    producerId: Id,
    targetId: Id,
    checkpointId: Id,
    expiresAt: Option<Text>,
    completeness: Completeness,
    invalidators: seq<Invalidator>)

  datatype EvidenceState = Current | Invalidated | Unknown

  datatype Code =
    | NoCode
    | FileChanged | PathMissing | SpanChanged
    | CheckpointMismatch | DependencyCycle | DependencyInvalid | DependencyUnknown
    | Expired | ObservationUnavailable | ProducerMismatch | TargetMismatch

  /** Position of a code's text in string order. */
  function Rank(c: Code): int {
    match c
    case NoCode => 0
    case FileChanged => 1
    case PathMissing => 2
    case SpanChanged => 3
    case CheckpointMismatch => 4
    case DependencyCycle => 5
    case DependencyInvalid => 6
    case DependencyUnknown => 7
    case Expired => 8
    case ObservationUnavailable => 9
    case ProducerMismatch => 10
    case TargetMismatch => 11
  }

  datatype Invalidation = Invalidation(
    evidenceId: Id, state: EvidenceState, code: Code, directCauseIds: seq<Id>, transitivePath: seq<Id>)

  /** The checks of the Invalidation constructor; a value failing them is never built. */
  ghost predicate Accepted(v: Invalidation) {
    if v.state == Current then
      v.code == NoCode && v.directCauseIds == [] && v.transitivePath == []
    else
      && v.code != NoCode
      && StrictlySorted(v.directCauseIds)
      && Distinct(v.transitivePath)
      && v.transitivePath != [] && v.transitivePath[0] == v.evidenceId
  }

  function CurrentOutcome(id: Id): Invalidation {
    Invalidation(id, Current, NoCode, [], [])
  }

  /** `_outcome`: causes are deduplicated and sorted. */
  function Outcome(id: Id, state: EvidenceState, code: Code, causes: seq<Id>, path: seq<Id>): Invalidation {
    Invalidation(id, state, code, SortSet(Elems(causes)), path)
  }

  datatype Observation = Observation(
    available: bool, stable: bool, fileDigest: Option<Id>, spanDigest: Option<Id>, unknownCode: Option<string>)

  datatype Context = Context(
    logicalTime: Text, targetId: Id, checkpointId: Id, producerIds: set<Id>, citations: map<Id, Observation>)

  function CitationOutcome(r: EvidenceRecord, subject: Id, c: Context): Invalidation {
    var unavailable := Outcome(r.evidenceId, Unknown, ObservationUnavailable, [subject], [r.evidenceId]);
    if subject !in c.citations || !c.citations[subject].stable then unavailable
    else
      var o := c.citations[subject];
      if !o.available then
        if o.unknownCode == Some("citation.path_missing")
        then Outcome(r.evidenceId, Invalidated, PathMissing, [subject], [r.evidenceId])
        else unavailable
      else if o.unknownCode.Some? then unavailable
      else if o.spanDigest.Some? then
        if r.subjectDigest != o.spanDigest.value
        then Outcome(r.evidenceId, Invalidated, SpanChanged, [subject], [r.evidenceId])
        else CurrentOutcome(r.evidenceId)
      else if o.fileDigest.None? then unavailable
      else if r.subjectDigest != o.fileDigest.value
      then Outcome(r.evidenceId, Invalidated, FileChanged, [subject], [r.evidenceId])
      else CurrentOutcome(r.evidenceId)
  }

  /** What one required invalidator contributes to the list of observations, if anything. */
  function Observe(r: EvidenceRecord, i: Invalidator, c: Context): seq<Invalidation> {
    var id := r.evidenceId;
    if !i.required then []
    else match i.kind
      case CitationKind => [CitationOutcome(r, i.subjectId, c)]
      case TargetKind =>
        if i.subjectId != c.targetId then [Outcome(id, Invalidated, TargetMismatch, [i.subjectId], [id])] else []
      case CheckpointKind =>
        if i.subjectId != c.checkpointId then [Outcome(id, Invalidated, CheckpointMismatch, [i.subjectId], [id])] else []
      case ProducerKind =>
        if i.subjectId !in c.producerIds then [Outcome(id, Invalidated, ProducerMismatch, [i.subjectId], [id])] else []
      case PolicyKind => [Outcome(id, Unknown, ObservationUnavailable, [i.subjectId], [id])]
      case EvidenceDependency => []
  }

  function Observations(r: EvidenceRecord, invalidators: seq<Invalidator>, c: Context): seq<Invalidation> {
    if invalidators == [] then []
    else Observe(r, invalidators[0], c) + Observations(r, invalidators[1..], c)
  }

  /** The sort key `(code, direct_cause_ids)`. */
  function Key(v: Invalidation): seq<int> {
    [Rank(v.code)] + v.directCauseIds
  }

  /** `sorted(items with the state, key)[0]`, when there is one. */
  function First(items: seq<Invalidation>, state: EvidenceState): Option<Invalidation> {
    if items == [] then None
    else
      var rest := First(items[1..], state);
      if items[0].state == state && (rest.None? || LexLe(Key(items[0]), Key(rest.value)))
      then Some(items[0])
      else rest
  }

  function EvaluateDirect(r: EvidenceRecord, c: Context): Invalidation {
    var id := r.evidenceId;
    if r.completeness != Complete then
      Outcome(id, Unknown, ObservationUnavailable, [], [id])
    else if r.expiresAt.Some? && LexLe(r.expiresAt.value, c.logicalTime) then
      Outcome(id, Invalidated, Expired, [], [id])
    else if r.targetId != c.targetId then
      Outcome(id, Invalidated, TargetMismatch, [c.targetId], [id])
    else if r.checkpointId != c.checkpointId then
      Outcome(id, Invalidated, CheckpointMismatch, [c.checkpointId], [id])
    else if r.producerId !in c.producerIds then
      Outcome(id, Invalidated, ProducerMismatch, [r.producerId], [id])
    else
      var observations := Observations(r, r.invalidators, c);
      match First(observations, Invalidated)
      case Some(worst) => worst
      case None =>
        match First(observations, Unknown)
        case Some(unknown) => unknown
        case None => CurrentOutcome(id)
  }

  /** What every direct outcome looks like: acceptable, about its own record, and with a
      path of just that record. */
  ghost predicate DirectShape(v: Invalidation, id: Id) {
    Accepted(v) && v.evidenceId == id && (v.state != Current ==> v.transitivePath == [id])
  }

  lemma {:induction false} OutcomeShape(id: Id, state: EvidenceState, code: Code, causes: seq<Id>)
    requires state != Current && code != NoCode
    ensures DirectShape(Outcome(id, state, code, causes, [id]), id)
  {
    hide SortSet;
  }

  lemma {:induction false} OutcomeShapes(id: Id)
    ensures forall state, code, causes :: state != Current && code != NoCode ==>
      DirectShape(Outcome(id, state, code, causes, [id]), id)
    ensures DirectShape(CurrentOutcome(id), id)
  {
    hide SortSet;
    forall state, code, causes | state != Current && code != NoCode
      ensures DirectShape(Outcome(id, state, code, causes, [id]), id)
    {
      OutcomeShape(id, state, code, causes);
    }
  }

  lemma {:induction false} ObserveShape(r: EvidenceRecord, i: Invalidator, c: Context)
    ensures forall o :: o in Observe(r, i, c) ==> DirectShape(o, r.evidenceId)
  {
    hide Outcome, CurrentOutcome, DirectShape;
    OutcomeShapes(r.evidenceId);
  }

  lemma {:induction false} ObservationsShape(r: EvidenceRecord, invalidators: seq<Invalidator>, c: Context)
    ensures forall o :: o in Observations(r, invalidators, c) ==> DirectShape(o, r.evidenceId)
  {
    if invalidators != [] {
      ObserveShape(r, invalidators[0], c);
      ObservationsShape(r, invalidators[1..], c);
      hide Observe, DirectShape;
    }
  }

  lemma {:induction false} FirstMember(items: seq<Invalidation>, state: EvidenceState)
    ensures First(items, state).Some? ==>
      First(items, state).value in items && First(items, state).value.state == state
    ensures First(items, state).None? ==> forall o :: o in items ==> o.state != state
  {
    if items != [] {
      FirstMember(items[1..], state);
      assert items == [items[0]] + items[1..];
    }
  }

  lemma {:induction false} EvaluateDirectShape(r: EvidenceRecord, c: Context)
    ensures DirectShape(EvaluateDirect(r, c), r.evidenceId)
  {
    hide Outcome, CurrentOutcome, DirectShape, Observations, First, LexLe;
    OutcomeShapes(r.evidenceId);
    ObservationsShape(r, r.invalidators, c);
    FirstMember(Observations(r, r.invalidators, c), Invalidated);
    FirstMember(Observations(r, r.invalidators, c), Unknown);
  }

  /** The subjects of the required evidence-dependency invalidators, in record order. */
  function DependencySubjects(invalidators: seq<Invalidator>): seq<Id> {
    if invalidators == [] then []
    else
      (if invalidators[0].required && invalidators[0].kind == EvidenceDependency
       then [invalidators[0].subjectId] else [])
      + DependencySubjects(invalidators[1..])
  }

  function Dependencies(r: EvidenceRecord): seq<Id> {
    DependencySubjects(r.invalidators)
  }
}
