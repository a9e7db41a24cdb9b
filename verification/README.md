# Agent continuity guard: a verified model

Agent continuity guard records checkpoints of an agent's work in an audited local store, checks
that the Git worktree is the one recorded, and decides from evidence records whether a transition
is allowed. This project models its decision logic in Dafny and proves what it promises.

- **Evidence invalidation** (`orders`, `graph`, `evidence`, `direct`, `invalidation`, `propagation`, `fixedpoint`, `decision`, `doubt`,
  `evaluation`, `locality`, `tightness`, `verdict`): Kosaraju's two passes with explicit stacks, cycle marking, round-based
  propagation with its exact round bound, and the declarative meaning of every outcome, path and cause.
- **Canonical JSON and records** (`utf8`, `canonical`, `roundtrip`, `normalforms`, `shortest`, `identity`, `logicaltime`, `base64url`, `splitting`,
  `utf16`, `paths`, `recordfields`, `kernelrecords`, `recordlaws`, `payloads`): one canonical print, the shortest text there is, a strict loader that accepts exactly the prints, injective identities,
  paths, timestamps, and citation and evidence records that survive encoding.
- **Audited store** (`auditdetails`, `normalizers`, `drafts`, `store`, `storelaws`, `storeruns`, `consistency`, `sqlitestore`, `retries`, `overtaken`): its tables, replay
  verification, compare-and-swap heads, exact retry, faults and rollback, readback, anchors. `store` says what one transaction
  does as a function of the tables; `sqlitestore` is the object whose methods run the steps and are proved against it;
  `storelaws` and `storeruns` prove what holds over every run.
- **Session protocol** (`session`, `sessionlaws`, `history`, `initialization`, `selection`, `continuity`): any interleaving
  of initialize and checkpoint calls, with stale reads, as a state machine; agreement of racing initializations; the calls
  themselves as methods with rivals in between.
- **Git index and clean worktree** (`gitpaths`, `rawindex`, `indexparser`, `worktree`, `lookup`, `cleanproof`, `treewalker`): the binary
  index format and the walk that compares a tree with it; `lookup` says what a tree holds without the walk.

Identifiers and digests of the invalidation engine and the store are numbers: the real ones are fixed-width lower-case
hexadecimal texts, whose string order is the order of the numbers. Hash functions are arbitrary functions; no injectivity is
assumed, so binding results say that states agree or exhibit a collision. Unicode NFC is an arbitrary function with the laws it
is used by (idempotent, adds no control characters, keeps ASCII). Case folding of Windows paths is an arbitrary
function. Two properties fail of the code, and each has its failing input and its exact condition: evidence survives encoding
exactly when the text values of its facts are in NFC (`RecordLaws.DecodeEncode`; it fails for the text U+212B,
`RecordLaws.EvidenceMayNotSurvive`), and `commit_many` reports a committed transaction as failed exactly when another
transaction gets into the log before its readback (`SqliteStore.SQLiteStateStore.CommitMany`; it happens to two requests that
store one valid record each and share nothing, `Overtaken.CommitOvertaken`).

`dafny verify dfyconfig.toml` checks the project.

## Model

| member | source | states |
|---|---|---|
| `Evidence.EvaluateDirectShape` | src/agent_continuity/kernel/invalidation.py:267-363 | the outcome of a record's own observations is about that record and always passes the constructor's checks (63-78): a non-current one has a code, sorted distinct causes and the path of the record alone |
| `DirectLaws.DirectMeaning` | src/agent_continuity/kernel/invalidation.py:207-363 | the state of a record's own observations, declaratively: unknown when incomplete, else invalidated exactly when expired, misplaced or a required invalidator is violated, else unknown exactly when one cannot be decided, else current |
| `DirectLaws.ExpiryIsChronological` | src/agent_continuity/kernel/invalidation.py:277-277 | for accepted times the expiry test, a comparison of texts, holds exactly when the instant of expiry is not after the logical time |
| `DirectLaws.DirectOrderIndependent` | src/agent_continuity/kernel/invalidation.py:289-363 | the direct outcome, code and causes included, does not depend on the order or repetition of the invalidators |
| `DirectLaws.RankOrdersTexts` | src/agent_continuity/kernel/invalidation.py:353-363 | the order in which causes are compared is the string order of the code texts, character by character |
| `DirectLaws.DirectExplained` | src/agent_continuity/kernel/invalidation.py:207-363 | code and causes of every direct outcome, on record and context alone: incompleteness, expiry, wrong target, wrong checkpoint and unknown producer each with its own code and causes in this order of precedence; otherwise the least pair of code text and causes among the violated required invalidators, else among the undecided ones |
| `DirectLaws.ExplainedOnce` | src/agent_continuity/kernel/invalidation.py:207-363 | an outcome is the direct one exactly when it is explained so: no other state, code, causes or path is |
| `Graph.Explore` | src/agent_continuity/kernel/invalidation.py:394-407 | one depth-first search with the explicit stack: on return no node is open, the root is visited, and whatever a finished node reaches was finished no later than some member of that node's component |
| `Graph.FinishOrder` | src/agent_continuity/kernel/invalidation.py:389-407 | the first pass lists every node once, so that whatever a node reaches finished no later than some member of that node's own component |
| `Graph.ReverseAdjacency` | src/agent_continuity/kernel/invalidation.py:409-412 | the reversed graph has exactly the reversed edges |
| `Graph.PushPredecessors` | src/agent_continuity/kernel/invalidation.py:424-427 | inner loop of the second pass: assigns just the not yet assigned predecessors and pushes them |
| `Graph.CollectComponent` | src/agent_continuity/kernel/invalidation.py:418-428 | the second pass from one root collects exactly the nodes mutually reachable with it |
| `Graph.CollectComponents` | src/agent_continuity/kernel/invalidation.py:413-429 | the second pass returns each strongly connected component once, each sorted, in lexicographic order, covering every node |
| `Invalidation.StronglyConnectedComponents` | src/agent_continuity/kernel/invalidation.py:375-429 | both passes together partition the records into components: two records share one exactly when each reaches the other |
| `Invalidation.CycleTest` | src/agent_continuity/kernel/invalidation.py:438-443 | a component with a second member or a self-loop is exactly one whose members lie on a cycle |
| `Invalidation.MarkComponent` | src/agent_continuity/kernel/invalidation.py:444-458 | the members of a component get the cycle outcome with their dependencies inside the component as causes; nobody else changes |
| `Invalidation.MarkCyclesUnknown` | src/agent_continuity/kernel/invalidation.py:432-459 | exactly the records on some cycle, self-loops included, are marked, whatever their own observations said |
| `Engine.Reconsider` | src/agent_continuity/kernel/invalidation.py:482-542 | one record in one round gets the update the rules give, and that outcome is never one the constructor rejects |
| `Engine.PropagateOnce` | src/agent_continuity/kernel/invalidation.py:479-545 | one round replaces all outcomes from the old values only and reports whether any changed |
| `Engine.PropagateToFixedPoint` | src/agent_continuity/kernel/invalidation.py:472-546 | at most as many rounds as records, stopping at the first that changes nothing, give the fixed point, listed by identifier |
| `Engine.EvaluateInvalidations` | src/agent_continuity/kernel/invalidation.py:549-562 | the entry point refuses inconsistent identifiers and otherwise returns the propagated outcomes in identifier order |
| `FixedPoint.ExtendedPath` | src/agent_continuity/kernel/invalidation.py:462-469 | prefixing a record off every cycle to a dependency's path never repeats an identifier |
| `FixedPoint.LastChange` | src/agent_continuity/kernel/invalidation.py:478-545 | no record changes after round n when there are n records |
| `FixedPoint.OneMoreRound` | src/agent_continuity/kernel/invalidation.py:472-546 | the returned outcomes are a fixed point of one more round |
| `Decision.FinallyInvalidated` | src/agent_continuity/kernel/invalidation.py:489-519 | a record ends invalidated exactly when a dependency path through records off every cycle reaches a directly invalidated one; its path is the least of the shortest such paths and its causes are exactly the dependencies one step nearer |
| `Doubts.FinallyUnknown` | src/agent_continuity/kernel/invalidation.py:497-537 | a record not invalidated ends unknown exactly when a path through records off every cycle reaches a source of doubt (direct, missing or advisory); it shows the least rendering of a shortest one; otherwise it is current |
| `Engine.EvaluatedState` | src/agent_continuity/kernel/invalidation.py:472-546 | the declarative answer for every record: cyclic ones keep the cycle outcome, the others are invalidated, unknown or current by reachability; every outcome passes the constructor's checks |
| `Engine.EvaluatedWitness` | src/agent_continuity/kernel/invalidation.py:462-546 | codes, causes and paths that go with the state; a record whose state did not change keeps its whole outcome |
| `Engine.UnchangedState` | src/agent_continuity/kernel/invalidation.py:479-545 | propagation only makes a record worse, and while its state is the same so is everything else |
| `Engine.EdgesAreRequirements` | src/agent_continuity/kernel/invalidation.py:366-372 | the dependency graph has an edge exactly where a record has a required dependency invalidator on a record |
| `Engine.CycleIsExplained` | src/agent_continuity/kernel/invalidation.py:444-458 | the outcome on a cycle: its code, as causes the required dependencies that share the cycle, and as path the record and then all others of its component in order |
| `Engine.EvaluatedExplained` | src/agent_continuity/kernel/invalidation.py:462-546 | code and causes of every final outcome: of the cycle, of the record's own observations with their code, or propagated from the dependencies one step nearer to an invalidated record, or from those that start a shortest path of doubt |
| `Locality.OutcomeIsLocal` | src/agent_continuity/kernel/invalidation.py:366-562 | a record's whole outcome depends only on the records reachable from it and their direct outcomes: any other record or context entry may be added, removed or changed |
| `Tightness.RoundBoundIsExact` | src/agent_continuity/kernel/invalidation.py:478-545 | the bound of n rounds is exact for every n: on a line of n records whose last one lacks its dependency the first is still current after n - 1 rounds and unknown after n |
| `Utf8.DecodeEncode` | src/agent_continuity/kernel/canonical.py:56-113 | strict UTF-8 decoding inverts encoding on every text (section 3 of RFC 3629) |
| `Utf8.PointLayout` | src/agent_continuity/kernel/canonical.py:56-70 | the bytes of a scalar value are its bits in groups of six behind the marks of RFC 3629, in the fewest bytes that hold them |
| `Normalizers.NormalizeValue` | src/agent_continuity/kernel/canonical.py:32-53 | the recursive normaliser that fills lists and dictionaries item by item computes the normalisation function, first error included |
| `RoundTrip.NormalizeIdempotent` | src/agent_continuity/kernel/canonical.py:26-53 | normalising twice is normalising once |
| `RoundTrip.ParseDump` | src/agent_continuity/kernel/canonical.py:56-113 | parsing the print of a normal value in front of any rest gives the value and the rest (sections 2 to 7 of RFC 8259) |
| `RoundTrip.LoadsAfterBytes` | src/agent_continuity/kernel/canonical.py:56-113 | for every admissible object, loading its canonical bytes gives the normalised object with sorted keys |
| `RoundTrip.LoaderImage` | src/agent_continuity/kernel/canonical.py:88-113 | the strict loader accepts exactly the prints of normal objects: both directions, for every byte string |
| `RoundTrip.BytesInjective` | src/agent_continuity/kernel/canonical.py:56-70 | two values have the same canonical bytes exactly when their normal forms are equal |
| `NormalForms.CanonExactly` | src/agent_continuity/kernel/canonical.py:26-70 | a value has a canonical form exactly when it has no floating point, no control characters and no two keys of one object with one NFC; the form is the only normal value that is the given one with texts in NFC, items in order and members in any order |
| `Shortest.PrintIsShortest` | src/agent_continuity/kernel/canonical.py:56-113 | no text that is read as a value is shorter than its print, and no other is as short: no space, escape, sign or zero is spent without need |
| `Shortest.ShortestExactly` | src/agent_continuity/kernel/canonical.py:56-70 | a text has the canonical bytes of a normal value exactly when it is read as that value and is of least length among all such texts |
| `Shortest.PrintedExample` | src/agent_continuity/kernel/canonical.py:56-70 | the print of one object with every kind of value and punctuation, character by character; a slash stays as it is, a quote and a backslash are escaped |
| `Identity.PreimageLayout` | src/agent_continuity/kernel/canonical.py:142-166 | which bytes are hashed, position by position, and exactly when an identity is refused |
| `Identity.PreimageInjective` | src/agent_continuity/kernel/canonical.py:142-166 | two identities hash the same bytes exactly for the same type, version and normalised payload |
| `LogicalTime.StringOrderIsTimeOrder` | src/agent_continuity/kernel/canonical.py:122-139 | for accepted timestamps string order, strict and not, is the order of Gregorian seconds, leap years included (sections 5.1 and 5.6 of RFC 3339) |
| `LogicalTime.AcceptsTimeTexts` | src/agent_continuity/kernel/canonical.py:122-139 | the accepted texts are exactly the printed valid times, and the fields read are those printed |
| `LogicalTime.DaysAreCivil` | src/agent_continuity/kernel/canonical.py:129-136 | the days counted by leap years and lengths of months are those of the closed formula of the Gregorian calendar |
| `LogicalTime.MonthsAreCivil` | src/agent_continuity/kernel/canonical.py:129-136 | by that formula the day after the last accepted day of a month is the first of the next, for every month and year |
| `Base64Url.Alphabet` | src/agent_continuity/kernel/paths.py:17-18 | the characters of the sixty-four values in their order |
| `Base64Url.GroupBits` | src/agent_continuity/kernel/paths.py:17-18 | each three bytes and their four values are the same number; after the last whole group missing bits are zeros |
| `Base64Url.Decode64Inverse` | src/agent_continuity/kernel/paths.py:17-32 | strict decoding accepts exactly the unpadded encodings of nonempty byte strings and inverts them (section 5 of RFC 4648) |
| `Utf16.PointLayout16` | src/agent_continuity/kernel/paths.py:51-57 | the bytes of a scalar value: least significant byte first, one unit or a high and a low surrogate |
| `Utf16.Decode16Inverse` | src/agent_continuity/kernel/paths.py:51-57 | strict UTF-16LE decoding accepts exactly the encodings of texts and inverts them (section 3.10 of the Unicode Standard) |
| `Paths.PosixSegmentOffsets` | src/agent_continuity/kernel/paths.py:35-48 | the loop computes the segment starts, or refuses an absolute, empty or NUL path, an empty segment or a parent segment |
| `Paths.CutWindows` | src/agent_continuity/kernel/paths.py:62-69 | the loop over code units closes a segment at each backslash or slash: the segments and the positions of their first bytes |
| `Paths.WindowsSegmentOffsets` | src/agent_continuity/kernel/paths.py:51-74 | computes the segment starts of a Windows path, or refuses bytes that are not UTF-16LE, an absolute, drive-qualified or NUL path, an empty segment or a parent segment |
| `Paths.PathComponents` | src/agent_continuity/kernel/paths.py:96-107 | computes the components that scopes compare, for every encoding |
| `Paths.OffsetsCut` | src/agent_continuity/kernel/paths.py:35-80 | for every encoding the offsets start at 0 and cut the bytes into exactly the components between separators |
| `Paths.BytesSurvive` | src/agent_continuity/kernel/paths.py:143-162 | for every encoding, an identity can be made of bytes exactly when they are an admissible path and the case key, if any, is the nonempty derived one; it gives the bytes back |
| `Paths.IdentityOfBytes` | src/agent_continuity/kernel/paths.py:110-141 | a valid identity is the one made of its own bytes |
| `Paths.ContainsExactly` | src/agent_continuity/kernel/paths.py:211-230 | a tree scope contains exactly the equal path and its extensions by a separator, a file scope just the equal path, within one encoding and case-key use; in Windows paths both slashes count as one separator |
| `Paths.ContainsTransitive` | src/agent_continuity/kernel/paths.py:211-230 | scopes nest: what the scope of a contained path contains, the outer scope contains as well, for every kind of scope |
| `RecordLaws.DecodeEncode` | src/agent_continuity/kernel/records.py:508-558 | decoding an encoded record gives it with fact texts in NFC; so every citation comes back unchanged, and evidence exactly when its fact texts are in NFC already |
| `RecordLaws.EvidenceMayNotSurvive` | src/agent_continuity/kernel/records.py:508-558 | the round trip of evidence fails of the code: under every NFC that sends U+212B to U+00C5 there is a valid record whose only fact is the text U+212B, and it decodes to another record |
| `RecordLaws.ComposingCodec` | src/agent_continuity/kernel/canonical.py:26-53 | such an NFC meets all the laws assumed of NFC |
| `RecordLaws.DecodedIsEncoded` | src/agent_continuity/kernel/records.py:521-558 | a stored record is decoded only to a valid record whose encoding it is |
| `RecordLaws.AcceptsEncodings` | src/agent_continuity/kernel/records.py:521-558 | the accepted stored records are exactly the encodings of valid records |
| `RecordLaws.FactsNormal` | src/agent_continuity/kernel/evidence.py:121-131 | facts stay uniquely and canonically sorted, with the same bytes, when their texts are normalised |
| `RecordLaws.EvidenceFieldsRead` | src/agent_continuity/kernel/evidence.py:372-452 | all seventeen fields of evidence stored in NFC are read back |
| `Payloads.EvidenceHolds` | src/agent_continuity/kernel/evidence.py:234-305 | each of the seventeen fields of evidence is written under its own name, and so are the fields of its producer, facts and invalidators |
| `Payloads.CitationHolds` | src/agent_continuity/kernel/citation.py:56-64 | each field of a citation is written under its own name, absent ones as null |
| `Payloads.PathHolds` | src/agent_continuity/kernel/paths.py:246-252 | each field of a path identity is written under its own name |
| `KernelRecords.CitationWritten` | src/agent_continuity/kernel/citation.py:56-132 | a valid citation's payload is in canonical form and decodes to the citation |
| `Normalizers.NormalizeAuditDetails` | src/agent_continuity/store/base.py:63-128 | the recursive loops over fields and items compute the details normalisation |
| `AuditDetails.DetailsFixed` | src/agent_continuity/store/base.py:63-128 | normalising audit details twice is normalising once, at every depth |
| `AuditDetails.DetailsKept` | src/agent_continuity/store/base.py:63-128 | normalised details are the given ones up to the order of members and of list items, at every depth: no value is lost, changed or added |
| `Drafts.DetailsNormal` | src/agent_continuity/store/base.py:63-128 | normalised details of a canonical value are in canonical form |
| `Drafts.DraftConstructed` | src/agent_continuity/store/base.py:170-206 | a draft can be constructed exactly when kind, time and canonicalised details are admissible, and then passes what replay checks of an event |
| `Normalizers.NormalizeRequest` | src/agent_continuity/store/sqlite.py:176-225 | the three loops over records, local values and head updates compute the plan or the first refusal |
| `Drafts.PlannedExactly` | src/agent_continuity/store/sqlite.py:176-225 | a request is planned exactly when records and local values match their digests, local values are approved and allowed, nothing is supplied twice and some head is updated |
| `StoreLaws.MoveHeadsAt` | src/agent_continuity/store/sqlite.py:1049-1070 | after the head updates of an event each named head is at its new record and this event, and every other head is where it was |
| `StoreLaws.HeadsRise` | src/agent_continuity/store/sqlite.py:1267-1281 | once an event has moved a head, its sequence stays above that event's position |
| `StoreLaws.SignaturesDiffer` | src/agent_continuity/store/sqlite.py:786-814 | no two events of a verified log have the same transaction signature |
| `StoreLaws.AppendedRowOk` | src/agent_continuity/store/sqlite.py:1025-1075 | the event an admitted transaction appends passes every check of replay |
| `StoreLaws.CommitEffect` | src/agent_continuity/store/sqlite.py:1009-1075 | an admitted transaction adds just the supplied records and local values, moves exactly the heads it names to its own event, and appends one linked event, each field of which is stated: details, kind, time, subject and store of the request, its head updates, its local and record identifiers in order, and those it inserted |
| `StoreLaws.CommitKeepsVerified` | src/agent_continuity/store/sqlite.py:956-1092 | an admitted transaction leaves tables that verify again, trusted anchor included |
| `Consistency.VerifiedExactly` | src/agent_continuity/store/sqlite.py:1140-1327 | verification accepts exactly the tables whose every event, by its position, is chained to the one before, well-formed, inserts only new records, refers only to records there, expects each head where the last event to move it put it, and whose records, local values and heads are just what the events say |
| `StoreRuns.RunKeeps` | src/agent_continuity/store/sqlite.py:956-1327 | in every run from verified tables every state is verified and later logs extend earlier ones |
| `StoreRuns.RecordsPartitioned` | src/agent_continuity/store/sqlite.py:1224-1300 | the record table is the disjoint union of the identifiers the events inserted |
| `StoreRuns.LocalsFromGenesis` | src/agent_continuity/store/sqlite.py:1242-1304 | local values are exactly those of event 1 |
| `StoreRuns.HeadsAreLastWritten` | src/agent_continuity/store/sqlite.py:1267-1296 | each head is exactly what the last event to move it installed |
| `StoreRuns.Resubmitted` | src/agent_continuity/store/sqlite.py:816-855 | resubmitting a request whose event is in the log returns that event's receipt while all its heads are its own, and is refused otherwise |
| `Retries.SignatureFields` | src/agent_continuity/store/sqlite.py:786-814 | two events have one signature exactly when details, head updates, kind, local identities, time, record identifiers, store and subject all agree |
| `Retries.SignatureMeaning` | src/agent_continuity/store/sqlite.py:786-814 | an event of a verified log has the signature of a request exactly when it holds each field of the request |
| `Retries.RetriedExactly` | src/agent_continuity/store/sqlite.py:816-1008 | a request is answered as a retry exactly when some event of the log holds each of its fields and all its heads are where that event put them |
| `Retries.RetryReceipt` | src/agent_continuity/store/sqlite.py:816-855 | the receipt of a retry names each head of the request once, where that event put it, and what the event inserted |
| `Retries.DecidedExactly` | src/agent_continuity/store/sqlite.py:969-1075 | what a request that is no retry meets, in the order of the checks: refused for local values after the first event, else as a conflict exactly when a head is not where it expects it, else as an integrity failure exactly when a record differs from a stored one, the subject or a new head is no record, or the event identifier is taken, and otherwise admitted |
| `Retries.AppendedHolds` | src/agent_continuity/store/sqlite.py:1025-1075 | the event an admitted request appends holds each field of the request, linked to the event before it, with the identifiers it inserted |
| `StoreRuns.HeadNeverReturns` | src/agent_continuity/store/sqlite.py:838-846 | once a head has moved on from what an event installed, no extension of the log brings that head state back |
| `StoreRuns.RetryLaw` | src/agent_continuity/store/sqlite.py:816-1008 | after an admitted transaction and any run of later ones the same request gets the original receipt exactly while its heads have not moved; once one has moved it is refused at that state and at every later one |
| `StoreRuns.AnchorPermanent` | src/agent_continuity/store/sqlite.py:1307-1323 | an anchor of verified tables matches after every run from there |
| `StoreRuns.AnchorBinds` | src/agent_continuity/store/sqlite.py:1194-1323 | two verified states of one store that match an anchor agree on all events up to it and on what replaying them gives, or exhibit two payloads with one event identifier |
| `SqliteStore.SQLiteStateStore.ReplayHeads` | src/agent_continuity/store/sqlite.py:1267-1281 | the inner replay loop accepts exactly sorted updates that expect the heads so far and name available records |
| `SqliteStore.SQLiteStateStore.ReplayEvents` | src/agent_continuity/store/sqlite.py:1186-1283 | the replay loop computes the replay of the log, or nothing when a row fails a check |
| `SqliteStore.SQLiteStateStore.VerifyState` | src/agent_continuity/store/sqlite.py:1140-1327 | valid exactly when metadata, records, local values, every event row (those that do not decode included) and heads verify and the anchor matches; reports the last event |
| `SqliteStore.SQLiteStateStore.VerifyAudit` | src/agent_continuity/store/sqlite.py:1342-1377 | valid exactly when the tables verify and the supplied and the trusted anchor match |
| `SqliteStore.SQLiteStateStore.MakeAnchor` | src/agent_continuity/store/sqlite.py:1379-1396 | succeeds exactly on a nonempty verified log matching the trusted anchor, and the anchor matches |
| `SqliteStore.SQLiteStateStore.FindRetry` | src/agent_continuity/store/sqlite.py:816-855 | the search from the newest event finds the newest one with this signature whose heads have not moved |
| `SqliteStore.SQLiteStateStore.InsertRecords` | src/agent_continuity/store/sqlite.py:857-895 | adds exactly the absent records and lists them in order, or stops exactly on a contradiction |
| `SqliteStore.SQLiteStateStore.UpsertHeads` | src/agent_continuity/store/sqlite.py:1049-1070 | moves the heads as the replay of the event will, and lists them |
| `SqliteStore.SQLiteStateStore.WriteRows` | src/agent_continuity/store/sqlite.py:1009-1024 | writes records and local values, or stops on a contradiction, an absent subject or head record, or a fault |
| `SqliteStore.SQLiteStateStore.Write` | src/agent_continuity/store/sqlite.py:1009-1075 | the writes of a transaction: all of them, or none after a late refusal or a fault |
| `SqliteStore.SQLiteStateStore.Transact` | src/agent_continuity/store/sqlite.py:969-1075 | a transaction follows the decision on its request and leaves the tables alone unless it commits |
| `SqliteStore.SQLiteStateStore.ReconcileCommitted` | src/agent_continuity/store/sqlite.py:1094-1138 | readback succeeds exactly when the tables verify, the last event is the receipt's, its heads are in place and its records stored |
| `SqliteStore.SQLiteStateStore.CommitMany` | src/agent_continuity/store/sqlite.py:956-1092 | refusals, retries and faults before COMMIT change nothing; a commit appends exactly one event for good and leaves verified tables, on which the transactions before its readback then act in order; the call reports success exactly when none of them is admitted to the tables it left |
| `SqliteStore.AfterAllUnchanged` | src/agent_continuity/store/sqlite.py:956-1092 | requests acting in order leave the tables alone exactly when none of them is admitted to the tables as they are; otherwise the log grows |
| `Overtaken.CommitOvertaken` | src/agent_continuity/store/sqlite.py:1080-1092 | a committed transaction reported as a failure: for every store, every two heads and every hash that tells two records and two events apart, two requests on the empty store that share nothing, each storing a record that passes validation, the second between COMMIT and readback of the first; the first call reports an integrity failure while its event and head are in place |
| `Overtaken.TheirsAdmitted` | src/agent_continuity/store/sqlite.py:991-1008 | the second request of that run is admitted after the first, so the failure is not caused by it |
| `Overtaken.RecordsValid` | src/agent_continuity/store/sqlite.py:158-173 | the two records of that run pass the validation of stored records: canonical bytes of an object under nonempty ASCII types and versions |
| `SqliteStore.ReadbackSucceeds` | src/agent_continuity/store/sqlite.py:1094-1138 | reading back at once after a commit succeeds |
| `SqliteStore.ReadbackOvertaken` | src/agent_continuity/store/sqlite.py:1114-1125 | once another event is in the log, reading back an earlier one fails |
| `Session.CommitGrows` | src/agent_continuity/store/sqlite.py:956-1092 | whatever a commit reports, the log and the records only grow and the tables stay verified |
| `SessionLaws.ReceiptTruthful` | src/agent_continuity/api.py:478-514 | a receipt names an event of the log that installed the requested record, also on a retry |
| `SessionLaws.NextKeeps` | src/agent_continuity/api.py:452-801 | every step of every caller keeps the session invariant |
| `SessionLaws.Safety` | src/agent_continuity/api.py:452-801 | in every state of every interleaving of initialize and checkpoint calls with stale reads, faults and other transactions: verified tables, linked checkpoints, truthful receipts |
| `History.LogIsLinear` | src/agent_continuity/kernel/checkpoint.py:317-348 | each event that moves the session head installs a checkpoint whose parent is the record and whose audit parent is the event of the move before it, with its protected fields; the first one has neither parent |
| `History.SessionIsLinear` | src/agent_continuity/kernel/checkpoint.py:317-348 | the head is the tip of one linear chain: parent, audit parent and protected fields as they should be, and exactly one checkpoint without parent |
| `History.EveryStateIsLinear` | src/agent_continuity/api.py:700-801 | every reachable state has such a session, for any interleaving of any number of callers |
| `History.InitializeAgain` | src/agent_continuity/api.py:519-550 | an initialize with the intent of the first checkpoint is reconciled to the current head, however many checkpoints later; any other intent is refused as already initialized |
| `Initialization.InitializeRaced` | src/agent_continuity/api.py:477-514 | an initialize that read no head and whose commit meets one, in any state other calls lead to: nothing is written; a success of the commit is the current head, made of this call's genesis; the call ends with the current head for the session's intent, with already-initialized for another, and else with the store's failure |
| `Initialization.RacedDecidedByIntent` | src/agent_continuity/api.py:477-514 | with a writable store, a matching anchor, a plannable request, no fault and no shared identifier, the raced call succeeds exactly when the session was begun for its intent and is refused as already initialized otherwise |
| `Initialization.CommitFindsNone` | src/agent_continuity/api.py:477-514 | an initialize whose commit finds no head reports success only for the checkpoint it installed, and then the session is begun for its intent; it is never a conflict |
| `Initialization.GenesisWritten` | src/agent_continuity/api.py:452-514 | what a commit that begins the session leaves: a head without parents over the identifiers of the intent, with the call's creation time; the intent and every record that came with it; an event of kind initialize with the call's time, details, subject and local values |
| `Initialization.EndedTruthful` | src/agent_continuity/api.py:469-514 | every answer of initialize in every reachable state: success names the current head of a session begun for its intent, already-initialized a session begun for another, up to a shared identifier; over a head nothing is written |
| `Initialization.FirstIntentStays` | src/agent_continuity/api.py:519-550 | what a session was begun for never changes while the store grows |
| `Initialization.InitializeAgreement` | src/agent_continuity/api.py:452-514 | agreement over whole interleavings: however many calls of initialize race, all that succeed were made for one intent and every one refused as already initialized for another, or two stored contents share an identifier |
| `History.UncontendedCheckpoint` | src/agent_continuity/api.py:736-794 | a checkpoint committed over the current head is never a conflict and never a retry: it is admitted exactly when the store is writable, the anchor matches and no two contents or events share an identifier |
| `History.FirstInitialize` | src/agent_continuity/api.py:477-486 | the first initialize of a store is admitted whenever its request can be planned |
| `Continuities.Continuity.Initialize` | src/agent_continuity/api.py:469-514 | with rivals between read and commit and between COMMIT and readback: over a head found at either point nothing is written and the intent decides the answer; a commit that finds none and succeeds has begun the session with all it brought; every success names the current head of a session begun for its intent, every already-initialized one begun for another |
| `Continuities.Continuity.Checkpoint` | src/agent_continuity/api.py:700-801 | with rivals before each commit and between its COMMIT and readback: unavailable exactly without a head, refused when the captures do not admit the transition; alone it succeeds exactly when the store is writable, the anchor matches, no identifier is shared, nothing interrupts the commit and no rival gets in before readback, and then the new head is a child of the one read, created at the time of the attempt that went through and installed by an event of kind checkpoint with that time and its details; a moved head is reported only after losing all three attempts to other commits; the session stays linked |
| `Continuities.Continuity.TryCheckpoint` | src/agent_continuity/api.py:700-794 | one attempt of the loop: it is repeated only after a rival moved the head between its read and its commit; on success record and event carry its time and details |
| `Continuities.RivalsKeep` | src/agent_continuity/api.py:452-801 | any sequence of rivals, each acting on what the ones before left, keeps the tables verified and the session linked |
| `Continuities.ChildStored` | src/agent_continuity/kernel/checkpoint.py:317-348 | a committed child is linked to the head it was built over, whether it went in now or before |
| `Selection.SelectCheckpoint` | src/agent_continuity/api.py:636-664 | terminates on every store, looped parent links included; finds exactly the checkpoints on the chain of loadable records, and otherwise fails exactly when the chain runs into an unreadable record |
| `Selection.ChainLoops` | src/agent_continuity/api.py:651-664 | once a checkpoint recurs the chain only visits those seen before |
| `Selection.SelectsHistory` | src/agent_continuity/api.py:636-664 | in a session a checkpoint is selectable exactly when it once was the head, and the walk never fails |
| `GitPaths.SplitJoin` | src/agent_continuity/capture/_git_proof.py:99-109 | splitting at slashes inverts joining of parts without slashes |
| `GitPaths.RepoPathExactly` | src/agent_continuity/capture/_git_proof.py:99-109 | the admissible paths are one to 128 names joined by slashes, none of them empty, one or two dots or .git |
| `RawIndex.EntryLayout` | src/agent_continuity/capture/_git_proof.py:221-264 | where an entry holds what: the mode word of a regular, executable or linked file, the saturated length, the path, and one to eight NULs that fill a multiple of eight bytes |
| `RawIndex.ModeWords` | src/agent_continuity/capture/_git_proof.py:264-274 | just three mode words are read: regular files with permissions 644 and 755, and symbolic links |
| `RawIndex.ParseEncodedEntry` | src/agent_continuity/capture/_git_proof.py:221-264 | an encoded entry is read back and what follows it is left |
| `RawIndex.EncodeParsedEntry` | src/agent_continuity/capture/_git_proof.py:221-264 | bytes read as an entry are the encoding of that entry: saturated length, NUL padding to a multiple of eight, no flags |
| `RawIndex.ParserIsInverse` | src/agent_continuity/capture/_git_proof.py:200-294 | a file parses to an index exactly when it is the encoding of that well-formed index with its digest (section Index entry of gitformat-index) |
| `IndexParser.ParseRawEntry` | src/agent_continuity/capture/_git_proof.py:221-264 | the step by step reader of one entry agrees with the entry parser; reads stay in bounds and the offset advances |
| `IndexParser.ParseExtensions` | src/agent_continuity/capture/_git_proof.py:280-293 | the extension loop accepts exactly nothing or one TREE extension that fills the rest |
| `IndexParser.ParseRawIndex` | src/agent_continuity/capture/_git_proof.py:200-294 | the whole loop returns the entries of the encoded index and refuses all other data and formats |
| `IndexParser.AcceptsEncodedOnly` | src/agent_continuity/capture/_git_proof.py:200-294 | the parser succeeds exactly on the image of the encoder |
| `Worktree.ItemsEnd` | src/agent_continuity/capture/_git_proof.py:328-413 | the walk over a directory succeeds exactly when every leaf is recorded as it is, every directory is allowed and no limit is exceeded, and then has seen exactly the leaves below |
| `CleanProof.CleanExactly` | src/agent_continuity/capture/_git_proof.py:310-422 | on a stable tree the proof succeeds exactly when, within the limits, what can be looked up below the root outside the root's .git is just what the index records: files by path, mode and blob id, the directories they lie in, and nothing else |
| `Lookup.PlacesExactly` | src/agent_continuity/capture/_git_proof.py:328-371 | what the walk passes is exactly what a lookup, name by name, finds below the root, but for the names that start with the root's .git |
| `Lookup.LimitsExactly` | src/agent_continuity/capture/_git_proof.py:333-371 | the limits on depth, file size, items, path bytes and file bytes are those of what can be looked up, with the root's .git counted but not entered |
| `Lookup.AllowedExactly` | src/agent_continuity/capture/_git_proof.py:316-321 | a directory is allowed exactly when some recorded path goes on from it with a slash |
| `CleanProof.ByPathRecords` | src/agent_continuity/capture/_git_proof.py:310-315 | of several entries for one path the last is compared |
| `CleanProof.ParsedPathsDistinct` | src/agent_continuity/capture/_git_proof.py:266-268 | a parsed index never lists a path twice |
| `CleanProof.HeadIndexWorktree` | src/agent_continuity/capture/_git_proof.py:301-422 | with the comparison of HEAD and index: both proofs succeed exactly when HEAD, index and worktree hold the same files |
| `TreeWalker.Walk.VisitLeaf` | src/agent_continuity/capture/_git_proof.py:372-386 | a leaf is accepted exactly when type, executable bit, blob id and sizes fit, and its bytes are kept |
| `TreeWalker.Walk.VisitDirectory` | src/agent_continuity/capture/_git_proof.py:328-413 | the recursive walk over counters and sets computes the walk function |
| `TreeWalker.ProveCleanWorktree` | src/agent_continuity/capture/_git_proof.py:310-422 | succeeds exactly when, within the limits, the tree outside the root's .git holds just the recorded files and the directories they lie in, by lookup of names; returns for every recorded path bytes with the recorded blob id |
| `TreeWalker.ProveCapture` | src/agent_continuity/capture/git.py:871-897 | the proof as a capture makes it, from the raw index bytes: it succeeds exactly when the index parses, Git lists the same entries, HEAD, index and worktree hold the same supported files within the limits and the directories are just those they need; the contents returned have the recorded blob ids |
| `Verdicts.FindingsFromInvalidations` | src/agent_continuity/kernel/findings.py:76-109 | one finding for each outcome that is not current, in order |
| `Verdicts.Evaluate` | src/agent_continuity/kernel/evaluation.py:79-113 | computes the evaluation of the supplied findings and those of the propagated outcomes, or the refusal of inconsistent identifiers |
| `Verdicts.SortKeyInjective` | src/agent_continuity/kernel/evaluation.py:91-99 | the sort key identifies a finding |
| `Verdicts.OrderIndependent` | src/agent_continuity/kernel/evaluation.py:79-113 | the result is the same for every permutation of the findings |
| `Verdicts.EvaluationOrderIndependent` | src/agent_continuity/kernel/evaluation.py:79-113 | with evidence too, the result or the error is the same for every permutation of the findings handed in |
| `Verdicts.VerdictMeaning` | src/agent_continuity/kernel/evaluation.py:79-113 | block outweighs unknown, unknown warn, and warn pass; the transition is allowed exactly without integrity failure and, for guard, without unknown and block, for strict, with nothing but pass; every finding is kept, by rising severity and then by canonical bytes |
| `Verdicts.FindingTells` | src/agent_continuity/kernel/findings.py:76-109 | the finding of an outcome names its record, code, causes and path, and blocks exactly when the record is invalidated |
| `Verdicts.VerdictIsHighest` | src/agent_continuity/kernel/evaluation.py:100-104 | the verdict is the highest rank present, or pass |
| `Verdicts.AllowedWhenCurrent` | src/agent_continuity/kernel/evaluation.py:105-112 | with evidence and no other findings guard and strict allow the transition exactly when every record's propagated state is current |
| `Verdicts.EvaluatedDecision` | src/agent_continuity/kernel/evaluation.py:79-113 | from evidence to decision: block exactly when a dependency path off every cycle leads to a directly invalidated record, else unknown exactly when some record is on a cycle or such a path leads to a source of doubt, else pass; guard and strict allow the transition exactly when it passes |

## Left out

- Operating-system I/O: file descriptors, stat identities, locators, state roots, locks, SQLite connections, pragmas, sidecars and schema identity. Tables and the directory tree are values; a transaction is atomic or rolled back at a named fault point.
- How the bytes of an event are taken apart: a row of the log carries what its bytes decode to, and whether they do; rows that do not are refused.
- Anchor labels and creation times: they are carried along and never compared.
- Git subprocesses, `parse_tree` and `parse_index` of Git's text output, and manifests of the worktree proof: only the raw index, the walk and the comparisons are modelled; object and tree hashes are arbitrary functions.
- Capture of snapshots A, B and C in `initialize` and `checkpoint`: reduced to an arbitrary admission of the transition.
- Texts of field names and vocabulary words in kernel records and findings: any printable ASCII naming in the alphabetical order of the real names, so results hold for the real names among others.
- Lone surrogates, Python's limit on digits of an integer, and the messages of errors; every audit-details refusal is one error.
- Remaining record types (actors, goals, policies, rulesets), policy files, capability claims, the command line and JSON Schema tooling: field by field validation.
- Fields of a checkpoint beyond the linked and protected ones are one opaque component that is copied.
- TreeWalker.Walk.VisitDirectory: does not model the comparisons before and after each directory, nor the deadline, because the tree does not change during the walk; nor the entries of the two manifests.
- TreeWalker.ProveCleanWorktree: does not return the two manifests, which list stat identities next to what was proved; the contents are returned.
