# Verified model of the NFX collection pipeline

NFX collects Brazilian fiscal documents for companies. This project models the part of it that has to
survive crashes, lost leases and retries, and proves what that part keeps:

- **Ingestion and checkpoints** (`Ingestion*.dfy`): a response is registered as a page, its units are stored
  as artifacts and recorded as documents, and the page is finished by a compare-and-swap on the scope's
  continuation position. `Ingestion` holds the tables and one function for each transaction,
  `IngestionCalls` the whole calls, `IngestionSteps` every interleaving of the transactions,
  `IngestionRuns` calls that do not overlap, `IngestionReplay` uninterrupted and interrupted calls,
  `IngestionContent` what content is stored when a position moves, `IngestionAnswers` what calls tell their
  caller, `IngestionOutcomes` and `IngestionRows` where pages, positions and unit rows end up for every
  input, `IngestionLimits` and `IngestionWitnesses` the places where the plain reading fails and runs that
  reach them, `IngestionService` the service class.
- **Artifacts, documents and identity keys** (`Artifacts`, `EvidenceStore`, `IdentityKeys`): write-once
  blobs, the evidence attached to documents and events, and the text keys that identify them.
- **The job engine** (`JobEngine`, `JobRows`, `JobFencing`, `JobRuns`, `JobWorkers`): leases, the finalize that decides
  on an unlocked read, the retry budget and backoff, and `process_one`.
- **Collection commands** (`Collection`, `CollectionRuns`, `CollectionLaws`, `CollectionOutcomes`,
  `CollectionService`):
  executions and company flows kept in step with the job table.
- **The Ciência to complete-XML gate** (`ScienceGate`, `FollowUp`), the **audit hash chain** (`AuditChain`) and
  the **merged pagination** of documents and quarantined units (`Pagination`).

Tables are append-only sequences and a row's id is its index, which is also its creation order. Clock
readings, jitter, object-store answers, handler outcomes and the rows locked by other transactions are
arguments, so every theorem holds for all of them. Time is an integer number of seconds and no monotonic
clock is assumed. A transaction that raises leaves the tables unchanged. The content hash (SHA-256, section
6.2 of FIPS 180-4) is a function parameter; only the tamper-evidence theorems ask it to be injective.
The classes hold the tables as fields; each method is proved equal to the function that specifies its
transaction, and the theorems are about those functions, over all runs of them.

`dafny verify dfyconfig.toml` checks the project.

## What turned out different from the plain reading

Each of these is proved, with the exact condition where there is one.

- A position can move although content its response names was never stored: a row that is already settled
  is skipped by its registered hash, whatever its artifact holds. The content of a moving response is stored
  if and only if every row it finds settled already points at that content and it names one hash for each
  identity (`IngestionContent.MoveStoresContent`, `IngestionContent.MoveRecordsContent`); three calls that
  fail the condition are `IngestionWitnesses.ContentNeverStored`.
- A changed content hash on resume is never stored (`IngestionLimits.HashNeverUpdated`), so a terminal row
  keeps a hash that describes its artifact exactly when the treated content was the registered one
  (`IngestionLimits.StoredHashDescribes`).
- A call that dies between registering and finishing a page leaves it to `reconcile`, which does not ask
  about the failure outcome: a timeout without units then moves the position
  (`IngestionReplay.CrashAfterRegister`, `IngestionWitnesses.TimeoutMoves`).
- A call that dies after reopening a page is judged by unit counts only, so a position can move although the
  new units were never registered (`IngestionReplay.CrashAfterReopen`, `IngestionWitnesses.UnitNeverRegistered`).
- "All units terminal" is a fact about the moment of the move (`IngestionLimits.TerminalUnitLost`,
  `IngestionWitnesses.TerminalUnitLostAfterMove`).
- A last ADN page resets the position to "", and the scope then never moves again
  (`IngestionLimits.ResetExactly`, `IngestionLimits.RevisitIsFinal`, `IngestionWitnesses.ResetEndsScope`).
- A repeated `ingest` leaves the tables alone but answers `advanced` differently exactly after a last page
  (`IngestionAnswers.RepeatedAnswer`).
- The total backoff bound initial * (2^r - 1) holds of every run of a policy without jitter and expiries if
  and only if the cap is the initial delay or at most one retry is allowed; otherwise a cooldown breaks it
  (`JobRuns.BackoffBoundExactly`, `JobRuns.CooldownStretchesBackoff`; the bound that always holds is
  `JobRuns.RetryBudget`).
- A retry command never creates an execution (`CollectionLaws.RetryNeverCreates`).
- A handler that raises or is not registered leaves the job blocked under an active execution exactly when
  the attempts are exhausted, and the flow is then stuck; before that, job and execution agree exactly when
  the execution was already waiting (`CollectionLaws.AgreementExactly`, `CollectionLaws.GivenUpStrands`,
  `CollectionLaws.StrandedIsReachable`, `CollectionLaws.StrandedStays`).
- Following the pagination cursor shows every row for every page size if and only if no selected unit shares
  the identifier of a selected document (`Pagination.CompleteExactly`).

## Model

| member | source | states |
|---|---|---|
| IngestionSteps.PositionsMoveOnlyByCas | backend/nfx/collection/ingestion.py:817-933 | under any interleaving a position changes only at the finish of a page of its scope that satisfies all conditions of the compare-and-swap, from its request position to its next position; other scopes and the other position kind stay |
| IngestionSteps.FinishPageMoves | backend/nfx/collection/ingestion.py:832-906 | finishing a page moves the position exactly when it is not parked, all its units are durable, the position is still the requested one and the continuation is not refused |
| IngestionSteps.TakeContinuationMoves | backend/nfx/collection/ingestion.py:865-906 | the same for the tail after the compare succeeded |
| IngestionSteps.MovesForward | backend/nfx/collection/ingestion.py:877-901 | a move never stays put, and for ADN never lowers a trailing number |
| IngestionSteps.StepKeepsEvidence | backend/nfx/collection/ingestion.py:725-792 | every step keeps: terminal units point at stored content with the checked digest and a recorded document |
| IngestionSteps.EvidenceBeforeProgress | backend/nfx/collection/ingestion.py:725-906 | in every reachable state, under any interleaving, terminal units are evidenced, and stored content never changes later |
| IngestionSteps.MoveHasEvidence | backend/nfx/collection/ingestion.py:832-906 | at the step that moves a position every unit of the page is terminal and evidenced |
| IngestionRuns.NoCycling | backend/nfx/collection/ingestion.py:479-551 | without overlap the positions left by a scope form a linked chain from "" without repeats, with at most one move for each page, whatever the source returns and wherever calls die |
| IngestionRuns.HistoryInvariant | backend/nfx/collection/ingestion.py:476-551 | the invariant behind it: unique page keys, moved pages closed and distinct |
| IngestionRuns.IngestRun | backend/nfx/collection/ingestion.py:349-395 | an uninterrupted ingest is a run of the protocol's steps |
| IngestionRuns.ReconcileRun | backend/nfx/collection/ingestion.py:397-474 | an uninterrupted reconcile is a run of the protocol's steps |
| IngestionReplay.CallsAreAllowed | backend/nfx/collection/ingestion.py:349-474 | calls one after the other are runs to which the no-cycling theorem applies |
| IngestionReplay.IngestTwice | backend/nfx/collection/ingestion.py:349-567 | ingesting the same response twice leaves every table as once, from any store and whatever the outside world does the second time |
| IngestionReplay.IngestLeavesPage | backend/nfx/collection/ingestion.py:476-551 | an ingest leaves a page for its key that the same response cannot resume |
| IngestionReplay.CrashFreeRunsSound | backend/nfx/collection/ingestion.py:191-474 | over all crash-free runs a closed page has a success, duplicate, empty or unknown last response |
| IngestionReplay.IngestMovesOnlyConclusive | backend/nfx/collection/ingestion.py:362-395 | ingest never moves a position on a failure or partial response |
| IngestionReplay.ReconcileGood | backend/nfx/collection/ingestion.py:397-474 | reconcile leaves closed pages alone and moves a position only by closing a page whose last response was conclusive |
| IngestionReplay.ReconcilePageMoves | backend/nfx/collection/ingestion.py:451-474 | exactly when reconcile moves a position through an open page, and then to the page's next position |
| IngestionReplay.CrashAfterRegister | backend/nfx/collection/ingestion.py:451-474 | exactly when a call that died after registering a page lets reconcile move the position |
| IngestionReplay.TimeoutCanAdvanceAfterCrash | backend/nfx/collection/ingestion.py:451-474 | any first NF-e request answered by a timeout without units but with a next cursor, registered by a call that then died: the next reconcile moves the cursor there |
| IngestionWitnesses.TimeoutMoves | backend/nfx/collection/ingestion.py:92-116 | the same for a request the service accepts, as an allowed run from the empty tables |
| IngestionReplay.CrashAfterReopen | backend/nfx/collection/ingestion.py:541-567 | exactly when a call that died after reopening a page lets reconcile move the position; no unit row appears by it |
| IngestionWitnesses.UnitNeverRegistered | backend/nfx/collection/ingestion.py:541-567 | an allowed run from the empty tables with such a death, after which reconcile moves the cursor and the unit of the new response has no row |
| IngestionWitnesses.ContentNeverStored | backend/nfx/collection/ingestion.py:595-606 | three accepted calls after which the cursor has moved, no artifact has the digest the response named, the row keeps that digest beside another artifact, and no later reconcile changes anything |
| IngestionWitnesses.TerminalUnitLostAfterMove | backend/nfx/collection/ingestion.py:397-428 | an orphan event on a page that closed and moved the cursor is failed by the next reconcile while page and cursor stay |
| IngestionWitnesses.ResetEndsScope | backend/nfx/collection/ingestion.py:899-906 | two accepted ADN calls bring the position back to "", and the next initial request moves nothing whatever it is answered |
| IngestionWitnesses.FirstAccepted | backend/nfx/collection/ingestion.py:92-116 | the requests of these runs pass validation |
| IngestionContent.MoveStoresContent | backend/nfx/collection/ingestion.py:349-395 | when an ingest in any reachable state, under any interleaving before it, moves a position: every unit of its response has a terminal row of the page whose artifact has the unit's own digest, if and only if the response names one hash for each identity and every row it finds settled already had an artifact with that hash |
| IngestionContent.MoveRecordsContent | backend/nfx/collection/ingestion.py:349-395 | without overlap, under the same condition and no other, the document or event of each unit that was not quarantined holds that content too |
| IngestionContent.IdentitiesUnique | backend/nfx/collection/ingestion.py:569-593 | in every reachable state a page has at most one row for an identity |
| IngestionContent.UnitsAccounted | backend/nfx/collection/ingestion.py:372-378 | processing a response leaves a row of its page as it was exactly when each unit that names it skips it; otherwise, if terminal, the row was linked and treated for the hash of one of them |
| IngestionOutcomes.IngestMovesExactly | backend/nfx/collection/ingestion.py:349-395 | an ingest moves its scope's position if and only if it runs its page, the answer is conclusive (no failure, not partial, not unknown without units), every treatment and every row of the page is terminal and the rows are as many as the units, the position is the page's requested one and the continuation is acceptable and changes it; then to the response's own next position, with the page closed |
| IngestionOutcomes.IngestExactly | backend/nfx/collection/ingestion.py:349-395 | where a call that runs its page leaves it: state, outcome, recovery and reason for each kind of failure, for partial and unknown answers, unfinished or missing units, a stale checkpoint, a refused continuation and a closed page; what happens to the position, the last page and every other scope and page |
| IngestionOutcomes.RunsExactly | backend/nfx/collection/ingestion.py:349-371 | exactly when a call runs its page; otherwise nothing moves and at most a parked page is added, with its reason |
| IngestionOutcomes.OpenedExactly | backend/nfx/collection/ingestion.py:476-567 | what a new or reopened page carries |
| IngestionOutcomes.FailureExactly | backend/nfx/collection/ingestion.py:191-287 | page state, outcome, recovery and reason of each failure response |
| IngestionOutcomes.SafeReasonExactly | backend/nfx/collection/ingestion.py:180-183 | which reasons are safe |
| IngestionOutcomes.ObjectionExactly | backend/nfx/collection/ingestion.py:865-898 | a continuation is refused exactly when it repeats the request or lowers an NSU number |
| IngestionOutcomes.TreatmentsAreRows | backend/nfx/collection/ingestion.py:372-378 | when no identity is named twice, each treatment is the state its row is left in |
| IngestionOutcomes.DoneWhenStored | backend/nfx/collection/ingestion.py:372-395 | so, for a reachable state and such a response, terminal rows are all the units need for the move |
| IngestionOutcomes.RefusedRequests | backend/nfx/collection/ingestion.py:92-116 | exactly which requests and answers raise |
| IngestionRows.UnitExactly | backend/nfx/collection/ingestion.py:595-723 | the treatment of a unit: untouched when settled; otherwise one more attempt and a row that failed for want of its content, or points at it and is failed, quarantined or as `persist_document` answered, with outcome, recovery, reason and references |
| IngestionRows.RegisteredExactly | backend/nfx/collection/ingestion.py:569-593 | the row a unit is registered with, or reopened by another hash |
| IngestionRows.ObtainExactly | backend/nfx/collection/ingestion.py:725-748 | which artifact row a content key yields and what becomes of the rows |
| IngestionRows.KeyNamesContent | backend/nfx/collection/ingestion.py:731-735 | units of one identity share an artifact key exactly when they share the content hash |
| IngestionRows.ParentExactly | backend/nfx/collection/ingestion.py:624-637 | the parent is the document of the oldest unit of that identity that has one |
| IngestionRows.ReplayExactly | backend/nfx/collection/ingestion.py:412-428 | a stored unit is retried as registered, under its flow without the follow-up suffix |
| IngestionRows.RetryExactly | backend/nfx/collection/ingestion.py:412-450 | what the retry of one unit does to its page |
| IngestionRows.ReplayFinishExactly | backend/nfx/collection/ingestion.py:429-474 | what judging an open page by its rows makes of it |
| IngestionRows.OpenPagesExactly | backend/nfx/collection/ingestion.py:451-454 | exactly the open pages are visited, each once and oldest first |
| IngestionRows.NothingLeftReady | backend/nfx/collection/ingestion.py:451-474 | after reconcile no open page is left whose rows are complete and terminal and whose answer was not partial, except one that expects no units and has some; other pages stay |
| IngestionReplay.IngestStoresBeforeMoving | backend/nfx/collection/ingestion.py:349-395 | when ingest moves a position, every identity of its response has a row of one page that is terminal and evidenced for the hash it was last linked to |
| IngestionReplay.UnitsHaveRows | backend/nfx/collection/ingestion.py:569-593 | every unit of a processed response has a row of its page |
| IngestionLimits.TerminalUnitLost | backend/nfx/collection/ingestion.py:397-428 | reconcile takes a terminal unit back exactly when it was quarantined for a missing parent and its retry fails; a closed page stays closed |
| IngestionLimits.HashNeverUpdated | backend/nfx/collection/ingestion.py:587-593 | no step changes the content hash a unit was registered with |
| IngestionLimits.StoredHashDescribes | backend/nfx/collection/ingestion.py:595-776 | a treatment that ends terminal leaves a row whose registered hash is its artifact's digest exactly when the treated content was the registered one |
| IngestionLimits.RevisitIsFinal | backend/nfx/collection/ingestion.py:479-551 | a scope whose position is one it has already left never moves again |
| IngestionLimits.ResetExactly | backend/nfx/collection/ingestion.py:899-906 | a move resets the position to "" exactly for an NSU family on an empty next NSU |
| Ingestion.ResponseClassified | backend/nfx/collection/ingestion.py:191-287 | a response may advance exactly when it is a success, a duplicate or empty, and then closes its page; otherwise it carries a reason, and a retry is asked exactly for unavailable, timed out and partial answers |
| IngestionReplay.FailureParks | backend/nfx/collection/ingestion.py:817-831 | a failure response parks its page: no later finish changes the page or the position |
| Ingestion.TreatmentsAdvance | backend/nfx/collection/ingestion.py:290-322 | treatments allow advancing exactly when every unit is terminal |
| Ingestion.PositionNumberReads | backend/nfx/collection/ingestion.py:186-188 | a rendered number is read back, alone or after a separator |
| Ingestion.PositionNumberAbsent | backend/nfx/collection/ingestion.py:186-188 | text whose trailing digits are missing or follow anything but a separator has no number |
| Ingestion.DecimalRoundTrip | backend/nfx/collection/ingestion.py:186-188 | decimal text and number round trip |
| Ingestion.SafeReason | backend/nfx/collection/ingestion.py:180-183 | never empty, and safe text is kept |
| Ingestion.FindPage | backend/nfx/collection/ingestion.py:489-496 | the page of a scope and key, or none exists |
| IngestionCalls.ProcessUnit | backend/nfx/collection/ingestion.py:595-723 | the answered state is the row's, the row keeps its page and identity, other rows, pages and checkpoints stay |
| IngestionCalls.Obtain | backend/nfx/collection/ingestion.py:736-742 | an artifact that is handed on is finalized |
| IngestionCalls.CandidatesExactly | backend/nfx/collection/ingestion.py:398-411 | exactly the pending, failed and orphaned rows, or the one asked for among them, are retried, each once and oldest first |
| IngestionService.FiscalIngestionService.OpenPage | backend/nfx/collection/ingestion.py:476-531 | registers a page as specified, or finds it |
| IngestionService.FiscalIngestionService.FreshPage | backend/nfx/collection/ingestion.py:497-528 | the new page row, parked at once when it was not requested at the checkpoint's position |
| IngestionService.FiscalIngestionService.ReopenPage | backend/nfx/collection/ingestion.py:553-567 | reopens a page for a changed response |
| IngestionService.FiscalIngestionService.ReceiveUnit | backend/nfx/collection/ingestion.py:569-593 | registers a unit or marks a changed hash pending |
| IngestionService.FiscalIngestionService.EnsureStored | backend/nfx/collection/ingestion.py:725-748 | finds or stores the artifact of a unit and links it |
| IngestionService.FiscalIngestionService.MarkFailed | backend/nfx/collection/ingestion.py:778-792 | records a failed treatment |
| IngestionService.FiscalIngestionService.RecordTreatment | backend/nfx/collection/ingestion.py:750-776 | records a finished treatment, keeping earlier references |
| IngestionService.FiscalIngestionService.TreatUnit | backend/nfx/collection/ingestion.py:595-723 | treats one unit as specified |
| IngestionService.FiscalIngestionService.RecordContent | backend/nfx/collection/ingestion.py:623-712 | finds the parent of an event, persists the document and judges the answer as specified |
| IngestionService.FiscalIngestionService.ClosePage | backend/nfx/collection/ingestion.py:804-933 | finishes a page and answers as specified |
| IngestionService.FiscalIngestionService.Continue | backend/nfx/collection/ingestion.py:865-906 | refuses or takes the continuation as specified, and says whether a next position was taken |
| IngestionService.FiscalIngestionService.TakePage | backend/nfx/collection/ingestion.py:874-906 | closes the page and advances the position of its family |
| IngestionService.FiscalIngestionService.CheckContinuation | backend/nfx/collection/ingestion.py:865-898 | refuses exactly repeated cursors, repeated NSUs and falling NSU numbers |
| IngestionService.FiscalIngestionService.RunUnits | backend/nfx/collection/ingestion.py:372-378 | the unit loop equals its specification |
| IngestionService.FiscalIngestionService.Ingest | backend/nfx/collection/ingestion.py:349-395 | the whole call, with its answer, equals its specification |
| IngestionService.FiscalIngestionService.PageResult | backend/nfx/collection/ingestion.py:935-950 | the answer for a page that is only looked at |
| IngestionAnswers.IngestAdvances | backend/nfx/collection/ingestion.py:349-395 | ingest answers unless it raises; a call that runs its page answers `advanced` exactly when it moved the position to a new, non-empty one, a call that only looks exactly when the page was finalized before |
| IngestionAnswers.FinishAdvances | backend/nfx/collection/ingestion.py:804-950 | the same for one finish of an open page |
| IngestionAnswers.RepeatedAnswer | backend/nfx/collection/ingestion.py:349-395 | the same call again answers about the same page, and contradicts the first on `advanced` exactly when the first closed the page without a next position |
| IngestionOutcomes.ReplyLists | backend/nfx/collection/ingestion.py:349-395 | which treatments an answer lists: those of the response, or those of the page's rows when the page was only looked at or could not close for missing rows or a stale checkpoint |
| IngestionOutcomes.StatesAre | backend/nfx/collection/ingestion.py:935-938 | the states of a page's rows are listed oldest first |
| IngestionService.FiscalIngestionService.Reconcile | backend/nfx/collection/ingestion.py:397-474 | both loops and the count equal their specification |
| IngestionAnswers.RepairedAreTerminal | backend/nfx/collection/ingestion.py:412-428 | reconcile answers the number of retried units that are terminal when it returns |
| Artifacts.RunKeeps | backend/nfx/artifacts/storage.py:202-297 | over all runs: one finalized row for each logical key, content written once, MISSING and DIVERGENT final, no row lost |
| Artifacts.SecondReconcileFindsNothing | backend/nfx/artifacts/storage.py:391-411 | a second reconciliation of an untouched store changes nothing and counts nothing missing or divergent |
| Artifacts.FinalizedOwner | backend/nfx/artifacts/models.py:48-52 | the finalized row of a logical key, or none exists |
| Artifacts.FlattenMonotone | backend/nfx/artifacts/storage.py:218-226 | a stream that already exceeds the limit exceeds it in whole |
| Artifacts.FlattenJoins | backend/nfx/artifacts/storage.py:115-144 | the bytes of a stream are those of its chunks, in order |
| Artifacts.ArtifactStorageService.Begin | backend/nfx/artifacts/storage.py:202-216 | refuses exactly missing or oversized metadata, otherwise appends a pending row |
| Artifacts.ArtifactStorageService.WriteStream | backend/nfx/artifacts/storage.py:115-144 | stores the whole stream with its hash, or nothing when it exceeds the limit |
| Artifacts.ArtifactStorageService.Transmit | backend/nfx/artifacts/storage.py:218-297 | only a pending row receives bytes; on success the answered row is finalized under the key with the hash and length of the whole stream, it is the own row exactly when nobody owned the key, and its bytes can be read from then on; each failure leaves the rows as they were, and other stored artifacts stay readable |
| Artifacts.FinalizeExactly | backend/nfx/artifacts/storage.py:258-297 | exactly when a row takes content, when the owner of its key is answered, and when it is refused |
| Artifacts.ArtifactStorageService.ReadVerified | backend/nfx/artifacts/storage.py:319-341 | bytes are returned exactly when they match the recorded digest and size, so what was stored is read back; nothing changes |
| Artifacts.ArtifactStorageService.OpenVerified | backend/nfx/artifacts/storage.py:299-317 | the same, and a failed check marks the row |
| Artifacts.ArtifactStorageService.Reconcile | backend/nfx/artifacts/storage.py:396-411 | one pass turns exactly the finalized rows whose object is gone or differs in size or digest, and counts them; stored artifacts stay stored |
| Artifacts.TurnedCounts | backend/nfx/artifacts/storage.py:396-411 | the counts of missing and divergent rows are the numbers of rows turned |
| Artifacts.PendingCounts | backend/nfx/artifacts/storage.py:391-395 | the pending count is the number of pending rows |
| EvidenceStore.RunRefines | backend/nfx/documents/services.py:126-560 | any sequence of calls, with artifacts changing in between, refines maps from document and event keys to what was said first and the distinct digests, with the same reply for each call; rows only grow |
| EvidenceStore.StepRefines | backend/nfx/documents/services.py:126-560 | one call does to the maps of documents and events what the abstract step does, and answers the same |
| EvidenceStore.RecordRefines | backend/nfx/documents/services.py:305-406 | PERSISTED exactly on a new key, REPLAY exactly on a digest already held, CONFLICT otherwise |
| EvidenceStore.PersistKeeps | backend/nfx/documents/services.py:277-560 | `persist_document`, for documents and events, is the abstract step with the same outcome; earlier evidence and identity fields stay, a row is in conflict exactly when some evidence is, and what is accepted is recorded |
| EvidenceStore.PersistedRow | backend/nfx/documents/services.py:305-560 | the row a PERSISTED reply names is new and has exactly the input's names, selected identity, parent, relationship, dates and situation, with one evidence: the given artifact with its digest and size |
| EvidenceStore.InvalidExactly | backend/nfx/documents/services.py:77-124 | the input errors, one by one: everything else is answered with a status |
| EvidenceStore.AttachKeeps | backend/nfx/documents/services.py:126-164 | attaching is the abstract step with the same reply: it adds the artifact's digest to its document's set and changes nothing else |
| EvidenceStore.EventKeysFaithful | backend/nfx/documents/services.py:409-440 | two accepted events share a key exactly when they share parent, names and selected identity |
| EvidenceStore.NewDigestNewArtifact | backend/nfx/documents/services.py:305-406 | a digest the row does not hold comes from an artifact it does not hold, so the unique constraint cannot refuse it |
| EvidenceStore.RecordedStays | backend/nfx/documents/services.py:305-406 | what is recorded stays recorded |
| EvidenceStore.DocumentArchive.FindDigest | backend/nfx/documents/services.py:317-322 | finds a digest exactly when the row holds it |
| EvidenceStore.DocumentArchive.PersistDocument | backend/nfx/documents/services.py:277-303 | persists as specified |
| EvidenceStore.DocumentArchive.RecordDocument | backend/nfx/documents/services.py:305-406 | inserts, replays or conflicts as specified |
| EvidenceStore.DocumentArchive.RecordEvent | backend/nfx/documents/services.py:409-560 | the same for events of an existing, compatible parent |
| EvidenceStore.DocumentArchive.AttachEvidence | backend/nfx/documents/services.py:126-164 | attaches as specified |
| IdentityKeys.DocumentKeyFaithful | backend/nfx/documents/services.py:173-246 | document keys are equal exactly when company, family, role, category, source, flow, identity kind and value are |
| IdentityKeys.EventKeyFaithful | backend/nfx/documents/services.py:409-440 | the same for event keys, with the parent in place of the company |
| IdentityKeys.TripleFaithful | backend/nfx/documents/services.py:180-196 | the joined number, series and issuer are equal exactly when each part is |
| IdentityKeys.JoinInjective | backend/nfx/documents/services.py:231-246 | joining with a bar is injective when only the last part may contain one |
| IdentityKeys.CondenseIdempotent | backend/nfx/documents/services.py:173-177 | normalizing twice is normalizing once |
| IdentityKeys.CondenseCons | backend/nfx/documents/services.py:173-177 | normalizing works character by character: letters become upper case, digits stay, the rest goes |
| IdentityKeys.ReferenceExactly | backend/nfx/collection/ingestion.py:92-116 | references are up to 128 letters, digits and five marks |
| IdentityKeys.UuidExactly | backend/nfx/documents/services.py:75-80 | a UUID is 32 lower-case hex digits in five groups joined by hyphens |
| IdentityKeys.SelectsStrongest | backend/nfx/documents/services.py:180-230 | the official key decides when given, else the external id, else the full triple; insufficient and invalid exactly as stated |
| JobEngine.RunKeeps | backend/nfx/jobs/models.py:139-170 | over all runs by any callers: a lease exactly while RUNNING, unique keys outside COMPLETED, COMPLETED and BLOCKED absorbing, no job lost, attempts never fall |
| JobEngine.ClaimTakesFirst | backend/nfx/jobs/services.py:184-227 | claim leases the first due unlocked job by priority, schedule and creation, exactly when there is one, and leaves no expired job running |
| JobEngine.EnqueueAnswers | backend/nfx/jobs/services.py:121-147 | enqueue fails exactly when the key is held by a BLOCKED job; otherwise it answers with the only open job of the key, and again with the same |
| JobEngine.FirstDue | backend/nfx/jobs/services.py:202-207 | an eligible job that comes before every other, or none is eligible |
| JobEngine.RetryDelay | backend/nfx/jobs/services.py:344-351 | the delay is within [0, cap] and within the jitter of the capped exponential |
| JobEngine.CooldownDue | backend/nfx/jobs/services.py:353-360 | the outcome's own deadline when it names one, else the policy's from now on, and only when it is in the future |
| JobEngine.Reclaim | backend/nfx/jobs/services.py:149-163 | exactly the expired rows are requeued, without regard to the retry limit |
| JobEngine.CompletedBy | backend/nfx/jobs/services.py:252-271 | only a completion or a finalized success completes a job |
| JobFencing.Fencing | backend/nfx/jobs/services.py:229-342 | a worker's renew, complete, fail or finalize takes effect exactly when the job still runs under its unexpired lease; then nobody claimed it since and the attempt count is the claimed one; otherwise nothing changes |
| JobFencing.HoldIsOld | backend/nfx/jobs/services.py:184-242 | a job its owner still holds is the one it held, at the same attempt |
| JobFencing.SplitFinalizeIsAtomic | backend/nfx/jobs/services.py:273-342 | a finalize that reads without a lock and writes later ends as an indivisible finalize at the write, whatever others do in between |
| JobFencing.LeaseNotExtended | backend/nfx/jobs/services.py:229-250 | nobody but the owner moves a lease |
| JobRuns.Invariant | backend/nfx/jobs/services.py:184-388 | the invariant of all runs of any number of workers that may die anywhere |
| JobRuns.OnlyCurrentAttempts | backend/nfx/jobs/services.py:229-342 | whatever a worker changes is at the attempt it claimed |
| JobRuns.RetryBudget | backend/nfx/jobs/services.py:310-351 | attempts stay within 1 + limit + expiries; r delays sum to at most r * cap and to initial * (2^(r + cooldowns + expiries) - 1) plus the jitter |
| JobRuns.TotalBound | backend/nfx/jobs/services.py:344-351 | delays after different attempts up to n sum to at most initial * (2^n - 1) plus the jitter |
| JobRuns.CooldownStretchesBackoff | backend/nfx/jobs/services.py:310-351 | for every policy without jitter whose cap exceeds the initial delay and that allows two retries there is a run with a cooldown that exceeds initial * (2^r - 1) |
| JobRuns.BackoffBoundExactly | backend/nfx/jobs/services.py:310-351 | without jitter and expiries that bound holds of every run of a policy if and only if the cap is the initial delay or at most one retry is allowed |
| JobRuns.PlainBackoff | backend/nfx/jobs/services.py:344-351 | without jitter, cooldowns and expiries r delays sum to at most min(r * cap, initial * (2^r - 1)) |
| JobRuns.Round | backend/nfx/jobs/services.py:184-342 | one retried attempt, from claim to requeue |
| JobWorkers.ConcludeIsRun | backend/nfx/jobs/services.py:391-486 | process_one is a run of worker steps, so fencing and budget hold of it |
| JobWorkers.ConcludeByOneOp | backend/nfx/jobs/services.py:391-486 | the conclusion is at most one transaction, and completes a job only with the plain result or the success the handler returned |
| JobRows.ConcludedExactly | backend/nfx/jobs/services.py:391-486 | which engine call ends process_one for each way the handler can end |
| JobWorkers.ConclusionOf | backend/nfx/jobs/services.py:273-342 | where a job stands after process_one, by outcome, policy and attempt count |
| JobWorkers.Engine.Enqueue | backend/nfx/jobs/services.py:90-147 | enqueues as specified |
| JobWorkers.Engine.ReclaimExpired | backend/nfx/jobs/services.py:149-163 | requeues the expired jobs and counts them |
| JobWorkers.Engine.Recover | backend/nfx/jobs/services.py:165-182 | the same, and counts the due jobs afterwards |
| JobWorkers.Engine.Claim | backend/nfx/jobs/services.py:184-227 | claims as specified |
| JobWorkers.Engine.Renew | backend/nfx/jobs/services.py:244-250 | renews as specified |
| JobWorkers.Engine.Complete | backend/nfx/jobs/services.py:252-271 | completes as specified |
| JobWorkers.Engine.Fail | backend/nfx/jobs/services.py:362-388 | requeues as specified |
| JobWorkers.Engine.Finalize | backend/nfx/jobs/services.py:273-342 | finalizes as specified |
| JobWorkers.Engine.Choose | backend/nfx/jobs/services.py:301-333 | the branches of finalize equal the decision function |
| JobRows.FinalizedExactly | backend/nfx/jobs/services.py:273-342 | finalize by kind of outcome: which row it writes, with all its columns, the deadline of a cooldown, and exactly when it is refused and how |
| JobEngine.FinalizedRow | backend/nfx/jobs/services.py:273-342 | the row a finalize leaves: the lease is gone, a completed row had a success, a blocked one gives its reason as its error, a cooling one is due at the outcome's deadline or else the policy's, a retried one within the cap, nothing else changed |
| JobRows.DelayDoubles | backend/nfx/jobs/services.py:344-351 | without jitter the delay starts at the initial one and doubles with each attempt up to the cap |
| JobRows.DelayJitter | backend/nfx/jobs/services.py:344-351 | jitter shifts it by itself, limited to the policy's jitter and to the range from 0 to the cap |
| JobRows.CodeIs | backend/nfx/jobs/services.py:285-286 | the error code is the outcome's own when it is safe, else its kind or the fallback |
| JobRows.SafeExactly | backend/nfx/jobs/services.py:66-67 | which codes are safe |
| JobRows.EnqueuedRow | backend/nfx/jobs/services.py:90-147 | the row an enqueue adds, and exactly when it finds an open row or refuses |
| JobRows.ReclaimedRows | backend/nfx/jobs/services.py:149-163 | exactly the rows whose lease ran out are given back |
| JobRows.ClaimedRows | backend/nfx/jobs/services.py:184-227 | a claim leases at most one row, for the lease duration and one attempt further, and gives back what ran out |
| JobRows.RenewedRow | backend/nfx/jobs/services.py:229-250 | the row after a renewal, or the refusal |
| JobRows.CompletedRow | backend/nfx/jobs/services.py:252-271 | the row after a completion, or the refusal |
| JobRows.FailedRow | backend/nfx/jobs/services.py:362-388 | the row after a failure, or the refusal |
| JobRows.CountsExactly | backend/nfx/jobs/services.py:149-182 | the reported counts are the numbers of rows whose lease ran out and of rows that are due |
| JobEngine.MarksAgree | backend/nfx/jobs/services.py:290-333 | over all runs a job has a completion time exactly while COMPLETED, a blocking time exactly while BLOCKED, a cooldown deadline only while it may still run |
| JobWorkers.Engine.Settle | backend/nfx/jobs/services.py:404-486 | process_one after the handler, with its fallback |
| CollectionRuns.StepKeeps | backend/nfx/collection/services.py:320-667 | every step of requests, handlers, reconciliations and engine keeps flows, executions and jobs in step; terminal executions never change |
| CollectionRuns.RunKeeps | backend/nfx/collection/services.py:320-695 | the same over all runs |
| CollectionRuns.RequestKeeps | backend/nfx/collection/services.py:340-468 | a request creates for every family of its scope a queued execution, its job and its flow's new state, all columns given, on free flows that are not blocked, or changes nothing; the constraints never refuse it |
| CollectionRuns.CreateForKeeps | backend/nfx/collection/services.py:408-455 | in a good state execution, job and flow are created together, with the columns given |
| CollectionOutcomes.RequestExactly | backend/nfx/collection/services.py:340-468 | in every reachable state a request creates exactly when it is allowed, company and certificate are in order, every flow of its scope is known, free, enabled, not blocked, not cooling down and under a policy in force, and it is no retry; otherwise the first failed check decides the answer |
| CollectionOutcomes.ReconcileExactly | backend/nfx/collection/services.py:514-667 | what a reconciliation leaves of the execution (state, error, outcome, recovery, report, dates) and of its flow (state, pointer, error, dates, cooldown, reason), for every kind of outcome |
| CollectionOutcomes.HandleExactly | backend/nfx/collection/services.py:670-695 | what the collection handler reconciles and answers for each planned outcome |
| CollectionRuns.ReconcileKeeps | backend/nfx/collection/services.py:514-667 | reconciliation keeps the flow pointer and state on the active execution |
| CollectionRuns.JobKeyInjective | backend/nfx/collection/services.py:430-432 | job keys of different executions differ |
| CollectionLaws.ActiveIndex | backend/nfx/collection/models.py:207-213 | in every reachable state a flow names an execution exactly when that is the single active one of its company and family, and shows its state |
| CollectionLaws.CompletedIsTerminal | backend/nfx/collection/services.py:514-695 | a COMPLETED collection job has a terminal execution, also after lost leases, and terminal executions never change |
| CollectionLaws.BlockedStays | backend/nfx/collection/services.py:376-384 | once BLOCKED a flow stays BLOCKED and gets no execution again |
| CollectionLaws.RetryNeverCreates | backend/nfx/collection/services.py:391-405 | in every reachable state a retry command creates nothing |
| CollectionLaws.JobAndExecutionAgree | backend/nfx/collection/services.py:514-695 | after an uninterrupted process_one the pair is COMPLETED and concluded or empty, BLOCKED and blocked, or QUEUED and retrying, partial or in cooldown, with the exact conditions |
| CollectionLaws.AgreementExactly | backend/nfx/jobs/services.py:391-486 | for every way a handler can end, exactly when job and execution agree after process_one and exactly when the job is blocked under an active execution |
| CollectionLaws.GivenUpStrands | backend/nfx/jobs/services.py:401-486 | a handler that raises or is not registered blocks the job under its active execution if and only if the attempts exceed the limit; otherwise both agree if and only if the execution was already waiting |
| CollectionLaws.StrandedIsReachable | backend/nfx/jobs/services.py:401-410 | a run from the start with no handler registered: stranded exactly when the policy allows no retry, and never in agreement |
| CollectionLaws.WorkerIsPermitted | backend/nfx/jobs/services.py:391-486 | what process_one does after a collection handler is a step of the system, so a job is completed only by its handler's success |
| CollectionLaws.WorkedIsRun | backend/nfx/jobs/services.py:391-486 | process_one on a collection job is a run of the system |
| CollectionLaws.StrandedStays | backend/nfx/collection/services.py:360-374 | such an execution stays active and keeps its flow from being collected |
| CollectionService.CollectionCommands.RequestCollection | backend/nfx/collection/services.py:320-492 | requests as specified, with rollback |
| CollectionService.CollectionCommands.ActiveExecution | backend/nfx/collection/services.py:308-317 | finds the active execution and clears a stale pointer |
| CollectionService.CollectionCommands.CheckFlows | backend/nfx/collection/services.py:376-389 | the first refusal in family order |
| CollectionLaws.RetryOfIsNone | backend/nfx/collection/services.py:391-420 | in every reachable state no execution is recorded as the retry of another |
| CollectionLaws.VocabularyAgainstState | backend/nfx/collection/services.py:532-667 | what outcome and recovery of a reconciled execution say about its state: nothing to do exactly for a finished one, blocked exactly for a permanent failure, a retry or a cooldown for one that ran out of attempts |
| CollectionService.CollectionCommands.ReconcileJob | backend/nfx/collection/services.py:514-667 | reconciles as specified |
| CollectionService.CollectionCommands.Progress | backend/nfx/collection/services.py:532-633 | the assignments on the execution equal the state function |
| CollectionService.CollectionCommands.Follow | backend/nfx/collection/services.py:574-640 | the assignments on the flow equal the flow function |
| CollectionService.CollectionCommands.HandleJob | backend/nfx/collection/services.py:670-695 | handles as specified |
| ScienceGate.GateHolds | backend/nfx/adapters/nfe.py:1282-1397 | over whole runs every row an XML handler attached is evidence of its document and names a science job of that document, COMPLETED with permission and answered with permission, then and forever |
| ScienceGate.StepKeeps | backend/nfx/adapters/nfe.py:1282-1397 | every step of handlers, engine and stores keeps the gate's invariant |
| ScienceGate.AnswerCarriesPermission | backend/nfx/adapters/nfe.py:524-555 | a job outcome is a success exactly for a successful answer and carries its permission as given |
| ScienceGate.AnswerExactly | backend/nfx/adapters/nfe.py:536-555 | kind, reason, deadline and result of the job outcome for every answer |
| ScienceGate.HandledJobs | backend/nfx/adapters/nfe.py:1304-1335 | the science handler enqueues at most one XML job, naming itself and its own document, and only with permission |
| ScienceGate.NewPermission | backend/nfx/adapters/nfe.py:534-555 | permission in a science job's result comes from an answer of its handler |
| FollowUp.XmlIsRun | backend/nfx/adapters/nfe.py:1338-1397 | an XML handler is a run of the gate's steps, whatever it stores in between |
| FollowUp.ScienceExactly | backend/nfx/adapters/nfe.py:1282-1336 | what the science handler answers and queues in each case, and exactly when it raises for a queueing failure |
| FollowUp.ScienceRaises | backend/nfx/adapters/nfe.py:1286-1297 | a payload without document or correlation raises |
| FollowUp.ScienceQueued | backend/nfx/adapters/nfe.py:1239-1280 | the science job a request queues |
| FollowUp.XmlExactly | backend/nfx/adapters/nfe.py:1338-1397 | what the XML handler attaches and answers in each case |
| FollowUp.TruthyExactly | backend/nfx/adapters/nfe.py:1343-1344 | which recorded values permit the retrieval |
| FollowUp.ScienceAnswersOnce | backend/nfx/adapters/nfe.py:1030-1051 | a key is answered once as the scenario says, then always the same |
| FollowUp.XmlAnswersOnce | backend/nfx/adapters/nfe.py:1053-1066 | XML is refused exactly without a permitted answer or without XML in the scenario |
| FollowUp.WorkerIsPermitted | backend/nfx/jobs/services.py:391-486 | what process_one does after a follow-up handler is a step of the gate: a science job is completed only by its handler's success |
| FollowUp.ScienceIsRun | backend/nfx/adapters/nfe.py:1282-1336 | process_one on a science job is a run of the gate |
| FollowUp.TransportKeeps | backend/nfx/adapters/nfe.py:1030-1066 | whatever is asked, no XML without a permitted Ciência of the same key, one call for each answer, answers never change |
| FollowUp.NFeFollowUpService.HandleScienceJob | backend/nfx/adapters/nfe.py:1282-1336 | handles a science job as specified |
| FollowUp.NFeFollowUpService.HandleXmlJob | backend/nfx/adapters/nfe.py:1338-1397 | handles an XML job as specified |
| FollowUp.NFeFollowUpSimulator.RequestScience | backend/nfx/adapters/nfe.py:1030-1051 | answers a key once and then repeats the answer |
| FollowUp.NFeFollowUpSimulator.RequestXml | backend/nfx/adapters/nfe.py:1053-1066 | refuses exactly keys without permission and scenarios without XML |
| AuditChain.AuditVerifier.Verify | backend/nfx/audit/services.py:180-207 | accepts exactly the sound lists; on rejection `checked` is the length of the longest sound prefix and the issue says why the next row is unsound |
| AuditChain.RunAccepted | backend/nfx/audit/services.py:88-149 | every run of append yields an accepted log with one row for each accepted attempt, and the chain row on its last row |
| AuditChain.AppendKeeps | backend/nfx/audit/services.py:106-149 | an append fails exactly for a missing reason; otherwise it adds one sound row that says what the entry said |
| AuditChain.ReasonRequired | backend/nfx/audit/services.py:104-105 | exactly which actions need a reason, and that a reason of space only is none |
| AuditChain.StripExactly | backend/nfx/audit/services.py:104-126 | stripping cuts off the space at both ends and nothing else |
| AuditChain.SharedHash | backend/nfx/audit/services.py:48-84 | accepted lists that share a hash share it at the same place and agree on every row up to it |
| AuditChain.SameLastHash | backend/nfx/audit/services.py:180-207 | accepted lists with the same last hash are equal, whatever their lengths |
| AuditChain.RewriteDetected | backend/nfx/audit/services.py:180-207 | a rewritten row is accepted exactly when it is the last one and soundly linked |
| AuditChain.DropDetected | backend/nfx/audit/services.py:180-207 | dropping rows is accepted exactly at the end |
| AuditChain.AuditService.AppendEvent | backend/nfx/audit/services.py:88-153 | appends as specified |
| Pagination.WalkVisitsAll | backend/nfx/documents/status.py:414-436 | when no selected unit shares a selected document's identifier, following the cursor from the start terminates and visits every selected row exactly once, in order |
| Pagination.PageIsExact | backend/nfx/documents/status.py:414-436 | a page is the first rows of everything selected past the cursor, `truncated` says exactly whether rows remain, and the total is that of the selected documents |
| Pagination.EnoughRead | backend/nfx/documents/status.py:416-422 | reading one row more than the page from each table is enough |
| Pagination.RestPastCursor | backend/nfx/documents/status.py:243-244 | past the last row of a page exactly the rest is left |
| Pagination.SortPermutes | backend/nfx/documents/status.py:421 | the sort is a permutation |
| Pagination.SortOrdered | backend/nfx/documents/status.py:421 | the sort orders rows with distinct identifiers |
| Pagination.SortSorts | backend/nfx/documents/status.py:421 | whatever is merged, rows come out by identifier and by outcome text under one identifier |
| Pagination.SharedIdentifierIsLost | backend/nfx/documents/status.py:414-436 | whenever a selected unit shares a selected document's identifier, the page size that ends between the two loses a row |
| Pagination.CompleteExactly | backend/nfx/documents/status.py:414-436 | every page size shows every selected row exactly once if and only if no selected unit shares the identifier of a selected document |
| Pagination.SortRows | backend/nfx/documents/status.py:421 | the loops compute the sort |
| Pagination.ListStatus | backend/nfx/documents/status.py:414-436 | lists as specified |

## Left out

- IngestionReplay.IngestStoresBeforeMoving: ties rows to units by identity only; the content is the subject of IngestionContent.MoveStoresContent.
- IngestionService.FiscalIngestionService.Reconcile: the execution, correlation and source texts of a replayed unit are fixed placeholders.
- IngestionService.FiscalIngestionService.EnsureStored: the scope part of a logical key is kept as text where the code hashes and truncates it.
- IngestionRuns.NoCycling: is stated for calls that do not overlap, with default page keys and positions of the family's own kind; with a caller-chosen page key the same position can be requested again.
- IngestionReplay.CrashFreeRunsSound: is stated for calls that end; what a crash changes is stated by the two crash lemmas.
- EvidenceStore.DocumentArchive.PersistDocument: origin and correlation texts, competence dates and audit events of a document are not kept; the second try after an integrity error is not modelled because the row lock makes it repeat the first; the id of a new row is an input.
- IdentityKeys.DocumentKeyFaithful: text is ASCII; Unicode upper-casing and alphanumerics are not modelled.
- JobWorkers.Engine.Enqueue: does not model the check of payload keys and values, nor the selection of a policy by scope; a policy is an argument and only its validity at the scheduled time is checked.
- JobWorkers.Engine.Claim: rows locked by other transactions are an argument; `last_attempt_at` and `updated_at` are not kept, and a blank owner is one of spaces only.
- JobWorkers.Engine.Settle: a database failure ends the call without a change; logging and timing are not modelled.
- JobRuns.RetryBudget: assumes that a worker's name is its own and that it does one thing at a time.
- CollectionService.CollectionCommands.RequestCollection: company status, certificate, actor rights and the policies in force are inputs; audit events are not kept.
- CollectionService.CollectionCommands.ReconcileJob: of a safe summary only the entries that decisions read are kept.
- CollectionService.CollectionCommands.HandleJob: the outcome text of the payload is an input; the stored summary of a finished execution is not repeated in the result.
- FollowUp.NFeFollowUpService.HandleXmlJob: evidence ids and the flow are not kept in results; document context, transport answer, stored artifacts and XML validation are inputs; job ids are numbers in payloads and results.
- FollowUp.NFeFollowUpService.HandleScienceJob: source, actor, flow and certificate handle are not kept in the payload.
- AuditChain.SameLastHash: assumes an injective hash over the event fields; JSON canonicalisation and redaction are not modelled, and space is ASCII space.
- Pagination.ListStatus: row payloads, the aggregated collection status and the signature of the cursor are not modelled.
- Processing of initial collection requests, manifestation jobs, event ingestion of the follow-up and heartbeats are not part of this model.
- The deletion saga, retention, rendering, certificates, HTTP views and the user interface are not part of this model.
- Metrics, dashboards and log redaction would only add easy members.
- The paged audit and user lists skip the first unshown row, so nothing is stated about them.
- Liveness of the XML follow-up is not stated: its job can be claimed before the science job completes and is then blocked.
