# Verified model of the governance core

A Dafny model of the parts of the policy office platform that hold real state or real
transformations, with proofs about every input, every run or every interleaving. Each module
follows one component.

**Connector synchronization and knowledge ingestion.** `SyncState` is the sync-state machine, with
the service as a class over a table of rows and its behaviour as a step function over commands.
`Knowledge` holds the knowledge tables and the effect of ingesting one record or a batch;
`KnowledgeLaws` says what a batch amounts to, when it succeeds and what a rerun does.
`SyncIngestion` is the transaction: a session with a working and a committed copy of the database,
in which any awaited call may fail, and the run with its loop, commit, rollback and recovery.
`Health` is the health row of a connector and what a history of checks does to it.

**Gemini request scope.** `GeminiScope` cuts the code at its awaits into atomic steps. Callers, the
owner's cancellation and the internal cleanup task interleave freely, and the class `RequestScope`
shows that each method is one step.

**Database protocols in migrations.** `RateAdmission` is the counter trigger of migration 0024 over
append-only decisions, with rejected statements leaving the database alone. `Backfill` is migration
0025: preflight, update, verification and constraint replacement.

**Evaluation.** `ExecutionState` compares applying one authorized transition at a time with
validating a whole record. `Integrity` proves that the integrity digest's input is an injective
encoding of its twelve fields; `Json`, `Utf8`, `Digits` and `Calendar` provide the text forms with
their decoders. String literals follow section 7 of RFC 8259 and UTF-8 follows section 3 of RFC 3629.

**Cross-validation.** `CrossValidation` has plans, the registry check and the binding of
authorizations and results; `RunCollections` what collecting results guarantees; `Comparison` the
comparison collections with their relation histogram; `Claims` claim sets; `Consensus` candidates
and the derived status; `Handoff` the chain from a decision package to the secretary's package.

**Smaller pieces.** `SchemaValues` is the schema-driven value generator, judged by a validity
predicate for the keywords it handles (JSON Schema, draft 2020-12, with references read as section 6
of RFC 6901 reads them). `Retry` is the connector
client's retry loop and its delays. `EvidenceSelection` is the filter, sort and take. `Registry` and
`Selection` are the model registry and the chain from policy to permit to invocation.

`Common` and `Sorting` hold shared values and the stable sort behind every canonical order. The error
an operation raises is stated as a chain of checks (`Common.Outcome.Check`): the first check that does
not hold decides.

Where the code differs from what one might expect of it, the model follows the code:

- `fail` accepts any status, so a succeeded run can still be failed (`SyncState.SyncStateService.Fail`).
- One connector that emits two source types cannot be ingested: the second source collides on its
  name (`KnowledgeLaws.TwoSourceTypesCollide`). A record without a connector collides with a connector
  called "None", because the missing name is written that way; on empty tables nothing else goes wrong
  with the names (`KnowledgeLaws.FreshBatchSucceedsIff`).
- Stepwise application does not look at the plan when there is no transition
  (`ExecutionState.EmptyHistoryIgnoresPlan`, with the exact condition in `StepwiseEqualsBatch`).
- An integer schema with a fractional minimum above one gets an invalid value
  (`SchemaValues.IntegerMinimumIff`).
- Evidence selection with a negative bound drops items again each time
  (`EvidenceSelection.SelectionIsIdempotentIff`).
- The rate trigger bounds the counter, not the number of admissions
  (`RateAdmission.AdmissionsMayOutnumberCounter`). The two agree exactly when no admission goes past
  the counter and no two claim the same step (`ReachableCounterIsExactIff`), and a caller keeps them
  equal exactly by admitting from the current counter (`AdmissionKeepsCounterExactIff`).
- A permit takes the approval's expiry even when a shorter one was requested
  (`Selection.ShorterRequestIsNotKept`; exactly when is `RequestedExpiryReplacedIff`).
- A candidate's status is supplied by the caller and can disagree with the derived one
  (`Consensus.AgreedOverContradiction`): agreement can be declared exactly where another status can,
  given enough runs (`AgreementIsDeclaredIff`), and what the comparisons found changes nothing
  (`CandidateIgnoresFindings`). The independence theorems start from the candidate as created.
- The schema generator splits a reference without unescaping it, so it reads it as the standard does
  exactly when it starts with `#/` and escapes nothing (`SchemaValues.ReferencesAgreeIff`).

## Model

| member | source | states |
|---|---|---|
| SyncState.RunKeeps | policyos-app/app/connectors/services.py:142-206 | after any sequence of start, progress, complete, fail, cancel and stale recovery a pending cursor exists only while running, a running row has a start time, and no counter is negative |
| SyncState.EntriesBalanceExits | policyos-app/app/connectors/repositories.py:74-139 | over any command sequence, accepted starts minus exits from running equal one if the row is running at the end and zero otherwise (offset by whether it was running at the beginning) |
| SyncState.CursorFollowsCompletions | policyos-app/app/connectors/repositories.py:113-139 | the stored cursor is the one given to the latest completion with a non-null cursor; no failure, cancellation or recovery moves it |
| SyncState.RecoveryIsExact | policyos-app/app/connectors/services.py:197-206 | stale recovery fails exactly the stale running rows of its organization, keeps their cursors, leaves every other row alone, and leaves no stale row behind |
| SyncState.RowFollowsCommand | policyos-app/app/connectors/repositories.py:74-139 | column by column, what each accepted command leaves in the row; a row no accepted command names does not change |
| SyncState.StatusIsLastWord | policyos-app/app/connectors/repositories.py:74-139 | after any commands a row's status is the one the last accepted command gives it |
| SyncState.AssignCounters | policyos-app/app/connectors/services.py:171-173 | the counter loop stores max(value, 0) for the nine known names and ignores all others |
| SyncState.SyncStateService.Start | policyos-app/app/connectors/repositories.py:74-111 | refuses exactly a row that is already running; otherwise the new table is the start command's effect, all nine counters zero |
| SyncState.SyncStateService.Progress | policyos-app/app/connectors/services.py:167-175 | accepted exactly while running; the pending cursor is replaced even by none |
| SyncState.SyncStateService.Complete | policyos-app/app/connectors/repositories.py:113-131 | accepted exactly while running; a cursor is moved only when one is given, and a partial completion leaves the last success time alone |
| SyncState.SyncStateService.Fail | policyos-app/app/connectors/repositories.py:133-139 | accepted for any existing row whatever its status, with code and summary cut to 100 and 500 characters |
| SyncState.SyncStateService.Cancel | policyos-app/app/connectors/services.py:188-195 | accepted exactly while running |
| SyncState.SyncStateService.RecoverStaleRows | policyos-app/app/connectors/services.py:197-206 | returns the number of stale running rows of the organization, all of which it failed |
| Health.HealthTable.Persist | policyos-app/app/connectors/services.py:209-227 | the whole new row of the configuration, every other row unchanged; refused exactly when another organization holds the configuration |
| Health.HistoryDecidesRow | policyos-app/app/connectors/repositories.py:172-199 | after any history of checks the failure count is the number of failures in a row at its end, the success and failure times are those of the last such checks, latency and error are the latest check's, and the status is the latest one unless an outage replaces it |
| Health.OutageIff | policyos-app/app/connectors/services.py:224-225 | the stored status becomes unavailable exactly when none of the last three checks was healthy and the latest status is neither disabled nor misconfigured |
| Knowledge.IngestKeepsInvariant | policyos-app/app/connectors/persistence_ingestion.py:20-135 | one accepted ingestion keeps every document's versions numbered 1..n with distinct hashes, one citation per version with the same number, hash and source, and one succeeded job per version, in order |
| Knowledge.IngestAllKeepsInvariant | policyos-app/app/connectors/persistence_ingestion.py:20-135 | the same over any sequence of ingestions |
| Knowledge.NextVersionAdmissible | policyos-app/alembic/versions/20260720_0007_knowledge_domain.py:141-148 | neither version uniqueness constraint can reject an ingestion: max+1 is the history's length plus one and is free, and a stored hash would have been found as a duplicate |
| Knowledge.MaxIsLength | policyos-app/app/connectors/persistence_ingestion.py:86-92 | on a gapless history the stored maximum is the number of versions |
| Knowledge.VersionKeeps | policyos-app/app/connectors/persistence_ingestion.py:86-131 | storing the next version, its citation and its job always succeeds for a hash of 64 characters and keeps the invariant |
| KnowledgeLaws.BatchIsUnion | policyos-app/app/connectors/persistence_ingestion.py:20-135 | after a batch the (document key, content hash) pairs held are the old ones united with the batch's; the created count is the number of versions and citations added, every record leaves one job, and nothing stored is rewritten |
| KnowledgeLaws.IngestSucceedsIff | policyos-app/app/connectors/persistence_ingestion.py:28-40 | one ingestion fails exactly on a wrong hash length or on a source that must be created under a name already taken |
| KnowledgeLaws.BatchSucceedsIff | policyos-app/app/connectors/sync_ingestion.py:35-42 | a batch succeeds exactly when every hash has its length and no source name that must be created is taken or claimed by two source identities of the batch |
| KnowledgeLaws.FreshBatchSucceedsIff | policyos-app/app/connectors/persistence_ingestion.py:21-40 | on empty tables a batch succeeds exactly when every hash has 64 characters, no connector emits two source types, and a missing connector does not meet one called "None" |
| KnowledgeLaws.IngestRows | policyos-app/app/connectors/persistence_ingestion.py:20-135 | every row one ingestion stores, with the source named after its connector: a duplicate is one whose hash its document holds, a created one whose document is new, and then exactly one job, or version, citation and job under the next number, is added |
| KnowledgeLaws.BatchIgnoresOrder | policyos-app/app/connectors/sync_ingestion.py:35-42 | the order and repetition of the input decide neither success nor the pairs held afterwards |
| KnowledgeLaws.StoredBatchIsSkipped | policyos-app/app/connectors/persistence_ingestion.py:63-85 | records already stored are all skipped: only duplicate jobs are added, one each |
| KnowledgeLaws.RerunAddsNothing | policyos-app/app/connectors/persistence_ingestion.py:41-135 | running a successful batch again succeeds, creates no source, document, version or citation, and skips every record |
| KnowledgeLaws.TwoSourceTypesCollide | policyos-app/app/connectors/persistence_ingestion.py:28-40 | one connector emitting two source types fails on the source name, in either order |
| SyncIngestion.RunIsAllOrNothing | policyos-app/app/connectors/sync_ingestion.py:23-70 | whatever fails and wherever, the committed knowledge is either the old one or the old one with every record's effect; a run whose handler completes adds exactly one audit row; no cursor moves except by success |
| SyncIngestion.StartableIff | policyos-app/app/connectors/sync_ingestion.py:24-32 | a run can start exactly from a configuration enabled twice over whose row is not running |
| SyncIngestion.SuccessIsReported | policyos-app/app/connectors/sync_ingestion.py:43-49 | a success reports one page and no counter beyond processed, created and skipped, and audits the number of payloads |
| SyncIngestion.FailureIsReported | policyos-app/app/connectors/sync_ingestion.py:50-70 | a recorded failure names the ingestion failure in row and audit and counts nothing |
| SyncIngestion.RunKeepsKnowledge | policyos-app/app/connectors/sync_ingestion.py:23-70 | every outcome keeps the knowledge invariant, and each organization gains either all pairs of the request or none |
| SyncIngestion.SuccessCountsVersions | policyos-app/app/connectors/sync_ingestion.py:38-43 | after success processed equals the number of records and created plus skipped, and created equals the number of new versions |
| SyncIngestion.RerunSkipsEverything | policyos-app/app/connectors/sync_ingestion.py:35-44 | a second successful run over the same payloads creates nothing and skips all of them |
| SyncIngestion.AbsorbIsIngestedAll | policyos-app/app/connectors/sync_ingestion.py:35-42 | the loop that stops at the first failing payload computes the batch exactly when all payloads normalize and the batch is accepted |
| SyncIngestion.Session.AddVersion | policyos-app/alembic/versions/20260720_0007_knowledge_domain.py:141-148 | an insert happens exactly when the call does not fail and neither uniqueness constraint rejects the row; otherwise nothing changes |
| SyncIngestion.Session.Commit | policyos-app/app/connectors/sync_ingestion.py:48-48 | publishes the working copy exactly when the call does not fail |
| SyncIngestion.Session.Rollback | policyos-app/app/connectors/sync_ingestion.py:51-51 | the working copy is the committed one again |
| SyncIngestion.IngestionService.FindOrAddSource | policyos-app/app/connectors/persistence_ingestion.py:21-40 | finds or inserts the source, or fails on a failing call or a violated constraint |
| SyncIngestion.IngestionService.FindOrAddDocument | policyos-app/app/connectors/persistence_ingestion.py:41-62 | finds or inserts the document and says which |
| SyncIngestion.IngestionService.AddNextVersion | policyos-app/app/connectors/persistence_ingestion.py:86-131 | stores job, version and citation under the next number |
| SyncIngestion.IngestionService.Ingest | policyos-app/app/connectors/persistence_ingestion.py:20-135 | succeeds exactly when no call fails and the record is admissible; the working tables are then those of the pure ingestion |
| SyncIngestion.SyncIngestionService.Begin | policyos-app/app/connectors/sync_ingestion.py:24-32 | commits the started row exactly when the configuration is enabled, no run is in progress and no call fails |
| SyncIngestion.SyncIngestionService.IngestPayload | policyos-app/app/connectors/sync_ingestion.py:36-42 | one turn of the loop: the record's effect and exactly one of the created and skipped counters |
| SyncIngestion.SyncIngestionService.IngestRecords | policyos-app/app/connectors/sync_ingestion.py:35-42 | the loop's result is the batch's, with processed = created + skipped |
| SyncIngestion.SyncIngestionService.Attempt | policyos-app/app/connectors/sync_ingestion.py:34-49 | commits everything exactly when no call fails and the records go in; otherwise commits nothing |
| SyncIngestion.SyncIngestionService.Recover | policyos-app/app/connectors/sync_ingestion.py:50-70 | discards the work, fails the row with zero counters and the old cursor, adds one audit row and commits that, or commits nothing |
| SyncIngestion.SyncIngestionService.Run | policyos-app/app/connectors/sync_ingestion.py:23-70 | every outcome is one of four fully described worlds, and success happens exactly when the run can start, the records go in and no call fails |
| GeminiScope.RunKeepsValid | policyos-app/app/ai/gemini_production.py:85-207 | the bookkeeping invariant of scope, gateway and cleanup holds after every interleaving of steps |
| GeminiScope.SingleFlight | policyos-app/app/ai/gemini_production.py:90-97 | in every reachable state at most one provider call is in flight |
| GeminiScope.LeaseExitsAfterDrain | policyos-app/app/ai/gemini_production.py:186-201 | from the moment the lease's exit begins no provider call is in flight |
| GeminiScope.RevocationLasts | policyos-app/app/ai/gemini_production.py:99-106 | a revoked gateway stays revoked and no later step starts a call |
| GeminiScope.NoCallAfterRevoke | policyos-app/app/ai/gemini_production.py:90-106 | in any run, no call starts after the gateway was revoked |
| GeminiScope.LeaseAccount | policyos-app/app/ai/gemini_production.py:109-207 | lease entries minus exits always equal what is still owed |
| GeminiScope.LeaseExitedExactlyOnce | policyos-app/app/ai/gemini_production.py:109-207 | a lease is entered at most once and exited at most as often; when the owner is done, an entered lease has been exited exactly once |
| GeminiScope.OwnerResumesSettled | policyos-app/app/ai/gemini_production.py:172-184 | however many cancellations arrive, the owner resumes only when the release is done and nothing is in flight |
| GeminiScope.CancellationTracked | policyos-app/app/ai/gemini_production.py:173-184 | a cancellation during cleanup is remembered through every further step |
| GeminiScope.ExitReports | policyos-app/app/ai/gemini_production.py:179-184 | the body's own exception wins; otherwise a cancellation during cleanup is raised exactly when one arrived; otherwise a release failure exactly when there was one |
| GeminiScope.RunDecidesReport | policyos-app/app/ai/gemini_production.py:118-207 | in every run the owner ends with its own exception exactly when the entry failed or the body raised, else with a cancellation exactly when one arrived during cleanup, else with an error exactly when the lease's exit raised |
| GeminiScope.DrainWaitsForCaller | policyos-app/app/ai/gemini_production.py:99-106 | a drain ends only when the caller it waits for has finished |
| GeminiScope.CleanupCanFinish | policyos-app/app/ai/gemini_production.py:166-201 | from every reachable cleanup at most six further steps, none of them a new call, complete it |
| GeminiScope.RequestScope.EnterScope | policyos-app/app/ai/gemini_production.py:118-121 | one-shot: accepted exactly for a scope neither entered nor closed |
| GeminiScope.RequestScope.ResumeEnter | policyos-app/app/ai/gemini_production.py:125-160 | the rest of entry, for success, a failing lease and a rejected credential |
| GeminiScope.RequestScope.StartCleanup | policyos-app/app/ai/gemini_production.py:166-172 | closes the scope and hands gateway and lease to the cleanup task |
| GeminiScope.RequestScope.BeginGenerate | policyos-app/app/ai/gemini_production.py:90-93 | refused exactly when the scope is revoked or a call is in flight |
| GeminiScope.RequestScope.EndGenerate | policyos-app/app/ai/gemini_production.py:94-97 | the caller leaves the gateway whatever the call's end |
| GeminiScope.RequestScope.ExitScope | policyos-app/app/ai/gemini_production.py:203-207 | accepted exactly once for an entered scope |
| GeminiScope.RequestScope.CancelDuringCleanup | policyos-app/app/ai/gemini_production.py:174-178 | a cancellation of the owner during cleanup only marks it; the owner goes on waiting |
| GeminiScope.RequestScope.RunRelease | policyos-app/app/ai/gemini_production.py:99-106 | revokes first, then waits for the call in flight or goes on to the lease |
| GeminiScope.RequestScope.ResumeDrained | policyos-app/app/ai/gemini_production.py:105-106 | continues with the lease only when the cancelled caller is finished |
| RateAdmission.RunKeeps | policyos-app/alembic/versions/20260808_0024_rate_admission.py:269-431 | every database the statements can reach satisfies the decision constraints and the counter protocol; no decision is changed and no counter decreases or disappears |
| RateAdmission.CounterIsEarned | policyos-app/alembic/versions/20260808_0024_rate_admission.py:379-430 | a reachable counter at n has, for each k in 1..n, an admitted decision of the same policy revision and window from k-1 to k, hence at least n distinct admitted requests, all observed inside the window |
| RateAdmission.DistinctRequestsBelow | policyos-app/alembic/versions/20260808_0024_rate_admission.py:269-292 | the uniqueness constraints make those n decisions n distinct requests |
| RateAdmission.StepMonotone | policyos-app/alembic/versions/20260808_0024_rate_admission.py:364-430 | no single statement, accepted or not, lowers a counter or touches a stored decision |
| RateAdmission.DecisionStoredIff | policyos-app/alembic/versions/20260808_0024_rate_admission.py:263-313 | column by column, when a decision is stored: its row is sound, its policy exists, and request, preparation, reference and digest are all unused in its tenant and organization |
| RateAdmission.PolicyStoredIff | policyos-app/alembic/versions/20260808_0024_rate_admission.py:80-111 | a policy is stored exactly when no stored one agrees in the seven key columns |
| RateAdmission.StoredRowsAreImmutable | policyos-app/alembic/versions/20260808_0024_rate_admission.py:357-372 | changing or deleting a stored policy or decision raises; naming no row does nothing |
| RateAdmission.CounterMovesIff | policyos-app/alembic/versions/20260808_0024_rate_admission.py:379-430 | a counter moves exactly by one step that an admitted decision earned for this window, request and preparation; any other insert, update or delete changes nothing |
| RateAdmission.ReachableDecisionsAreSound | policyos-app/alembic/versions/20260808_0024_rate_admission.py:263-313 | in every reachable database each decision is sound and no two of one tenant and organization share any of their four names |
| RateAdmission.AdmissionsMayOutnumberCounter | policyos-app/alembic/versions/20260808_0024_rate_admission.py:402-421 | the witness that the counter need not count the admissions: a reachable database in which two requests are admitted while the counter stands at one |
| RateAdmission.ReachableCounterIsExactIff | policyos-app/alembic/versions/20260808_0024_rate_admission.py:269-431 | in every database the statements can reach, the admitted requests of a window number exactly the counter (zero before its first row) if and only if no admission goes past the counter and no two claim the same step |
| RateAdmission.CounterIsExactIff | policyos-app/alembic/versions/20260808_0024_rate_admission.py:269-431 | the same for every database satisfying the protocol's invariant |
| RateAdmission.AdmissionKeepsCounterExactIff | policyos-app/alembic/versions/20260808_0024_rate_admission.py:379-430 | from a consistent database where the counter is exact, admitting a decision and then trying any counter row that names it keeps the counter exact if and only if the decision starts from the current counter and the row is the one it backs |
| RateAdmission.RateTables.Guard | policyos-app/alembic/versions/20260808_0024_rate_admission.py:381-425 | the trigger function: passes exactly a first row at one or a step by one of the same row, backed by the named admitted decision |
| RateAdmission.RateTables.Insert | policyos-app/alembic/versions/20260808_0024_rate_admission.py:427-430 | an insert's effect, rejected exactly when a constraint or the trigger raises |
| RateAdmission.RateTables.Update | policyos-app/alembic/versions/20260808_0024_rate_admission.py:427-430 | an update's effect, rejected exactly when a constraint or the trigger raises |
| RateAdmission.RateTables.Delete | policyos-app/alembic/versions/20260808_0024_rate_admission.py:384-386 | an existing counter cannot be deleted |
| RateAdmission.RateTables.AddPolicy | policyos-app/alembic/versions/20260808_0024_rate_admission.py:80-111 | policies are unique by revision |
| RateAdmission.RateTables.AddDecision | policyos-app/alembic/versions/20260808_0024_rate_admission.py:263-313 | a decision is stored exactly when its checks, reference and four uniqueness constraints hold |
| Backfill.PreflightFailsOnlyOnNewDemands | policyos-app/alembic/versions/20260808_0025_runtime_logical_result_classification.py:42-100 | on a database satisfying the older constraints preflight passes exactly without a duplicate request and attempt, a non-object payload or a key already present |
| Backfill.PreflightIsExact | policyos-app/alembic/versions/20260808_0025_runtime_logical_result_classification.py:42-141 | the seven questions preflight asks, in order and on the columns themselves, each with its error |
| Backfill.UpdateEstablishesNewConstraints | policyos-app/alembic/versions/20260808_0025_runtime_logical_result_classification.py:144-199 | when preflight passes, the updated rows satisfy the NOT NULL, foreign key, unique and both check constraints, and the verification query finds nothing |
| Backfill.NewConstraintsAre | policyos-app/alembic/versions/20260808_0025_runtime_logical_result_classification.py:167-199 | the new constraints row by row: a known class not below the row's own, a request of that class, and no attempt stored twice |
| Backfill.UpdateIsReversible | policyos-app/alembic/versions/20260808_0025_runtime_logical_result_classification.py:151-165 | dropping the added key and column gives back every row, and payload and column name the class of the one joined request |
| Backfill.BackfilledClassIsOwn | policyos-app/alembic/versions/20260808_0023_runtime_logical_execution_results.py:56-207 | under the older constraints the backfilled class is the row's own classification |
| Backfill.OlderConstraintsSurvive | policyos-app/alembic/versions/20260808_0023_runtime_logical_execution_results.py:56-207 | the update keeps all the older constraints |
| Backfill.Migration.UpdateRows | policyos-app/alembic/versions/20260808_0025_runtime_logical_result_classification.py:151-165 | every row that joins a request takes that request's class in column and payload; every other row is unchanged |
| Backfill.Migration.Upgrade | policyos-app/alembic/versions/20260808_0025_runtime_logical_result_classification.py:144-200 | the migration raises only in preflight and has then changed nothing; otherwise all constraints are in force and the rows are immutable again |
| ExecutionState.ValidateHistory | policyos-app/app/evaluation/execution_state.py:271-311 | the loop reports the first failing entry of a history |
| ExecutionState.HistoryPassesIffCanonical | policyos-app/app/evaluation/execution_state.py:271-311 | a history passes exactly when each entry, judged by its neighbours alone, has its sequence number, identity, states and time in order; the successors of each state are written out |
| ExecutionState.HistoryGrowsExactly | policyos-app/app/evaluation/execution_state.py:271-311 | what one more entry adds to a valid history: the error of the first of its eight demands that it misses |
| ExecutionState.ApplyIsExact | policyos-app/app/evaluation/execution_state.py:435-572 | one step on a constructed record, demand by demand on the fields of plan, record, transition, decision and binding: the error of the first one missed, or the new record |
| ExecutionState.ValidateRecordPassesIff | policyos-app/app/evaluation/execution_state.py:474-544 | a whole record passes exactly when its context repeats the plan, its history is canonical, its state and time are the last entry's, and every decision allows its own transition, field by field |
| ExecutionState.RebuildSucceedsIff | policyos-app/app/evaluation/execution_state.py:547-572 | applying transitions one by one succeeds exactly when the record is grounded, the history valid, every decision allows its transition field by field and the context repeats the plan, and then yields the record the history leads to |
| ExecutionState.StepwiseEqualsBatch | policyos-app/app/evaluation/execution_state.py:474-544 | a record and its decisions pass whole-record validation exactly when its context repeats the plan and stepwise application from the empty planned record rebuilds it |
| ExecutionState.StepwiseEqualsBatchOnceStarted | policyos-app/app/evaluation/execution_state.py:474-572 | with at least one transition the two are equivalent without further condition |
| ExecutionState.EmptyHistoryIgnoresPlan | policyos-app/app/evaluation/execution_state.py:547-572 | without transitions the steps never look at the plan, so a record bound to another plan is rebuilt although batch validation rejects it |
| ExecutionState.HistoriesAreShort | policyos-app/app/evaluation/execution_state.py:239-268 | a valid history has at most four transitions and reaches completed only through the four success steps |
| ExecutionState.TerminalIsFinal | policyos-app/app/evaluation/execution_state.py:247-254 | no record in a terminal state accepts a step |
| ExecutionState.RepetitionCaughtByConstructor | policyos-app/app/evaluation/execution_state.py:188-236 | a repeated transition identity passes the step's own checks and is refused by the new record's validator |
| ExecutionState.DecisionsPassIffAuthorized | policyos-app/app/evaluation/execution_state.py:534-544 | the decision list passes exactly when each decision allows its own transition: outcome, both identities, actor, agent, scope, revision, purpose, plan, action, states, tier and delegation |
| Utf8.RoundTrip | policyos-app/app/evaluation/integrity.py:63-68 | decoding the UTF-8 encoding of any text gives the text back |
| Json.ReadLiteralUndoes | policyos-app/app/evaluation/integrity.py:63-68 | an escaped string literal is self-delimiting: reading it back gives the string and exactly the text after it |
| Json.EscapeLength | policyos-app/app/evaluation/integrity.py:63-68 | only quotes, backslashes and control characters are escaped, seven of them by one letter; everything else stands for itself |
| Json.ReadObjectUndoes | policyos-app/app/evaluation/integrity.py:63-68 | the compact text of an object of strings and numbers parses back to the same members in the same order |
| Calendar.TextRoundTrip | policyos-app/app/evaluation/integrity.py:60-61 | the UTC text of a time determines its instant to the microsecond, whatever offset it was given at |
| Calendar.InstantIsGregorian | policyos-app/app/evaluation/integrity.py:60-61 | the instant of a date and time is its microseconds from the start of year 1 by the closed form of the Gregorian calendar |
| Calendar.FieldsAreDate | policyos-app/app/evaluation/integrity.py:60-61 | the fields written are a day of their month and a time of day |
| Integrity.UuidRoundTrip | policyos-app/app/evaluation/integrity.py:58-59 | an identifier's text determines the identifier |
| Integrity.UuidTextForm | policyos-app/app/evaluation/integrity.py:58-59 | lower-case hexadecimal digits in groups of eight, four, four, four and twelve |
| Integrity.ComputeDigest | policyos-app/app/evaluation/integrity.py:54-69 | the loop over the fields hashes exactly the canonical bytes of the twelve listed fields |
| Integrity.PreimageReads | policyos-app/app/evaluation/integrity.py:38-69 | the hashed bytes parse as one object of twelve members, each name written out beside the record's own field, in that order |
| Integrity.PreimageDecodes | policyos-app/app/evaluation/integrity.py:38-69 | a decoder recovers the twelve values from the hashed bytes |
| Integrity.PreimageIsInjective | policyos-app/app/evaluation/integrity.py:38-69 | two records have the same hashed bytes exactly when they agree on the twelve values, times compared as instants |
| Integrity.Validate | policyos-app/app/evaluation/integrity.py:72-104 | digest first, then the eleven references |
| Integrity.ValidateIsExact | policyos-app/app/evaluation/integrity.py:72-104 | whatever digest is expected: the error of the digest first, then of any of the eleven references |
| Integrity.ValidationDetectsEveryChange | policyos-app/app/evaluation/integrity.py:72-104 | unless the hash collides, a record validates against an original exactly when they differ at most in record id and written offset; a change of the registry or manifest reference alone keeps the digest and is caught by the reference check |
| SchemaValues.Resolve | policyos-app/app/ai/model_gateway.py:163-166 | the reference walk follows the path inside the root schema, failing on a missing part |
| SchemaValues.GenerateSucceedsIff | policyos-app/app/ai/model_gateway.py:157-201 | generation succeeds exactly when no chain of nested schemas exceeds the recursion limit and none reaches a malformed one |
| SchemaValues.CyclesNeverEnd | policyos-app/app/ai/model_gateway.py:163-167 | a schema that leads back to itself gets no value under any limit |
| SchemaValues.LimitIsIrrelevant | policyos-app/app/ai/model_gateway.py:162-198 | a higher limit changes no value that a lower one allows |
| SchemaValues.ReferencesYield | policyos-app/app/ai/model_gateway.py:163-167 | a plain reference that can be followed yields the value of the schema the standard says it names |
| SchemaValues.FixedValuesYield | policyos-app/app/ai/model_gateway.py:168-171 | a constant yields itself, an enumeration its first item |
| SchemaValues.AlternativesYield | policyos-app/app/ai/model_gateway.py:172-177 | alternatives yield the value of the first option whose type is not null, and of the first option when all are null |
| SchemaValues.ObjectsYield | policyos-app/app/ai/model_gateway.py:179-184 | an object has exactly the required names, or its properties' when none are listed, each with its own schema's value or a fixed text |
| SchemaValues.ArraysYield | policyos-app/app/ai/model_gateway.py:185-187 | an array repeats its items' value as often as its minimum asks |
| SchemaValues.NumbersYield | policyos-app/app/ai/model_gateway.py:188-191 | numbers are the larger of one and the minimum |
| SchemaValues.TextsYield | policyos-app/app/ai/model_gateway.py:192-198 | a boolean is false, and what is no object, array or number is the text of its format |
| SchemaValues.CallsAreNeeds | policyos-app/app/ai/model_gateway.py:162-198 | for a coherent schema the generator can read, it calls itself on exactly the schemas a value is made of, read off the schema: what a reference names, the first option of substance, the demanded properties, the items of a non-empty array |
| SchemaValues.GeneratedIsValid | policyos-app/app/ai/model_gateway.py:162-198 | in the fragment, which is defined on the schema alone, the generated value is accepted by every keyword of its schema |
| SchemaValues.EndsIffAcyclic | policyos-app/app/ai/model_gateway.py:157-201 | under some limit generation ends exactly when no chain of nested schemas is cyclic and none reaches a malformed one; the number of the schema's parts, plus one, is then limit enough |
| SchemaValues.OutputIsValid | policyos-app/app/ai/model_gateway.py:157-201 | for a schema of the fragment an output exists exactly when the call chains fit the recursion limit; it is then an object and valid, or wraps a valid non-object under result |
| SchemaValues.AcyclicSchemasAreServed | policyos-app/app/ai/model_gateway.py:157-201 | every schema of the fragment that can be read and whose needs never lead back to it gets such an output, under any limit of at least the number of its parts; the conditions are on the schema, not on the generator |
| SchemaValues.IntegerMinimumIff | policyos-app/app/ai/model_gateway.py:188-189 | for an integer schema with a real minimum the value is valid exactly when the minimum is at most one or whole |
| SchemaValues.ReferencesAgreeIff | policyos-app/app/ai/model_gateway.py:163-167 | wherever the generator can follow a reference it reaches what the standard says the reference names, in every document, if and only if the reference starts with #/ and contains neither a tilde nor a percent sign |
| SchemaValues.AcceptsGrows | policyos-app/app/ai/model_gateway.py:157-201 | validity within some depth is validity within every greater depth |
| SchemaValues.SamplesFit | policyos-app/app/ai/model_gateway.py:194-197 | the constant identifier and timestamp satisfy the uuid and date-time formats |
| SchemaValues.FakeModelGateway.Answer | policyos-app/app/ai/model_gateway.py:124-147 | every request is recorded; timeout, configured error, fixed output and generated output in that order |
| EvidenceSelection.Select | policyos-app/app/ai/evidence_selection.py:33-55 | the loop and the warning compute the selection |
| EvidenceSelection.SelectionIsBest | policyos-app/app/ai/evidence_selection.py:36-48 | the kept items are permitted, as many as the bound admits, by descending score, then source type, then identity, and no permitted item left out goes before a kept one |
| EvidenceSelection.TypesReachAgents | policyos-app/app/ai/evidence_selection.py:6-23 | the tables read from the other side: which agents may see each source type |
| EvidenceSelection.PermitsIff | policyos-app/app/ai/evidence_selection.py:24-43 | for the four agents that write for the public an item also needs a citation and no unsupported claim |
| EvidenceSelection.SelectionSaysSo | policyos-app/app/ai/evidence_selection.py:49-55 | one warning is added exactly when items were left out; nothing else changes |
| EvidenceSelection.SelectionIgnoresOrder | policyos-app/app/ai/evidence_selection.py:44-49 | items with unique identities are selected alike, citations included, in whatever order they arrive |
| EvidenceSelection.CitationsAreExact | policyos-app/app/ai/evidence_selection.py:49-49 | every citation of a kept item is listed once, in the order first met |
| EvidenceSelection.SelectionIsIdempotentIff | policyos-app/app/ai/evidence_selection.py:33-55 | selecting again changes nothing, warnings included, exactly when the bound is not negative or nothing is kept at all |
| Retry.Request | policyos-app/app/connectors/client.py:172-241 | at most limit+1 sends, only retryable failures before the last, the retry count is the failed sends, one delay per retry, and a retryable error is raised only at the limit |
| Retry.SucceedsIff | policyos-app/app/connectors/client.py:172-241 | a request succeeds exactly when, at the first attempt or within the retries the policy allows, some attempt succeeds after nothing but retryable failures |
| Retry.VerdictIsExact | policyos-app/app/connectors/client.py:172-241 | what becomes of one attempt: size, script and status in that order, with the error and whether it is worth another try |
| Retry.RetryableIff | policyos-app/app/connectors/client.py:172-241 | exactly the throttled and failing servers, timeouts, transport failures and errors marked so are tried again |
| Retry.RunIsDetermined | policyos-app/app/connectors/client.py:172-241 | the stream of send outcomes decides the run |
| Retry.SleepIsSandwiched | policyos-app/app/connectors/resilience.py:14-19 | the total sleep lies between the plain total S and (1 + jitter) times S |
| Retry.DelaysDouble | policyos-app/app/connectors/resilience.py:14-19 | each plain delay is twice the one before it until the cap, starting from the base |
| Retry.PlainTotalIsBounded | policyos-app/app/connectors/resilience.py:14-19 | S is at most base times (2^n - 1) and at most n times the cap |
| Retry.SleepIsBounded | policyos-app/app/connectors/resilience.py:14-19 | the total sleep is at most (1 + jitter) times the smaller of the two |
| Registry.ValidateEntries | policyos-app/app/ai_models/registry.py:32-55 | the loop reports the first failing entry in order |
| Registry.CheckEntriesPassIff | policyos-app/app/ai_models/registry.py:32-55 | entries pass exactly when identities and provider keys are unique, every provider resolves and no capability exceeds its provider's |
| Registry.EntriesAreExact | policyos-app/app/ai_models/registry.py:32-55 | repeated identities come before everything else, providers first |
| Registry.ModelsGrowExactly | policyos-app/app/ai_models/registry.py:32-55 | what one more model adds: the error of the first demand it misses, unless an earlier model failed |
| Registry.SnapshotSucceedsIff | policyos-app/app/ai_models/registry.py:86-108 | construction succeeds exactly for consistent entries within the limits of 100 providers and 1000 models; the snapshot holds those entries in canonical order and passes its own validator |
| Registry.SnapshotPassesIff | policyos-app/app/ai_models/registry.py:57-83 | the snapshot's own validator accepts exactly consistent entries within the limits, in ascending order of identity |
| Registry.SnapshotIgnoresOrder | policyos-app/app/ai_models/registry.py:86-108 | construction, its errors included, does not depend on the order of its inputs |
| Registry.NoDanglingProvider | policyos-app/app/ai_models/registry.py:70-83 | in a valid snapshot every model is found under its identity and its provider resolves and covers its capabilities |
| Registry.SelectableIff | policyos-app/app/ai_models/registry.py:156-175 | a model is selectable exactly when it and its provider are active and it declares the canonical capabilities asked for; its provider declares them too |
| Registry.SelectableIsExact | policyos-app/app/ai_models/registry.py:156-175 | the lookup with the error of the first demand missed, the provider judged before the model |
| Registry.CapabilitiesFollowText | policyos-app/app/ai_models/registry.py:168-173 | the canonical order of capabilities is the order of their text |
| Selection.CollectBreaches | policyos-app/app/ai_selection/policy.py:33-57 | the branches collect exactly the breached conditions |
| Selection.Evaluate | policyos-app/app/ai_selection/policy.py:24-107 | the evaluation yields the specified decision |
| Selection.DecisionIsExact | policyos-app/app/ai_selection/policy.py:79-107 | every decision passes its validator; it denies exactly when some condition is violated and then lists precisely the violated ones |
| Selection.OutcomeIff | policyos-app/app/ai_selection/policy.py:79-107 | an evaluation denies exactly what policy and registry do not permit, written out on the fields; otherwise it waits for a human exactly when the policy keeps the action for humans, and each outcome gives its one reason |
| Selection.ScopeReasonsAreExact | policyos-app/app/ai_selection/policy.py:33-57 | the condition on the request behind each of the seven reasons about it |
| Selection.TargetReasonsAreExact | policyos-app/app/ai_selection/policy.py:46-78 | the conditions on policy lists and registry entries behind the reasons about model, provider and capabilities |
| Selection.ReasonsFollowText | policyos-app/app/ai_selection/policy.py:103-103 | the canonical order of reasons is the order of their text |
| Selection.AuthorizationAgreesWithPolicy | policyos-app/app/ai_selection/invocation.py:79-163 | on the same context and registry authorization fails a lineage, registry or selectability check exactly when the policy denies, and otherwise issues a permit exactly when approval and times fit |
| Selection.PermitIff | policyos-app/app/ai_selection/invocation.py:79-163 | from policy to permit: exactly the permissible requests get one, and an action kept for humans only under a granted approval that names this intent and decision, field by field |
| Selection.AuthorizeIsExact | policyos-app/app/ai_selection/invocation.py:79-163 | authorization of any decision whatever: the error of the first of thirteen demands missed, or the permit with every field |
| Selection.PermitsAreEarned | policyos-app/app/ai_selection/invocation.py:79-163 | whatever decision a permit came from, it passes its validator, carries that decision's intent, names a selectable model, has the approval's expiry when there is one, and its approval fits |
| Selection.RequestedExpiryReplacedIff | policyos-app/app/ai_selection/invocation.py:131-140 | a permit never ends before the requested expiry, and ends later if and only if the approval has an expiry of its own that differs from it |
| Selection.ShorterRequestIsNotKept | policyos-app/app/ai_selection/invocation.py:131-140 | the witness: requested until 20, approved until 30, invoked at 25 |
| Selection.InvocationsStayInTheWindow | policyos-app/app/ai_selection/invocation.py:173-185 | every instant at which an approved permit reaches the invoker lies in the approval's window |
| CrossValidation.PlannedRunsDiffer | policyos-app/app/cross_validation/domain.py:104-129 | no two runs of a valid plan share an identity or a provider and model |
| CrossValidation.PlanIsExact | policyos-app/app/cross_validation/domain.py:104-129 | what a plan demands of its runs, pair by pair and run by run, with the error of the first demand missed |
| CrossValidation.RegistryMakesModelsDiffer | policyos-app/app/cross_validation/planning.py:48-57 | once a plan also passes the registry check no two of its runs name one model |
| CrossValidation.RegistrySupportsIff | policyos-app/app/cross_validation/planning.py:38-81 | a plan is accepted exactly when it names this registry and each run's model, provider and adapter are registered, belong together, are active and have the capabilities planned |
| CrossValidation.RunSupportIsExact | policyos-app/app/cross_validation/planning.py:38-81 | the same for one run, with the error of the first demand missed |
| CrossValidation.AuthorizationBindsIff | policyos-app/app/cross_validation/planning.py:98-225 | an authorization is bound exactly to a run of the plan that context, decision, permit and approval all intend, field by field, while the permit is in force; then with every field |
| CrossValidation.AuthorizedRunsBind | policyos-app/app/cross_validation/planning.py:98-225 | an authorization bound to a valid plan is never refused as foreign when its result is bound, and was bound inside its permit's window |
| CrossValidation.ResultBindsIff | policyos-app/app/cross_validation/collection.py:23-120 | a result of a bound authorization is bound exactly when the answer repeats permit, decision, approval and planned run; then with every field |
| CrossValidation.BoundRun | policyos-app/app/cross_validation/collection.py:23-120 | a bound result answers one planned run of the plan, from that run's provider and model, and succeeded exactly when the normalized result did |
| CrossValidation.CreateRunCollection | policyos-app/app/cross_validation/collection.py:123-188 | the builder with its table of results computes the specified collection or error |
| RunCollections.CollectionSucceedsIff | policyos-app/app/cross_validation/domain.py:246-279 | for a valid plan the builder accepts exactly results of its own runs, one each at most, with the error otherwise; the collection names its plan, passes its separate validator, holds precisely those results, and successes + failures + missing = expected |
| CrossValidation.CountIsMultiplicity | policyos-app/app/cross_validation/collection.py:158-171 | successes and failures are the multiplicities of the two outcomes among the results' |
| RunCollections.BoundResultsCollect | policyos-app/app/cross_validation/collection.py:123-188 | results bound to a valid plan, one for each run at most, can always be collected |
| RunCollections.CollectionIgnoresOrder | policyos-app/app/cross_validation/collection.py:123-188 | the order of results changes neither the collection nor the error |
| RunCollections.CompleteStaysComplete | policyos-app/app/cross_validation/collection.py:162-171 | a complete collection stays complete when further results are added |
| Comparison.CountRelations | policyos-app/app/cross_validation/comparison.py:361-367 | the dictionary loop computes the histogram in text order |
| Comparison.HistogramIsValid | policyos-app/app/cross_validation/comparison.py:310-318 | the histogram lists exactly the occurring relations, in order, each with its number of records |
| Comparison.HistogramIsUnique | policyos-app/app/cross_validation/comparison.py:310-318 | only that sequence satisfies the validator's description |
| Comparison.CountsSumToRecords | policyos-app/app/cross_validation/comparison.py:310-318 | the relation counts add up to the completed comparisons |
| Comparison.CountIsMultiplicity | policyos-app/app/cross_validation/comparison.py:361-367 | each count is the multiplicity of its relation among the records' |
| Comparison.RelationsFollowText | policyos-app/app/cross_validation/comparison.py:366-366 | the order of the histogram is the order of the relations' text |
| Comparison.CreateCollection | policyos-app/app/cross_validation/comparison.py:338-388 | the builder computes the specified collection or error, and a collection it returns passes the validator |
| Comparison.CollectedIsValid | policyos-app/app/cross_validation/comparison.py:299-335 | what is built passes every check of the separate validator; completed + missing = requested and the counts sum to completed |
| Comparison.CollectionSucceedsIff | policyos-app/app/cross_validation/comparison.py:338-388 | the builder accepts exactly unrepeated, expected records of its plan within the limit, with the error of the first demand missed |
| Comparison.CollectionIgnoresOrder | policyos-app/app/cross_validation/comparison.py:338-388 | neither the order of expectations nor that of records matters, errors included |
| Claims.SetSucceedsIff | policyos-app/app/cross_validation/claims.py:151-177 | a set is built exactly from one to a hundred claims that repeat the given result's lineage, run, identity, provider and model, none repeated or classified above the set, and holds them in canonical order |
| Claims.SetFailsWith | policyos-app/app/cross_validation/claims.py:87-177 | which error a set that is not built fails with |
| Claims.SetIgnoresOrder | policyos-app/app/cross_validation/claims.py:151-177 | a built set does not depend on the order of its claims |
| Claims.SetClaimsStand | policyos-app/app/cross_validation/claims.py:124-148 | claims of a set built on a succeeded result stand on that result as consensus requires |
| Consensus.IndexClaims | policyos-app/app/cross_validation/consensus.py:298-305 | the index holds every claim under its identity, and is refused exactly when an identity repeats |
| Consensus.CandidateSucceedsIff | policyos-app/app/cross_validation/consensus.py:308-414 | a candidate is created exactly when claims, records and evidence resolve and belong to the assessment, the claims stand on succeeded results, nothing is classified above it, an agreement has enough runs, and it passes its validator |
| Consensus.CandidateIsValidIff | policyos-app/app/cross_validation/consensus.py:254-296 | what is built from resolved claims is valid exactly when the request repeats nothing and keeps to the bounds, and an agreement has two runs |
| Consensus.ReferencesAreExact | policyos-app/app/cross_validation/consensus.py:323-351 | the error of the first reference demand missed |
| Consensus.SelectedAreExact | policyos-app/app/cross_validation/consensus.py:352-386 | the error of the first demand the selected claims miss |
| Consensus.CandidateHolds | policyos-app/app/cross_validation/consensus.py:386-414 | a candidate holds the request's own references and exactly the runs, results, models and providers of its claims |
| Consensus.AgreedRestsOnIndependentRuns | policyos-app/app/cross_validation/consensus.py:308-414 | when results are bound to a valid plan, an agreed candidate's runs are at least the minimum number of different planned runs, no two from one provider and model, each with a succeeded result and a selected claim |
| Consensus.AgreedNamesDistinctModels | policyos-app/app/cross_validation/consensus.py:386-395 | when the plan also passed the registry check the candidate's support lists at least the minimum number of distinct models |
| Consensus.AgreedIff | policyos-app/app/cross_validation/consensus.py:588-609 | agreement is derived exactly when every expected comparison and no other is present, all are compatible and miss no evidence, and there is one |
| Consensus.ConflictsShow | policyos-app/app/cross_validation/consensus.py:588-609 | without a manual review, complete comparisons are conflicting exactly when one of them conflicts |
| Consensus.StatusIsExact | policyos-app/app/cross_validation/consensus.py:588-609 | every derived status, record by record: review, completeness, conflict, evidence, then agreement of all, of some, or of none |
| Consensus.AgreementIsDeclaredIff | policyos-app/app/cross_validation/consensus.py:308-414 | a request that creates a candidate of another status creates an agreed one, with only the status changed, if and only if its distinct runs number at least the assessment's minimum and two |
| Consensus.CandidateIgnoresFindings | policyos-app/app/cross_validation/consensus.py:308-414 | records that differ only in relation and missing evidence give the same candidate or the same error |
| Consensus.AgreedOverContradiction | policyos-app/app/cross_validation/consensus.py:588-609 | the witness: an agreed candidate whose only comparison is a contradiction, where the derived status is a conflict |
| Handoff.PackageSucceedsIff | policyos-app/app/cross_validation/consensus.py:713-791 | a decision package is created exactly from unrepeated items of one assessment, none classified above it, among which the decision's references resolve; it then holds just those items and passes its separate validator |
| Handoff.NothingUnresolvedIsLost | policyos-app/app/cross_validation/secretary_handoff.py:257-518 | in every accepted chain conflicts and reviews are the same sequences in package, decision, handoff, input, result and approval request; candidates may be dropped but not invented |
| Handoff.ApprovalIsAskedExactly | policyos-app/app/cross_validation/secretary_handoff.py:493-518 | the package carries an approval request exactly when the result requires one, that is when something is unresolved or publication needs a separate approval; publication is never open, and ready means nothing unresolved |
| Handoff.ReadyIff | policyos-app/app/cross_validation/secretary_handoff.py:55-68 | a handoff is ready exactly when integration is allowed, nothing is unresolved and the decision is agreed or partially agreed |
| Handoff.BlockedIff | policyos-app/app/cross_validation/secretary_handoff.py:55-68 | each other status names what stands in the way: a review, a conflict, an incomplete comparison, missing evidence, or no permission |
| Handoff.HandoffSucceedsIff | policyos-app/app/cross_validation/secretary_handoff.py:105-175 | which packages can be handed over, with the error of the first demand missed |
| Handoff.LineageIsKept | policyos-app/app/cross_validation/secretary_handoff.py:150-290 | handoff and input name the package, the plan's lineage and the decision they come from |
| Handoff.LineageIsKeptOn | policyos-app/app/cross_validation/secretary_handoff.py:330-440 | result and approval request name package, tenant, resource and the stage before, and repeat status and eligibilities |
| Handoff.InputSucceedsIff | policyos-app/app/cross_validation/secretary_handoff.py:257-290 | for which handoffs a package makes an input, with the error of the first demand missed |
| Handoff.IntegrationSucceedsIff | policyos-app/app/cross_validation/secretary_handoff.py:325-380 | which results can be recorded: every conflict and review retained, no candidate invented, nothing twice; with the error of the first demand missed |
| Handoff.FinalSucceedsIff | policyos-app/app/cross_validation/secretary_handoff.py:443-518 | which parts make a final package, with the error of the first demand missed |
| Handoff.ClassificationNeverDrops | policyos-app/app/cross_validation/secretary_handoff.py:460-490 | no stage lowers a classification; the final package dominates every item inside |
| Handoff.SummariesAreFaithful | policyos-app/app/cross_validation/secretary_handoff.py:226-254 | each summary repeats what the package says of its item, position by position |
| Handoff.EveryHandoffCompletes | policyos-app/app/cross_validation/secretary_handoff.py:105-518 | every accepted handoff can be carried to an accepted final package, whatever is unresolved in it |
| Handoff.RetainedAll | policyos-app/app/cross_validation/secretary_handoff.py:351-354 | retaining the same set of identities canonically is retaining the same tuple |

## Left out

- Identities are numbers: the text order of UUIDs is their numeric order, so sorting by text is sorting by number. In `Integrity`, where the text itself matters, a UUID is its 32 hexadecimal digits.
- Instants and times are integers, or reals in `Retry`; the requirement that datetimes carry an offset is met by their type. A datetime whose conversion to UTC leaves the years 1 to 9999 raises in the source and has no value here.
- Object-relational mapping and driver behaviour: tables are sequences, maps or sets of rows, new rows start with zero counters, and row identities are positions. Attribute expiry, flush order and SQL text are not modelled.
- Concurrent database sessions: one session runs at a time, so isolation levels and lock waits do not appear.
- A violation of NOT NULL or of a length other than the content hash is a failing call or a payload that does not normalize.
- `except Exception` does not catch an asyncio cancellation, so a cancelled sync run is not one of the outcomes of a run.
- Descriptive columns and fields that no modelled code reads are folded into one `details` value.
- The scope of `GeminiScope` is used through `async with`, nobody cancels its internal cleanup task, and a cancelled caller eventually finishes; providers, credentials and audit sinks are outcomes of a step.
- HTTP, DNS, TLS, credential lookup and the size of a response body: a send is one of the outcomes the retry loop distinguishes.
- Rounding of floating-point delays, scores and schema minima: they are reals.
- SHA-256: a function passed in, assumed free of collisions only where a lemma says so.
- JSON numbers other than natural numbers and the other JSON values do not occur in the digest's input.
- Schemas whose keywords have the wrong JSON type count as malformed, also where the interpreter would happen to accept them (a string of required names, a numeric string as minimum); keywords outside the listed fragment are not judged.
- TRUNCATE fires no row trigger and would empty the rate tables; the statements of `RateAdmission` are row inserts, updates and deletes.
- Migrations other than 0024 and 0025 appear only through the constraints the proofs rely on; revocations and the permission row of 0024, and the downgrades, are not modelled.
- The transition's own reason and failure metadata validator, and the authorization capability with its single value, in the execution state machine.
- Field patterns and length bounds, except where a builder must meet its validator.
- Comparison specifications and records before they reach a collection, conflict groups, review requirements and decision records before they reach a package, and evidence links: field copying with membership checks.
- Configuration and endpoint validation of connectors, metadata redaction, audit record constructors, and the other providers: plumbing.
