# Models of the durable stores and the dense algorithmic cores

This project models parts of a Python system for durable agent work and proves what those parts promise. It verifies on
its own with `dafny verify dfyconfig.toml`.

**The invocation store.** A queue of jobs and attempts that any number of processes share through one database. Each
operation (enqueue, claim, heartbeat, complete, fail, recovery) is a function from two tables to two tables, an answer and a
receipt (`InvocationSteps`); a class with the same operations as methods runs them statement by statement and is proved
against those functions (`InvocationStore`). `InvocationWorld` is the machine around it: any number of stores, clocks that may
run backward, and a driver that may fail at BEGIN, in the body, at COMMIT, at ROLLBACK, while reading back and while closing,
with COMMIT errors that leave the transaction open, durable or lost. Between a failed COMMIT and its read-back everybody else
may act. What each operation does to the rows is stated column by column (`InvocationOperations`), what each call is told
script by script (`InvocationVerdicts`), what read-back looks for (`InvocationReceipts`), when a lease ends
(`InvocationDeadlines`), and which call wrote each column (`InvocationOrigins`). `InvocationTheorems` states the results for every run from the empty database, and `InvocationKeepAlive` that a lease beaten
in time survives every such run.

**The artifact ledger.** An in-memory cache of artifact versions that must equal a fold of an event log other writers append
to (`LedgerReplay`, `LedgerSystem`), and the ledger object with its paged rebuild and its admission loop, in which other writers
act between any two steps (`LedgerStore`). `LedgerAnswers` says which version a repeated request
gets, `LedgerRecords` what a request stores, and `LedgerSizes` what the counted sizes are in bytes of text.

**The artifact store.** Versions over content-addressed blobs: the write transaction, the readers in storage order, and the
store object (`ArtifactTables`, `ArtifactReaders`, `ArtifactStore`, `ArtifactTheorems`), with every outcome of a write (`ArtifactWrites`) and
of a read (`ArtifactReads`).

**Dense cores.** License expressions (`SpdxGrammar`, `SpdxText`, `SpdxParser`,
`SpdxAutomaton`, `SpdxSpelling`), the schema SQL canonicalizer (`SqlPieces`,
`SqlCanonical`, `SqlRegions`, `SqlFixpoint`, `SqlIdempotence`), the topology registry with its depth-first cycle check and the catalog classifier
(`DependencyGraph`, `Topology`, `TopologyRegistries`,
`TopologyProfiles`, `TopologyClassify`), the PNG pass arithmetic and scanline validator
(`PngInterlace`, `PngScanlines`), and the three metadata limit checkers with freezing (`JsonLimits`, `JsonPaths`, `JsonWalks`).

Conventions. A timestamp is a whole number of microseconds. A SHA-256 digest is a collision-free function of what it digests
(`Digest`, `BlobDigest`, `Fingerprint`). Random identifiers and tokens are arguments; where a result needs them fresh, it says
so. Exceptions are result values. A reading of the clock, and everything the database driver does, is an argument or a
nondeterministic choice. Texts are compared by code point, as SQLite's BINARY collation does.

What the code does where one might expect more, each with its exact condition and a concrete input or run that shows it:

- An expired lease that nobody has fenced acts again when the clock goes back. A lease acts exactly from its rows' last update
  up to its deadline (`InvocationExamples.UnfencedLeaseActsExactlyWhen`; `InvocationExamples.ExpiredLeaseActsAgain` is a run).
- A retry of an enqueue under a fresh invocation id is answered with the first row and its id, exactly when one other row
  collides with the request and matches it (`InvocationExamples.EnqueueAnswersOtherIdExactlyWhen`;
  `InvocationExamples.RetryUnderAnotherId` is a run).
- `record` of a content recorded before answers with that old version, exactly when the log holds another version of the
  artifact behind it (`LedgerAnswers.AnswerIsOldExactlyWhen`; `LedgerAnswers.FirstTextIsAnsweredOld` is a run, and
  `LedgerAnswers.TwoTextsExist` gives its inputs).
- `record` meets another artifact's idempotency slot when the labels "task:name" coincide although task and name do not; it then
  answers with a replay error (`LedgerStore.Ledger.Record`). Slots are kept apart exactly by session, content and label
  (`LedgerRecords.SlotsByRequest`; `LedgerRecords.LabelsCollide` gives two such requests).
- The SQL canonicalizer is not idempotent: a second pass changes something exactly for two trailing semicolons or two leading
  clauses (`SqlIdempotence.CanonicalIsIdempotentWhen`, with `SqlFixpoint.TwoSemicolons` and `SqlIdempotence.TwoClauses`).

## Model

| member | source | states |
|---|---|---|
| `InvocationTheorems.EveryInvocationRunsOnce` | src/quantum_entanglement/attempts.py:956-1122 | in every run of any stores under any clocks and faults, no invocation starts running twice or stops running twice |
| `InvocationTheorems.SettledRowsAreFinal` | src/quantum_entanglement/attempts.py:2631-2654 | once an invocation has stopped running, no later event changes its job or attempt row, and every heartbeat, complete or fail with any lease for it is answered false without effect |
| `InvocationTheorems.AtMostOneLease` | src/quantum_entanglement/attempts.py:2480-2598 | over a whole run at most one call is ever answered with a lease for an invocation, claims through read-back included |
| `InvocationTheorems.AllAcknowledgementsAgree` | src/quantum_entanglement/attempts.py:2411-2438 | every acknowledgement of an invocation's end, direct or read back, by complete, fail or recovery, names the settlement its rows record, so all agree in kind, time, result and error |
| `InvocationTheorems.ReturnsAreBorneOut` | src/quantum_entanglement/attempts.py:1543-1564 | what a call returned is borne out by the durable rows at that moment and after any further events: an acknowledged heartbeat at time t has moved the beat to at least t and the deadline to at least a full length behind t, a lease is bound to rows beaten and expiring no earlier than it says |
| `InvocationTheorems.BeatsAreBorneOut` | src/quantum_entanglement/attempts.py:2739-2781 | in columns, at any time after: an acknowledged beat or lease has its attempt heard of no earlier than the call and its deadline no earlier than a full length behind it |
| `InvocationTheorems.ReturnsAreDurable` | src/quantum_entanglement/attempts.py:1543-1564 | at the moment a call returns, straight from COMMIT or after read-back, the durable rows pass every comparison its own read-back makes, with the same answer |
| `InvocationTheorems.UnacknowledgedCommitsAreSound` | src/quantum_entanglement/attempts.py:1222-1366 | a call that reports its transaction as not applied left no trace; an outcome that cannot be reconciled has already poisoned the store; a transaction stays open only on a poisoned store; the tables move by whole steps only |
| `InvocationTheorems.PoisonedStoresStayOut` | src/quantum_entanglement/attempts.py:1428-1447 | a poisoned store stays poisoned through any further events, refuses every call and touches nothing |
| `InvocationVerdicts.CallsEndExactly` | src/quantum_entanglement/attempts.py:1222-1366 | in every reachable world, for every operation and every way the driver can go, a call on a usable store ends exactly so: its answer exactly when the step succeeds and COMMIT is acknowledged; the fault by name exactly when the body raises conflict, integrity, clock regression or a bad value and ROLLBACK is acknowledged; rolled back for an internal fault, a refused BEGIN or a COMMIT that left the transaction open; pending exactly when COMMIT failed and the transaction ended; ambiguous or a control signal otherwise; with the tables, the quarantine and everything else afterwards |
| `InvocationVerdicts.ReadBacksEndExactly` | src/quantum_entanglement/attempts.py:1519-1564 | reading back right after such a commit gives the step's own answer exactly when the step became durable, had nothing to change or nothing to look for, and otherwise ambiguous or a control signal; and exactly when the store is quarantined |
| `InvocationVerdicts.UnusableStoresReadNothing` | src/quantum_entanglement/attempts.py:1519-1564 | a store closed or quarantined while a commit was pending confirms only receipts that need no reading |
| `InvocationVerdicts.RefusalsTouchNothing` | src/quantum_entanglement/attempts.py:1428-1447 | a bad argument, a poisoned store and a closed store are refused in this order, and touch nothing |
| `InvocationVerdicts.StoresOpenAndClose` | src/quantum_entanglement/attempts.py:3083-3093 | opening gives a usable store; closing marks it closed whatever the driver says and ends its transaction with the connection |
| `InvocationVerdicts.ClosedStoresStayClosed` | src/quantum_entanglement/attempts.py:3083-3093 | a closed store stays closed through any further events |
| `InvocationTheorems.EnqueuesAddOrMatch` | src/quantum_entanglement/attempts.py:882-953 | in every reachable database enqueue adds one queued job with the request, or returns the one existing row with exactly this request, or raises conflict, and only the first changes anything |
| `InvocationOperations.EnqueuesWriteTheRequest` | src/quantum_entanglement/attempts.py:882-953 | in every reachable database, in columns: enqueue adds exactly this row, or returns the one row in the way if it was asked for with the same request up to the id, or raises conflict |
| `InvocationTheorems.ClaimsTakeTheFirst` | src/quantum_entanglement/attempts.py:956-1018 | in every reachable database a claim leases the least never-attempted available job by priority, availability, creation and id, answers none exactly when there is none, raises clock regression exactly when that job was updated after the clock reading, and otherwise an internal fault exactly when its token or attempt id is in use already |
| `InvocationOperations.ClaimsTakeTheMostUrgent` | src/quantum_entanglement/attempts.py:956-1018 | in every reachable database the job a claim leases is queued, never attempted, available and the claim's target if it has one, and every other such job has a lower priority, or the same priority and a later availability, or the same and a later creation, or the same and a greater id; none is answered exactly when there is no such job |
| `InvocationOperations.ClaimsWriteTheLease` | src/quantum_entanglement/attempts.py:1021-1122 | a claim that leases writes exactly these columns of its job, its attempt and its lease, and of all other rows changes only expired leases |
| `InvocationOperations.ClaimsSweepFirst` | src/quantum_entanglement/attempts.py:2480-2536 | before it looks for a job a claim fences expired leases: without a target the thousand with the earliest deadlines, with a target that job alone; what it fenced is all it changes besides its own lease, and what its receipt lists when it found no job |
| `InvocationTheorems.RecoveriesFenceTheFirst` | src/quantum_entanglement/attempts.py:2322-2409 | in every reachable database recovery with limit k fences exactly the first k expired leases, reports them split by attempt budget, settles them, and makes no job claimable now or later |
| `InvocationOperations.RecoveriesFenceTheEarliest` | src/quantum_entanglement/attempts.py:2322-2409 | in every reachable database a recovery fences exactly the expired leases with the earliest deadlines, equal deadlines by id, as many as its limit allows; in columns, what a fenced job and its attempt become; the report lists requeued and exhausted jobs in deadline order |
| `InvocationOperations.RecoveriesWithRoomFenceAll` | src/quantum_entanglement/attempts.py:2322-2409 | a recovery with room for all expired leases fences every one |
| `InvocationOperations.HoldersActExactlyWhen` | src/quantum_entanglement/attempts.py:2193-2305 | in every reachable database the five outcomes of heartbeat, complete and fail, each exactly: bad value, not acknowledged, integrity, clock regression, acknowledged |
| `InvocationOperations.OnlyTheGrantedLeaseActs` | src/quantum_entanglement/attempts.py:2193-2305 | once a lease was handed out for a job, no lease that differs from it in anything but its deadline ever acts |
| `InvocationOperations.BeatsWriteTheDeadline` | src/quantum_entanglement/attempts.py:2656-2736 | an acknowledged beat sets both deadlines to exactly the later of the old one and a full length from now, the beat and update times to now, and nothing else |
| `InvocationOperations.CompletionsWriteTheResult` | src/quantum_entanglement/attempts.py:2783-2864 | an acknowledged completion writes exactly these columns |
| `InvocationOperations.FailuresWriteTheError` | src/quantum_entanglement/attempts.py:2911-3019 | an acknowledged failure writes exactly these columns: queued for the later of now and the time asked for while the budget lasts, failed otherwise |
| `InvocationDeadlines.LastBeatDecides` | src/quantum_entanglement/attempts.py:2656-2736 | behind its last durable beat at t with length n, in every run, a job has stopped running or its deadline is exactly the later of t + n and the deadline before that beat |
| `InvocationDeadlines.DeadlinesMoveByBeatsOnly` | src/quantum_entanglement/attempts.py:2322-2409 | in every run without a beat of the lease its rows stay as they are until its job stops running for good |
| `InvocationDeadlines.IdleLeasesAreFenced` | src/quantum_entanglement/attempts.py:2322-2409 | a lease no longer beaten is settled by any recovery at or after its deadline that has room for all expired leases |
| `InvocationOrigins.RowsComeFromCalls` | src/quantum_entanglement/attempts.py:882-1122 | in every run, whatever fails: each job row was asked for by an enqueue at its creation time, each attempt was started by a claim with its names at its start time, its last beat and its deadline come from its claim or a beat with its token, and its end, result and error from its holder's call or a sweep at that time |
| `InvocationOperations.ReachableJobs` | src/quantum_entanglement/attempts.py:1680-1898 | the columns of every reachable job row, status by status |
| `InvocationOperations.ReachableAttempts` | src/quantum_entanglement/attempts.py:1680-1898 | the columns of every reachable attempt row together with its job's |
| `InvocationTheorems.LeasesBeatenInTimeLive` | src/quantum_entanglement/attempts.py:2656-2736 | step by step without driver faults: a claimed lease beaten at gaps shorter than its length on a non-decreasing clock is never fenced, whatever other stores do; each beat returns true and the deadline never shrinks |
| `InvocationTheorems.ClaimIsHeld` | src/quantum_entanglement/attempts.py:1021-1122 | a lease just claimed is valid, bound to its rows, and held until a full length after the claim |
| `InvocationKeepAlive.LeasesLiveThroughFaults` | src/quantum_entanglement/attempts.py:2656-2736 | in the whole world: from the event that grants a lease, in every run on a clock that never goes back whose answered beats follow at gaps shorter than the lease, however drivers fail and whatever others do, the lease stays running, its deadline never shrinks, and every beat that returns returns true |
| `InvocationKeepAlive.FaultlessBeatsReturnTrue` | src/quantum_entanglement/attempts.py:2656-2736 | in such a run a beat in time through a usable store whose driver does not fail returns true |
| `InvocationKeepAlive.GrantIsHeld` | src/quantum_entanglement/attempts.py:2538-2598 | a lease granted in any reachable world, by COMMIT or by read-back, is valid and held for its full length from its claim |
| `InvocationExamples.UnfencedLeaseActsExactlyWhen` | src/quantum_entanglement/attempts.py:2631-2654 | in every reachable database a lease nobody has fenced acts exactly at readings from its rows' last update up to its deadline, and a beat needs a deadline in range, whatever was read before |
| `InvocationExamples.ExpiredLeaseActsAgain` | src/quantum_entanglement/attempts.py:2631-2654 | a concrete run in which a lease is refused as expired and then, on an earlier reading, completes its job |
| `InvocationExamples.EnqueueAnswersOtherIdExactlyWhen` | src/quantum_entanglement/attempts.py:1901-1964 | in every reachable database enqueue answers with a row of another id exactly when that row alone collides with the request and matches it |
| `InvocationExamples.RetryUnderAnotherId` | src/quantum_entanglement/attempts.py:1901-1964 | a concrete run in which an enqueue retried under a fresh id is answered with the first row |
| `InvocationFencing.ReachableRowsAreAccepted` | src/quantum_entanglement/attempts.py:1680-1898 | every job row, attempt row and recovery snapshot of every reachable database passes the validators, each job has as many attempts as it counts, and the unique constraints hold |
| `InvocationFencing.RunsOnce` | src/quantum_entanglement/attempts.py:956-1122 | the same from any valid world: running is entered once and left once |
| `InvocationFencing.SettledForever` | src/quantum_entanglement/attempts.py:2322-2409 | from any valid world a settled invocation's rows never change again |
| `InvocationFencing.SettledIgnoresLeases` | src/quantum_entanglement/attempts.py:2631-2654 | a lease presented for a settled invocation has no effect and gets no acknowledgement |
| `InvocationFencing.OneLeasePerInvocation` | src/quantum_entanglement/attempts.py:2538-2598 | two answered claims of one invocation drew the same attempt id and token |
| `InvocationFencing.AcknowledgementsNameTheSettlement` | src/quantum_entanglement/attempts.py:2866-2909 | an acknowledged settlement is the one the durable rows record |
| `InvocationFencing.OneSettlementPerInvocation` | src/quantum_entanglement/attempts.py:3022-3074 | any two acknowledgements of one invocation are equal |
| `InvocationFencing.PoisonIsForever` | src/quantum_entanglement/attempts.py:1441-1447 | quarantine survives every event and keeps later calls off the tables |
| `InvocationSelection.ClaimTakesTheFirst` | src/quantum_entanglement/attempts.py:2480-2536 | the claim's whole outcome on valid tables, internal faults included, with the lease it hands out; the order in row columns is `InvocationOperations.ClaimsTakeTheMostUrgent` |
| `InvocationSelection.EnqueueAddsOneWaitingJob` | src/quantum_entanglement/attempts.py:1901-1964 | a new job becomes a candidate exactly from its requested time or its enqueue on, and a retry of the same request returns that very row and changes nothing |
| `InvocationSelection.FaultsExplained` | src/quantum_entanglement/attempts.py:2631-2654 | which fault each operation can raise on valid tables, and for integrity and bad values exactly when |
| `InvocationSelection.FailureGoesByBudget` | src/quantum_entanglement/attempts.py:2911-3019 | an acknowledged failure is terminal exactly when the attempt budget is spent, otherwise queued no earlier than now and the time asked for, with the stored error and without a lease |
| `InvocationSelection.RecoveryFencesTheFirst` | src/quantum_entanglement/attempts.py:2441-2478 | recovery fences exactly the listed first expired leases and leaves every other row alone |
| `InvocationSelection.RecoveryMakesNothingClaimable` | src/quantum_entanglement/attempts.py:2322-2409 | a fenced job is never a first-claim candidate again, and every candidate after recovery was one before |
| `InvocationSelection.ForeignLeavesAlone` | src/quantum_entanglement/attempts.py:2322-2409 | steps that do not present a running job's token leave its rows alone until its deadline |
| `InvocationSelection.BeatIsAcknowledged` | src/quantum_entanglement/attempts.py:2656-2736 | a heartbeat in time returns true, extends the lease to at least a full length from now and never shortens it; the exact deadline is `InvocationOperations.BeatsWriteTheDeadline` |
| `InvocationSelection.KeepAlive` | src/quantum_entanglement/attempts.py:2739-2781 | a held lease beaten in time survives any interleaving of steps |
| `InvocationSelection.ScheduleIsInTime` | src/quantum_entanglement/invocation_worker.py:93-98 | beats at a third of the lease stay in time although any single one is missed |
| `InvocationSelection.OneMissedBeatIsSurvivable` | src/quantum_entanglement/invocation_worker.py:93-98 | with an interval of at most a third of the lease and no two beats missed in a row, a recovery running in place of each missed one, the lease is still running after every tick, its deadline never shrinks and every delivered beat is acknowledged |
| `InvocationWorld.TransactOutcome` | src/quantum_entanglement/attempts.py:1280-1366 | one write transaction: tables unchanged or one whole step ahead, with a verdict that fits which; the verdict itself, script by script, is `InvocationVerdicts.CallsEndExactly` |
| `InvocationWorld.ReconcileOutcome` | src/quantum_entanglement/attempts.py:1519-1564 | reconciliation returns only answers that the tables bear out and that its own read-back of them confirms, and a control signal without confirmation poisons the store |
| `InvocationWorld.ReadBackAgrees` | src/quantum_entanglement/attempts.py:2307-2320 | whatever read-back answers, the rows it read bear out, beat times and deadlines included |
| `InvocationWorld.AgreesPersists` | src/quantum_entanglement/attempts.py:2783-2864 | an answer once true of the rows stays true as rows advance, for beats and deadlines as lower bounds |
| `InvocationWorld.AfterKeepsWorld` | src/quantum_entanglement/attempts.py:1125-1181 | every event keeps the rows valid, the acknowledgements true and open transactions quarantined |
| `InvocationWorld.RunKeepsWorld` | src/quantum_entanglement/attempts.py:1125-1181 | so does every run, and rows only ever advance |
| `InvocationReadBack.SnapshotOnValid` | src/quantum_entanglement/attempts.py:2061-2147 | on valid tables the recovery snapshot is the job with its attempts, current attempt last |
| `InvocationReadBack.SnapshotNeverRaises` | src/quantum_entanglement/attempts.py:1992-2058 | on valid tables the strict recovery snapshot accepts every task |
| `InvocationReadBack.SnapshotsProveHistories` | src/quantum_entanglement/attempts.py:1992-2147 | whatever the tables hold, the recovery snapshot answers exactly when a task has no row, or one valid row whose whole attempt history is numbered 1, 2, ..., of rising epochs, never overlapping, all but the current attempt failed or expired, and agrees with the row |
| `InvocationReadBack.ScanAcceptsGoodHistories` | src/quantum_entanglement/attempts.py:2061-2147 | the history loop accepts exactly such histories |
| `InvocationReadBack.LeaseSnapshotOnValid` | src/quantum_entanglement/attempts.py:2307-2320 | the lease snapshot is exactly the bound job and attempt rows |
| `InvocationReadBack.DurableStepIsConfirmed` | src/quantum_entanglement/attempts.py:2538-2598 | a step that became durable is confirmed by its own read-back with its own answer |
| `InvocationReadBack.LostStepIsNotConfirmed` | src/quantum_entanglement/attempts.py:1920-1964 | a step that was lost is never confirmed, unless it had nothing to change |
| `InvocationReadBack.TornReadBackIsHarmless` | src/quantum_entanglement/attempts.py:2411-2438 | a sweep read-back over two different snapshots confirms no more than one over a single snapshot |
| `InvocationReceipts.ReadBacksCompareColumns` | src/quantum_entanglement/attempts.py:2739-2909 | in every reachable database each kind of read-back confirms exactly when the rows show exactly these columns |
| `InvocationInvariant.StepKeepsInv` | src/quantum_entanglement/attempts.py:2656-3019 | every operation keeps every row and every job and attempt pair accepted by the validators, under any clock reading, and rows only advance |
| `InvocationInvariant.FenceKeepsInv` | src/quantum_entanglement/attempts.py:2322-2409 | fencing one expired lease always succeeds on valid tables although recovery checks no clock order: a running lease expires after its last update |
| `InvocationInvariant.SweepKeepsInv` | src/quantum_entanglement/attempts.py:2322-2409 | the whole recovery loop succeeds, fences exactly the selected rows and splits them by budget |
| `InvocationInvariant.ExpiredRowsAreFirst` | src/quantum_entanglement/attempts.py:2322-2409 | a sweep with limit k selects the first k expired leases by deadline and id |
| `InvocationInvariant.CandidateIsLeast` | src/quantum_entanglement/attempts.py:956-1018 | on valid tables candidate selection finds the least available never-attempted job and only the clock can refuse it; the order in row columns is `InvocationOperations.ClaimsTakeTheMostUrgent` |
| `InvocationInvariant.ClaimRowKeepsInv` | src/quantum_entanglement/attempts.py:1021-1122 | the claim's compare-and-set and insert keep the rows valid and hand out a lease bound to them |
| `InvocationInvariant.ClaimOnValid` | src/quantum_entanglement/attempts.py:2480-2536 | the claim transaction, sweep included, explained by the candidates it started from |
| `InvocationInvariant.OwnedOnValid` | src/quantum_entanglement/attempts.py:2193-2305 | on valid tables the ownership check passes exactly for the lease bound to the running rows, stale leases are told so, and clock regression is exactly a reading before the last update |
| `InvocationInvariant.HeartbeatKeepsInv` | src/quantum_entanglement/attempts.py:2656-2736 | a heartbeat keeps the rows valid and advances them |
| `InvocationInvariant.CompleteKeepsInv` | src/quantum_entanglement/attempts.py:2783-2864 | completion keeps the rows valid and advances them |
| `InvocationInvariant.FailKeepsInv` | src/quantum_entanglement/attempts.py:2911-3019 | failure keeps the rows valid and advances them, requeued or terminal |
| `InvocationInvariant.EnqueueKeepsInv` | src/quantum_entanglement/attempts.py:882-953 | enqueue adds one valid row with unique keys, returns the matching existing row, or raises conflict |
| `InvocationText.StoredErrorIsPersistable` | src/quantum_entanglement/attempts.py:656-658 | the stripped and shortened error text is one the row validator accepts |
| `InvocationText.StoredErrorIsTheCore` | src/quantum_entanglement/attempts.py:656-658 | the stored error is the first 4096 characters of what stands between the blanks around it |
| `InvocationText.CoreExists` | src/quantum_entanglement/attempts.py:656-658 | every text that is not blank has such a core |
| `Common.BeforeByFirstDifference` | src/quantum_entanglement/attempts.py:979-1002 | texts are ordered by the first character in which they differ, a beginning first |
| `InvocationStore.Store.EnqueueInTransaction` | src/quantum_entanglement/attempts.py:882-953 | the enqueue body on the two mutable tables equals the enqueue step |
| `InvocationStore.Store.RecoverExpiredInTransaction` | src/quantum_entanglement/attempts.py:2322-2409 | the recovery loop, row by row, equals the sweep |
| `InvocationStore.Store.ClaimInTransaction` | src/quantum_entanglement/attempts.py:2480-2536 | the claim body equals the claim step, which `InvocationOperations.ClaimsTakeTheMostUrgent` and `InvocationOperations.ClaimsWriteTheLease` give in columns |
| `InvocationStore.Store.HeartbeatInTransaction` | src/quantum_entanglement/attempts.py:2656-2736 | the heartbeat body equals the heartbeat step, which `InvocationOperations.BeatsWriteTheDeadline` gives in columns |
| `InvocationStore.Store.CompleteInTransaction` | src/quantum_entanglement/attempts.py:2783-2864 | the completion body equals the completion step |
| `InvocationStore.Store.FailInTransaction` | src/quantum_entanglement/attempts.py:2911-3019 | the failure body equals the failure step |
| `InvocationStore.Store.PoisonStore` | src/quantum_entanglement/attempts.py:1428-1439 | poisoning sets both flags for good and closes the connection unless closing fails |
| `InvocationStore.Store.Commit` | src/quantum_entanglement/attempts.py:1308-1366 | finishing a transaction, with every way COMMIT, inspection, ROLLBACK and close can go, equals the specified turn |
| `InvocationStore.Store.Perform` | src/quantum_entanglement/attempts.py:1222-1366 | a whole write transaction on the store's fields equals the specified turn, which `InvocationVerdicts.CallsEndExactly` gives script by script |
| `InvocationStore.Store.RecoverySnapshot` | src/quantum_entanglement/attempts.py:2061-2147 | the attempt-history loop with its running variables computes the recovery snapshot |
| `InvocationStore.Store.Settle` | src/quantum_entanglement/attempts.py:1519-1564 | reconciliation on the store's fields equals the specified reconciliation |
| `InvocationStore.Store.CloseConnection` | src/quantum_entanglement/attempts.py:3083-3093 | closing marks the store closed whatever the driver does |
| `LedgerReplay.PrefixReplays` | src/quantum_entanglement/artifacts.py:152-214 | every prefix of a replayable log replays, and each next entry is one fold step |
| `LedgerReplay.ReplayOrders` | src/quantum_entanglement/artifacts.py:580-588 | a replayable log has strictly increasing positive positions |
| `LedgerReplay.ReplayShape` | src/quantum_entanglement/artifacts.py:152-214 | replay yields version chains 1..n with parents n-1, artifact ids used once, and a usage that is exactly the sum over all versions and within every limit |
| `LedgerReplay.TotalAfterExtend` | src/quantum_entanglement/artifacts.py:94-101 | adding one version adds exactly its weight to the total over all versions |
| `LedgerReplay.ReplayHoldsEveryEvent` | src/quantum_entanglement/artifacts.py:217-346 | every version event of the log is in the view under its key and at its version |
| `LedgerReplay.HistoriesGrow` | src/quantum_entanglement/artifacts.py:854-863 | an earlier fold's history of a key is the beginning of every later one's |
| `LedgerSystem.AppendKeepsLog` | src/quantum_entanglement/store.py:3198-3258 | the append contract: positions strictly increase, event ids and stream keys stay unique |
| `LedgerSystem.SamePositionSameLog` | src/quantum_entanglement/artifacts.py:812-817 | compare-and-set on the global position admits only a writer that has folded the whole log |
| `LedgerSystem.OwnAppendReplays` | src/quantum_entanglement/artifacts.py:795-850 | an admitted append leaves the log replayable and the ledger's new state equal to its replay |
| `LedgerSystem.ForeignAppendReplays` | src/quantum_entanglement/artifacts.py:175-176 | events of other types never disturb replay |
| `LedgerSystem.ActKeepsSystem` | src/quantum_entanglement/artifacts.py:665-852 | each action of each ledger and writer keeps the log replayable and every ledger the fold of a log prefix |
| `LedgerSystem.RunKeepsSystem` | src/quantum_entanglement/artifacts.py:665-852 | so does every interleaving, and no ledger's position goes back |
| `LedgerSystem.ReachableLogsReplay` | src/quantum_entanglement/artifacts.py:87-101 | from the empty log: contiguous version chains, exact and bounded usage in the log and in every ledger, idempotency keys occurring once |
| `LedgerRecords.SubmissionsRecordTheRequest` | src/quantum_entanglement/artifacts.py:735-850 | in every reachable system a submission adds nothing, or one event behind all others with exactly the request's columns, as the next version of its artifact |
| `LedgerSizes.AdmissionExactly` | src/quantum_entanglement/artifacts.py:765-817 | a good request is admitted exactly when its id, version and URI are within bounds and the ledger stays within its five limits with the bytes of the version's texts added |
| `LedgerSizes.WeightIsTheTexts` | src/quantum_entanglement/artifacts.py:303-331 | what a version adds to the usage is one version and the UTF-8 bytes of its content, its metadata and all its texts, the percent-encoded URI among them |
| `LedgerSizes.UriLengthIsTheText` | src/quantum_entanglement/artifacts.py:617-623 | the counted URI length is the length of the URI text |
| `LedgerSizes.ReachableUsage` | src/quantum_entanglement/artifacts.py:87-101 | in every reachable system the usage of log and ledgers is within 100,000 versions, 256 MiB of content, 64 MiB and 1,000,000 nodes of metadata, and 384 MiB of texts |
| `LedgerSizes.ReplayedPayloads` | src/quantum_entanglement/artifacts.py:217-346 | what replay has checked of each version event, in columns |
| `LedgerStore.Ledger.Rebuild` | src/quantum_entanglement/artifacts.py:152-214 | the paged rebuild, for every page size and event cap and with writers appending in between, ends, adopts the fold of a prefix covering all that was there at the start, or fails leaving the ledger unchanged and only when the log is not replayable or longer than the cap |
| `LedgerStore.Ledger.Resolve` | src/quantum_entanglement/artifacts.py:625-662 | a retry is answered only with the version of the stored event, and refused only for a changed request |
| `LedgerRecords.RetriesAreExact` | src/quantum_entanglement/artifacts.py:625-662 | a stored version answers a repeated request exactly when recording that request as that version would have stored this very event |
| `LedgerRecords.SlotsByRequest` | src/quantum_entanglement/artifacts.py:729-735 | two requests share an idempotency slot exactly when they agree in session, content and label; with equal task ids, equal names or task ids without a colon exactly when they agree in session, task, name and content |
| `LedgerRecords.LabelsCollide` | src/quantum_entanglement/artifacts.py:729-735 | two requests for different artifacts that share a slot |
| `LedgerStore.Ledger.Record` | src/quantum_entanglement/artifacts.py:665-852 | after any outcome the ledger is the fold of a log prefix not shorter than before; a recorded answer is a version of the requested artifact with the requested content, recorded by the event that holds the request's slot; bad input changes nothing; a good request is refused only for a changed slot, for the limits, for spurious conflicts, or because others appended before each of the eight attempts; the store's own failure surfaces only for an append that raised or a repeated event id |
| `LedgerStore.Ledger.Admit` | src/quantum_entanglement/artifacts.py:735-850 | one admission attempt, with races before and after its reads and an append that may report falsely |
| `LedgerStore.Ledger.AfterRaise` | src/quantum_entanglement/artifacts.py:590-611 | after a failed append the ledger adopts exactly its own event if it is there, rebuilds after a moved position, or reraises |
| `LedgerStore.Ledger.AdoptOwn` | src/quantum_entanglement/artifacts.py:843-850 | adopting the own stored event keeps the ledger the fold of the log |
| `LedgerStore.ElsewhereMeetsTheRely` | src/quantum_entanglement/artifacts.py:665-852 | any run of other ledgers and writers that draw other ids does to the log exactly what the ledger relies on between its steps: it grows, stays well formed and replayable, and gains no version under a reserved id |
| `LedgerAnswers.RepeatedRequestsAgree` | src/quantum_entanglement/artifacts.py:625-662 | whoever asks and however much later, the same request is answered with the same version |
| `LedgerAnswers.AnswerIsOldExactlyWhen` | src/quantum_entanglement/artifacts.py:625-662 | the version a request is answered with is older than the newest exactly when the log holds another version of the artifact behind the event with the request's slot |
| `LedgerAnswers.SupersededSince` | src/quantum_entanglement/artifacts.py:625-662 | whether that is so is decided by the log before the call, but for versions appended during it |
| `LedgerAnswers.VersionIsPlace` | src/quantum_entanglement/artifacts.py:152-214 | a version's number is its place among the version events of its artifact |
| `LedgerAnswers.FirstTextIsAnsweredOld` | src/quantum_entanglement/artifacts.py:665-852 | a run in which one ledger records two texts under one name, after which the only answer to the first request is version 1 of 2 |
| `LedgerAnswers.TwoTextsExist` | src/quantum_entanglement/artifacts.py:665-852 | concrete requests for that run |
| `ArtifactTheorems.VersionsAreContiguous` | src/quantum_entanglement/artifact_store.py:787-913 | every run of writes leaves each group with exactly the versions 1..head, each once, ids and keys unique per scope, and every blob unaltered |
| `ArtifactTheorems.ReadersFindNoFault` | src/quantum_entanglement/artifact_store.py:1093-1147 | for readers whose limits cover the writers', scope verification returns the row count, head answers, and every single-version page succeeds |
| `ArtifactTheorems.PagesAreTheHistory` | src/quantum_entanglement/artifact_store.py:999-1091 | history pages of any sizes, concatenated, are the full history exactly once and in order, exactly when every page keeps the reader's byte budget, and are refused as too large otherwise |
| `ArtifactTheorems.WritesAreReadBack` | src/quantum_entanglement/artifact_store.py:915-948 | what a write returned is what lookup returns after any further writes |
| `ArtifactWrites.WritesEndExactly` | src/quantum_entanglement/artifact_store.py:787-913 | every outcome of a write into reachable tables: too large; with rows in its way the stored version if it is the one row that records the very write, else a conflict; head moved exactly when an expected head is given and is not the newest version; a driver fault for an id of another scope or beyond 64 bits; and else exactly this row as the next version |
| `ArtifactWrites.OneWriterPerHead` | src/quantum_entanglement/artifact_store.py:854-858 | of any two writes of a run to one group under the same expected head at most one adds a version |
| `ArtifactWrites.BlobsAreNeverReplaced` | src/quantum_entanglement/artifact_store.py:860-890 | whatever the tables hold, a write alters no blob, and is refused by a blob that does not hold its content |
| `ArtifactWrites.RunsTakeEffect` | src/quantum_entanglement/artifact_store.py:403-418 | one more attempt of a run changes the tables exactly if it is a good write whose step succeeds and takes effect |
| `ArtifactReads.GetsEndExactly` | src/quantum_entanglement/artifact_store.py:915-948 | lookup in reachable tables: nothing outside the scope, too large exactly over the limit, otherwise the row with its content |
| `ArtifactReads.HistoriesListTheGroup` | src/quantum_entanglement/artifact_store.py:999-1091 | a group's history in reachable tables is its rows 1, 2, ... with their contents, and no others |
| `ArtifactReads.VerifiedScopesAreSound` | src/quantum_entanglement/artifact_store.py:1093-1147 | whatever the tables hold, scope verification succeeds exactly when every row of the scope is whole, its content matching digest, sizes and fingerprint, and in storage order each row follows the one before; then it returns their number |
| `ArtifactReads.VerifiedVersionsHaveParents` | src/quantum_entanglement/artifact_store.py:1093-1147 | in a verified scope every version above 1 has its predecessor in the same history |
| `ArtifactReads.LineageByNeighbours` | src/quantum_entanglement/artifact_store.py:605-650 | the lineage loop accepts any rows exactly when each opens a history at version 1 behind all before it or continues the row before it |
| `ArtifactReads.GetsOnAnyTables` | src/quantum_entanglement/artifact_store.py:915-948 | lookup in any tables, corrupt ones included: sizes first, then the reader's limit, then everything else about the row |
| `ArtifactReads.HeadsOnAnyTables` | src/quantum_entanglement/artifact_store.py:950-997 | head of a group in any tables: an answer is a whole row and the only one of its version with none later; a runner-up that is not older is an integrity fault |
| `ArtifactReads.PagesOnAnyTables` | src/quantum_entanglement/artifact_store.py:999-1091 | a history page of any tables: an answer means that the group's whole lineage holds, and the page is exactly its versions behind the cursor up to the limit, each valid and with its content |
| `ArtifactTables.WriteKeepsTables` | src/quantum_entanglement/artifact_store.py:787-913 | a write adds at most one version behind the group's head and alters no row and no blob; when it adds one is `ArtifactWrites.WritesEndExactly` |
| `ArtifactTables.RetryReturnsTheSame` | src/quantum_entanglement/artifact_store.py:806-842 | an identical retry returns the stored version and changes nothing, whatever head it expects |
| `ArtifactTables.RunKeepsTables` | src/quantum_entanglement/artifact_store.py:403-418 | the same over runs in which COMMIT may fail with or without effect |
| `ArtifactReaders.RowFollowsParent` | src/quantum_entanglement/artifact_store.py:605-650 | in storage order each row opens its group at version 1 or directly follows its parent |
| `ArtifactReaders.LineageAccepts` | src/quantum_entanglement/artifact_store.py:605-650 | the lineage check accepts every group and every scope of valid tables |
| `ArtifactReaders.GroupIsOneToHead` | src/quantum_entanglement/artifact_store.py:605-650 | a group's rows in storage order are its versions 1, 2, up to the head |
| `ArtifactReaders.ScopeVerifies` | src/quantum_entanglement/artifact_store.py:1093-1147 | scope verification counts exactly the rows, or stops at content over the reader's limit, and nothing else |
| `ArtifactReaders.HeadIsNewest` | src/quantum_entanglement/artifact_store.py:950-997 | head is the newest version with its own content, none exactly for an empty group, refused exactly when that content exceeds the reader's limit |
| `ArtifactReaders.PageIsSlice` | src/quantum_entanglement/artifact_store.py:999-1091 | a history page is exactly the slice behind its cursor, refused exactly when it exceeds the byte budget |
| `ArtifactReaders.PagesCoverHistory` | src/quantum_entanglement/artifact_store.py:999-1091 | reading on page by page covers the history behind the cursor once and in order exactly when all pages fit, and is refused as too large otherwise |
| `ArtifactReaders.WrittenStaysReadable` | src/quantum_entanglement/artifact_store.py:915-948 | the written version stays readable from any valid tables on |
| `ArtifactStore.ValidateVersionLineage` | src/quantum_entanglement/artifact_store.py:605-650 | the lineage loop accepts exactly the rows its specification accepts, with row count and last version |
| `ArtifactStore.Store.Write` | src/quantum_entanglement/artifact_store.py:787-913 | the write method: exact result and exact tables for every way COMMIT ends, and valid tables stay valid; the step it computes is given outcome by outcome in `ArtifactWrites.WritesEndExactly` |
| `ArtifactStore.Store.History` | src/quantum_entanglement/artifact_store.py:999-1091 | the history method computes the specified page or fault |
| `ArtifactStore.Store.CheckPage` | src/quantum_entanglement/artifact_store.py:1053-1067 | the page loop's running byte total and the first row that breaks the page |
| `ArtifactStore.Store.Verify` | src/quantum_entanglement/artifact_store.py:1093-1147 | the scope verification method computes the specified count or fault |
| `SpdxGrammar.ParserReadsPrintouts` | scripts/dependency_risk.py:415-467 | the parser accepts a token list as a tree exactly when the list is that tree's printout in the WITH > AND > OR grammar (Annex D of the SPDX Specification 2.3) |
| `SpdxGrammar.PrintoutIsUnambiguous` | scripts/dependency_risk.py:415-467 | no two expression trees have the same printout |
| `SpdxGrammar.ExpressionIsSound` | scripts/dependency_risk.py:437-441 | whatever the OR level reads is the printout of an expression |
| `SpdxGrammar.ExpressionIsRead` | scripts/dependency_risk.py:437-441 | every expression's printout is read back as its own tree wherever no tighter operator follows |
| `SpdxAutomaton.ParserIsTheAutomaton` | scripts/dependency_risk.py:415-467 | on every token list recursive descent ends as a left-to-right automaton with one counter does: accepted, invalid, or unknown for NONE and NOASSERTION where a license is due |
| `SpdxAutomaton.GrammarInWords` | scripts/dependency_risk.py:437-467 | the trees the parser builds, in words: which words are licenses and exceptions, and what may stand beside WITH, AND and OR |
| `SpdxText.Tokenize` | scripts/dependency_risk.py:390-412 | the offset loop computes the tokens of the text or raises on the first malformed word |
| `SpdxText.TokensKeepEverythingButSpaces` | scripts/dependency_risk.py:390-412 | tokenizing loses nothing but spaces and yields only valid tokens |
| `SpdxText.Render` | scripts/dependency_risk.py:470-483 | the rendering loop computes the rendering |
| `SpdxText.TokensOfRendering` | scripts/dependency_risk.py:470-483 | tokenizing a rendering gives the tokens back, for every list of valid tokens |
| `SpdxText.CanonicalTextsAreSpellings` | scripts/dependency_risk.py:486-494 | a text is accepted as canonical exactly when it is the spelling of an expression tree and at most 1024 characters long |
| `SpdxText.SpellingIsUnambiguous` | scripts/dependency_risk.py:486-494 | two trees with one spelling are equal, so canonical texts and trees correspond one to one |
| `SpdxSpelling.AcceptedTexts` | scripts/dependency_risk.py:486-494 | a text is accepted exactly when it is a grammatical expression written out with single spaces around operators, of at most 1024 characters, in words of at most 127 letters, digits, dots, plusses and hyphens |
| `SpdxSpelling.RefusedTexts` | scripts/dependency_risk.py:486-494 | every refusal with its fault, in the order of the checks |
| `SpdxParser.Parser.ParseAll` | scripts/dependency_risk.py:432-435 | the parser object accepts exactly what the specification reads, with the same fault otherwise |
| `SpdxParser.Parser.ParseOr` | scripts/dependency_risk.py:437-441 | the OR loop ends behind the specified tree or in the specified fault |
| `SpdxParser.Parser.ParseAnd` | scripts/dependency_risk.py:443-447 | the AND loop likewise |
| `SpdxParser.Parser.ParseWith` | scripts/dependency_risk.py:449-455 | an exception follows WITH or the parse fails |
| `SpdxParser.Parser.ParsePrimary` | scripts/dependency_risk.py:457-467 | a parenthesised expression or an identifier that is not unknown |
| `SpdxParser.CanonicalLicense` | scripts/dependency_risk.py:486-494 | the whole check as it runs, fault by fault |
| `SqlPieces.LexIsLossless` | src/quantum_entanglement/backup_topology.py:138-180 | cutting SQL into whitespace, plain characters, quoted regions and comments loses nothing |
| `SqlPieces.PieceIsStable` | src/quantum_entanglement/backup_topology.py:146-180 | where a piece ends depends on at most the character behind it, up to the kind of whitespace |
| `SqlPieces.CollapseKeepsPieces` | src/quantum_entanglement/backup_topology.py:123-180 | the collapsed text is cut into the same pieces with one space per gap |
| `SqlPieces.CollapseIsIdempotent` | src/quantum_entanglement/backup_topology.py:123-180 | collapsing twice is collapsing once |
| `SqlPieces.CollapseCopiesSolids` | src/quantum_entanglement/backup_topology.py:123-180 | every quoted region, comment and plain character comes out verbatim and in order |
| `SqlPieces.CollapseIsExact` | src/quantum_entanglement/backup_topology.py:123-180 | two texts collapse alike exactly when they have the same pieces with gaps in the same places |
| `SqlPieces.RespacingIsInvisible` | src/quantum_entanglement/backup_topology.py:138-145 | replacing a whitespace run outside quotes and comments by any other run changes nothing |
| `SqlRegions.QuotedTextIsOnePiece` | src/quantum_entanglement/backup_topology.py:162-178 | any text at all between ', " or ` with its marks doubled is one region, copied as it stands |
| `SqlRegions.BracketedTextIsOnePiece` | src/quantum_entanglement/backup_topology.py:162-178 | a bracketed name ends at its first closing bracket |
| `SqlRegions.LineCommentIsOnePiece` | src/quantum_entanglement/backup_topology.py:146-153 | a line comment is one region with its line feed, or up to the end of the text |
| `SqlRegions.BlockCommentIsOnePiece` | src/quantum_entanglement/backup_topology.py:155-161 | a block comment is one region up to its first end mark |
| `SqlRegions.OpenQuoteIsRefused` | src/quantum_entanglement/backup_topology.py:162-178 | a quoted region without its closing mark is refused |
| `SqlRegions.OpenCommentIsRefused` | src/quantum_entanglement/backup_topology.py:155-161 | a block comment without its end mark is refused |
| `SqlRegions.OtherCharacters` | src/quantum_entanglement/backup_topology.py:138-145 | every other character is whitespace or stands for itself |
| `SqlCanonical.CollapseLoop` | src/quantum_entanglement/backup_topology.py:123-180 | the character loop with its buffer, flags and pending whitespace computes the collapsed pieces, or raises for the first region that does not end |
| `SqlCanonical.FindQuoteEnd` | src/quantum_entanglement/backup_topology.py:162-178 | the quote loop finds the closing mark, doubled marks skipped |
| `SqlCanonical.Buffer.PopWhitespace` | src/quantum_entanglement/backup_topology.py:182-190 | the popping loop removes exactly the trailing whitespace that is not part of a copied region |
| `SqlCanonical.Canonicalize` | src/quantum_entanglement/backup_topology.py:115-201 | the canonicalizer as it runs, trailing semicolon and leading IF NOT EXISTS included |
| `SqlIdempotence.CanonicalIsIdempotentWhen` | src/quantum_entanglement/backup_topology.py:115-201 | a second pass changes something exactly when the SQL ends, blanks aside, in two semicolons outside quotes and comments, or its trimmed text opens with two IF NOT EXISTS clauses |
| `SqlIdempotence.SecondClause` | src/quantum_entanglement/backup_topology.py:194-200 | the text left by removing a clause loses another exactly when it opened with two |
| `SqlFixpoint.FixpointsAmongCanonical` | src/quantum_entanglement/backup_topology.py:115-201 | among canonical texts the fixpoints are exactly those that neither end in a semicolon piece nor open with a clause |
| `SqlFixpoint.ClauseIsRemoved` | src/quantum_entanglement/backup_topology.py:194-200 | a leading IF NOT EXISTS is removed from every kind of CREATE statement exactly when no word character follows it |
| `SqlFixpoint.CaseIsIgnored` | src/quantum_entanglement/backup_topology.py:194-200 | where the clause stands does not depend on the case of any letter, the odd letters that stand for I and S included |
| `SqlFixpoint.ClauseIsFoundInAnyCase` | src/quantum_entanglement/backup_topology.py:194-200 | the clause is removed in any case |
| `SqlRegions.ClauseOnlyThere` | src/quantum_entanglement/backup_topology.py:194-200 | a clause is found only behind CREATE, UNIQUE or not, and one of the four kinds |
| `SqlFixpoint.CanonicalFaults` | src/quantum_entanglement/backup_topology.py:123-193 | the faults of the canonicalizer, each exactly |
| `SqlFixpoint.TwoSemicolons` | src/quantum_entanglement/backup_topology.py:185-190 | a text with two trailing semicolons loses one per pass |
| `SqlIdempotence.TwoClauses` | src/quantum_entanglement/backup_topology.py:194-200 | a CREATE TABLE with two IF NOT EXISTS clauses loses one per pass |
| `DependencyGraph.CheckAcyclic` | src/quantum_entanglement/backup_topology.py:359-375 | the depth-first visit ends, and fails exactly when some profile depends, in steps, on itself |
| `DependencyGraph.Visitor.Visit` | src/quantum_entanglement/backup_topology.py:363-372 | the recursive visit finishes the profile with all its dependencies or has come around a cycle |
| `DependencyGraph.OrderedIsAcyclic` | src/quantum_entanglement/backup_topology.py:363-375 | profiles that can be put in dependency order have no cycle |
| `Topology.Construct` | src/quantum_entanglement/backup_topology.py:328-376 | the registry constructor accepts exactly the registries it promises and raises the cycle error exactly when a cycle is all that is wrong |
| `Topology.CollectProfiles` | src/quantum_entanglement/backup_topology.py:343-358 | the loop over profiles passes exactly when dependencies are known and migration ids and coordinates are unique over the whole registry |
| `TopologyRegistries.RegistriesByPosition` | src/quantum_entanglement/backup_topology.py:328-358 | in positions: at most 64 profiles in strictly increasing order of names, every dependency the name of a profile, no migration id and no coordinate in two places |
| `TopologyRegistries.SelectionFaults` | src/quantum_entanglement/backup_topology.py:403-428 | the faults of selecting profiles, in order: more than 64 names, a name twice, a name of no profile, and otherwise none |
| `TopologyProfiles.OneItem` | src/quantum_entanglement/backup_topology.py:354-358 | a coordinate determines its object and its profile |
| `TopologyProfiles.ExpandedItems` | src/quantum_entanglement/backup_topology.py:403-428 | the objects for some profiles are exactly the objects of these profiles |
| `TopologyProfiles.ObjectsComeInOrder` | src/quantum_entanglement/backup_topology.py:418-428 | the objects come in canonical order, each as often as the profiles list it |
| `TopologyProfiles.PresentInvertsWhole` | src/quantum_entanglement/backup_snapshot_v2.py:329-345 | the profiles present in a union of whole profiles are exactly these profiles, in name order |
| `TopologyClassify.Classify` | src/quantum_entanglement/backup_snapshot_v2.py:313-345 | classification succeeds exactly on catalogs that are unions of whole profiles, and names the profiles present |
| `TopologyClassify.ExpandedCatalogIsClassified` | src/quantum_entanglement/backup_snapshot_v2.py:313-345 | expanding any profiles that have objects and classifying the result gives these profiles back in order |
| `TopologyClassify.ClassifiedCatalogIsExpanded` | src/quantum_entanglement/backup_snapshot_v2.py:313-345 | expanding the profiles found in a catalog gives the catalog's objects back |
| `PngInterlace.PassDimensions` | scripts/report_sync_bundle.py:1279-1296 | the pass loop computes the specified pass sizes |
| `PngInterlace.PassesPartitionTheGrid` | scripts/report_sync_bundle.py:1283-1293 | every image pixel is a pixel of exactly one pass at exactly one place, and every pass pixel is an image pixel (section 2.6 of RFC 2083) |
| `PngInterlace.PassesAreAsDrawn` | scripts/report_sync_bundle.py:1283-1293 | the pass of each pixel is the one the standard's 8 by 8 figure draws (section 2.6 of RFC 2083) |
| `PngInterlace.PassesByPixels` | scripts/report_sync_bundle.py:1279-1296 | a plain image is its only pass; an interlaced one has exactly the drawn passes that have pixels, in order, each with as many columns and rows as the image has columns and rows with pixels of it |
| `PngInterlace.PassAreasAddUp` | scripts/report_sync_bundle.py:1279-1296 | for positive sizes no listed pass is empty and the pass areas sum to width times height |
| `PngScanlines.ExpectedSize` | scripts/report_sync_bundle.py:1508-1513 | the accumulating loop computes the total size of all rows, refused exactly when it exceeds the limit |
| `PngScanlines.RowSizeIsTight` | scripts/report_sync_bundle.py:1509-1511 | a row has one filter byte and just enough bytes for the bits of its pixels |
| `PngScanlines.RowsOfAnImage` | scripts/report_sync_bundle.py:1505-1513 | the rows of an image in width and height: for a plain image as many as it is high, of one size; else pass by pass |
| `PngScanlines.RowsPassByPass` | scripts/report_sync_bundle.py:1508-1513 | the rows of several passes are the rows of each in turn |
| `PngScanlines.ImagesByLengthAndFilters` | scripts/report_sync_bundle.py:1327-1352 | decoded data is an image exactly when its length is the total and the first byte of every row is at most 4 (sections 2.3 and 2.5 of RFC 2083) |
| `PngScanlines.FeedInParts` | scripts/report_sync_bundle.py:1327-1344 | splitting the bytes anywhere makes no difference |
| `PngScanlines.FeedingFinishesImages` | scripts/report_sync_bundle.py:1346-1352 | reading byte by byte finishes every row exactly on images |
| `PngScanlines.Validator.Consume` | scripts/report_sync_bundle.py:1327-1344 | consuming row parts equals feeding bytes, and fails exactly when they do not fit or exceed the expected size |
| `PngScanlines.Validator.AdvancePass` | scripts/report_sync_bundle.py:1316-1325 | the pass loop moves on to the next pass that has rows |
| `PngScanlines.Validate` | scripts/report_sync_bundle.py:1355-1397 | the verdict depends only on the concatenated bytes: an image of the expected size or not |
| `PngScanlines.CheckDecoded` | scripts/report_sync_bundle.py:1505-1519 | in width and height: a plain image is accepted exactly when its data has height rows of 1 + ceil(width times bits / 8) bytes, at most 256 MiB, with a filter byte of at most 4 before each row; an interlaced one exactly when its data has the rows of its drawn passes |
| `JsonWalks.LedgerWalk` | src/quantum_entanglement/artifacts.py:494-554 | the explicit-stack walk accepts exactly the trees with at most 10,000 values and keys, at most 64 containers deep, within the leaf and key rules; its early cut-offs never change the verdict; it returns the count |
| `JsonWalks.StoreWalk` | src/quantum_entanglement/artifact_store.py:89-164 | the store's walk accepts exactly the same with keys not counted |
| `JsonWalks.Snapshot.Take` | src/quantum_entanglement/_artifact_codec.py:67-165 | the recursive snapshot with its shared counter accepts exactly what fits and copies it |
| `JsonWalks.Encode` | src/quantum_entanglement/_artifact_codec.py:222-242 | the codec accepts exactly what the ledger's walk accepts, and its frozen copy thaws back to the value |
| `JsonLimits.NodesAreValuesAndKeys` | src/quantum_entanglement/artifact_store.py:105-107 | the ledger's count is the store's count plus the keys |
| `JsonLimits.AcceptedIsStoreAccepted` | src/quantum_entanglement/artifact_store.py:89-164 | under the same rules the store accepts all the others accept, and they accept what it accepts exactly when values and keys together are within the limit |
| `JsonLimits.StoreAcceptsMore` | src/quantum_entanglement/artifact_store.py:105-107 | a concrete tree the store accepts and the others refuse |
| `JsonPaths.LimitsByPaths` | src/quantum_entanglement/artifacts.py:494-554 | the ledger and the codec accept a tree exactly when it has at most 10,000 paths and keys, the store when it has at most 10,000 paths, and every value inside is a leaf within the rules or a container at most 64 deep with keys within the rules |
| `JsonPaths.FitsEverywhere` | src/quantum_entanglement/artifacts.py:494-554 | the recursive acceptance asks exactly this of the value at every path |
| `JsonLimits.ThawUndoesFreeze` | src/quantum_entanglement/_artifact_codec.py:168-183 | freezing leaves nothing mutable and thawing gives the tree back |
| `JsonPaths.FreezeKeepsPlaces` | src/quantum_entanglement/_artifact_codec.py:67-165 | freezing freezes every value where it stands |
| `JsonPaths.FrozenMeansNothingMutable` | src/quantum_entanglement/_artifact_codec.py:67-165 | a frozen tree has no list and no dictionary anywhere inside |

## Left out

- SQLite, WAL setup, migrations, busy waiting and SQL text: the tables are maps, a query is what it selects, a transaction is one atomic step with the stated outcomes.
- Exception sanitising, traceback provenance, boundary nonces, locks and process checks: Python runtime mechanics; only outcome kinds, flags and whether a failure was a control signal remain.
- Text forms of timestamps, JSON, base64 and digests: whole numbers, canonical texts and injective functions.
- The clock provider: its reading is an argument, and its failure is an interruption of the transaction body.
- A second attempt to close the connection after quarantine, and reading methods that only list rows (`get`, `attempts`, `attempts_page`).
- The fixed reason recovery records: some text the row validator accepts.
- Redundant re-reads inside one read snapshot in the artifact store's readers: they cannot differ from the first read.
- Argument type checks that Dafny's types already make.
- `LedgerSystem.ReachableLogsReplay`: artifact ids are assumed fresh when drawn and events of type `artifact.versioned` to come from `record` only; the 1,000,000-event cap is a parameter of rebuild, since `record` does not enforce it.
- `InvocationTheorems.AtMostOneLease`: that two answered claims are one and the same call holds for attempt ids drawn fresh; that they drew the same id and token needs no assumption.
- `ArtifactTheorems.ReadersFindNoFault`: success of history pages without a condition is stated for one version a page, since larger pages may exceed the byte budget; for all others `ArtifactTheorems.PagesAreTheHistory` has the exact condition.
- Decoding of payload shapes in replay: a payload is a record, and the acceptance of its texts and numbers is modelled.
- Python's recursion limit, which deeply nested license expressions and metadata could reach before the modelled limits.
- Reference cycles and containers changing during a walk: JSON values are finite trees; a cycle would be refused by the depth or node limit in any case.
- The leaf and key rules of the three checkers (text length, normal form, integer bits, finite numbers): a parameter, since each checker has its own.
- `SqlCanonical.Canonicalize`: Python's class of word characters is a parameter; every result holds for any such class.
- The field checks inside a topology profile and a schema object, and the profile digests: field-by-field validation with no property across functions.
- zlib, CRC and chunk parsing around the scanline validator, and the JPEG walk: library code and plumbing.
- The agent runtime, worker dispatch, chat, plugins, branch catalog, backup and release scripts: thin, user interface or plumbing.
