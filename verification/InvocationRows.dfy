/** Durable invocation rows, the specification a caller enqueues, and the row and cross-row validators. */
module InvocationRows {
  import opened Common
  import opened InvocationText

  const MAX_SQLITE_INTEGER: int := 0x7FFF_FFFF_FFFF_FFFF

  /** Microseconds since 0001-01-01T00:00:00Z, up to 9999-12-31T23:59:59.999999Z. */
  const MAX_TIME: int := 315_537_897_599_999_999
  type Time = t: int | 0 <= t <= MAX_TIME

  /** The identity a job, its specification and its lease all carry. */
  datatype Work = Work(
    sessionId: string, planId: string, taskId: string, agentId: string,
    idempotencyKey: string, payload: Digest)

  datatype JobStatus = Queued | Running | Succeeded | Failed | Canceled

  datatype AttemptStatus = AttemptRunning | AttemptSucceeded | AttemptFailed | AttemptExpired | AttemptCanceled

  datatype JobSpec = JobSpec(
    id: string, work: Work, priority: int, maxAttempts: int, availableAt: Option<Time>)

  datatype Job = Job(
    id: string, work: Work, priority: int, status: JobStatus,
    maxAttempts: int, attemptsStarted: int, epoch: int,
    requestedAt: Option<Time>, availableAt: Time, createdAt: Time, updatedAt: Time,
    owner: Option<string>, tokenDigest: Option<Digest>, expiresAt: Option<Time>, heartbeatAt: Option<Time>,
    resultRef: Option<string>, lastError: Option<string>, finishedAt: Option<Time>)

  datatype Attempt = Attempt(
    id: string, jobId: string, number: int, epoch: int, worker: string, tokenDigest: Digest,
    status: AttemptStatus, startedAt: Time, heartbeatAt: Time, expiresAt: Time,
    finishedAt: Option<Time>, error: Option<string>, resultRef: Option<string>)

  datatype Lease = Lease(
    jobId: string, work: Work, attemptId: string, attemptNumber: int, maxAttempts: int, epoch: int,
    worker: string, token: string, claimedAt: Time, expiresAt: Time)

  predicate WorkOk(w: Work) {
    && Acceptable(w.sessionId, MAX_IDENTITY_BYTES)
    && Acceptable(w.planId, MAX_IDENTITY_BYTES)
    && Acceptable(w.taskId, MAX_IDENTITY_BYTES)
    && Acceptable(w.agentId, MAX_IDENTITY_BYTES)
    && Acceptable(w.idempotencyKey, MAX_IDENTITY_BYTES)
  }

  /** What constructing a job specification enforces. */
  predicate SpecOk(s: JobSpec) {
    && Acceptable(s.id, MAX_IDENTITY_BYTES)
    && WorkOk(s.work)
    && 0 <= s.priority <= 100
    && 1 <= s.maxAttempts <= MAX_SQLITE_INTEGER
  }

  predicate ErrorOk(e: Option<string>) {
    AcceptableOption(e, MAX_ERROR_BYTES) && (e.Some? ==> |e.value| <= MAX_ERROR_LENGTH)
  }

  lemma AsciiIsStorable(s: string)
    requires 0 < |s| <= MAX_ERROR_LENGTH && s[0] > ' '
    requires forall i | 0 <= i < |s| :: '\U{20}' <= s[i] < '\U{7F}'
    ensures ErrorOk(Some(s))
  {
    AsciiIsNarrow(s);
    assert s[0] in s && !IsSpace(s[0]);
  }

  /** The text recovery writes, put together so that its characters need not be enumerated at once. */
  function ExpiryText(): (reason: string)
    ensures ErrorOk(Some(reason))
  {
    var reason := "lease expired " + "before terminal " + "acknowledgement";
    AsciiIsStorable(reason);
    reason
  }

  /** Texts an error column may hold. */
  type ErrorText = e: string | ErrorOk(Some(e)) witness ExpiryText()

  predicate LeaseHeld(j: Job) {
    j.owner.Some? && j.tokenDigest.Some? && j.expiresAt.Some? && j.heartbeatAt.Some?
  }

  predicate LeaseCleared(j: Job) {
    j.owner.None? && j.tokenDigest.None? && j.expiresAt.None? && j.heartbeatAt.None?
  }

  /** `_row_to_job` accepts the row. */
  predicate JobOk(j: Job) {
    && 1 <= j.maxAttempts <= MAX_SQLITE_INTEGER
    && 0 <= j.attemptsStarted <= j.maxAttempts
    && 0 <= j.epoch <= MAX_SQLITE_INTEGER
    && j.attemptsStarted <= j.epoch
    && (j.attemptsStarted == 0 ==> j.epoch == 0)
    && (j.status.Failed? ==> j.attemptsStarted == j.maxAttempts)
    && (j.status.Queued? && j.attemptsStarted > 0 ==> j.attemptsStarted < j.maxAttempts)
    && AcceptableOption(j.owner, MAX_IDENTITY_BYTES)
    && (if j.status.Running? then LeaseHeld(j) else LeaseCleared(j))
    && (j.status.Running? ==> j.attemptsStarted > 0)
    && (j.finishedAt.Some? <==> j.status in {Succeeded, Failed, Canceled})
    && (j.status in {Succeeded, Failed} ==> j.attemptsStarted > 0)
    && ErrorOk(j.lastError)
    && (j.attemptsStarted == 0 ==> j.lastError.None?)
    && (j.status.Failed? || (j.status.Queued? && j.attemptsStarted > 0) ==> j.lastError.Some?)
    && j.createdAt <= j.updatedAt
    && (j.finishedAt.Some? ==> j.createdAt <= j.finishedAt.value <= j.updatedAt)
    && (j.status.Running? ==>
          && j.createdAt <= j.heartbeatAt.value <= j.updatedAt
          && j.heartbeatAt.value < j.expiresAt.value
          && j.updatedAt < j.expiresAt.value)
    && AcceptableOption(j.resultRef, MAX_REFERENCE_BYTES)
    && (j.resultRef.Some? ==> j.status.Succeeded?)
    && Acceptable(j.id, MAX_IDENTITY_BYTES)
    && WorkOk(j.work)
    && 0 <= j.priority <= 100
  }

  /** `_row_to_attempt` accepts the row. */
  predicate AttemptOk(a: Attempt) {
    && 1 <= a.number <= MAX_SQLITE_INTEGER
    && 1 <= a.epoch <= MAX_SQLITE_INTEGER
    && a.number <= a.epoch
    && (a.status.AttemptRunning? <==> a.finishedAt.None?)
    && ErrorOk(a.error)
    && (a.status in {AttemptRunning, AttemptSucceeded} ==> a.error.None?)
    && (a.status in {AttemptFailed, AttemptExpired} ==> a.error.Some?)
    && a.startedAt <= a.heartbeatAt < a.expiresAt
    && (a.finishedAt.Some? ==> a.heartbeatAt <= a.finishedAt.value)
    && (a.status in {AttemptSucceeded, AttemptFailed} ==> a.finishedAt.value < a.expiresAt)
    && (a.status.AttemptExpired? ==> a.expiresAt <= a.finishedAt.value)
    && AcceptableOption(a.resultRef, MAX_REFERENCE_BYTES)
    && (a.resultRef.Some? ==> a.status.AttemptSucceeded?)
    && Acceptable(a.id, MAX_IDENTITY_BYTES)
    && Acceptable(a.jobId, MAX_IDENTITY_BYTES)
    && Acceptable(a.worker, MAX_IDENTITY_BYTES)
  }

  /** The part of `_validate_recovery_snapshot` that compares a started job with its current attempt. */
  predicate CurrentAttemptOk(j: Job, a: Attempt) {
    && a.jobId == j.id && a.number == j.attemptsStarted && a.epoch == j.epoch
    && j.createdAt <= a.startedAt
    && (a.finishedAt.Some? ==> a.finishedAt.value <= j.updatedAt)
    && (j.finishedAt.Some? ==> j.finishedAt == a.finishedAt)
    && (match j.status
        case Running =>
          && a.status.AttemptRunning?
          && Some(a.worker) == j.owner && Some(a.tokenDigest) == j.tokenDigest
          && Some(a.heartbeatAt) == j.heartbeatAt && Some(a.expiresAt) == j.expiresAt
        case Succeeded => a.status.AttemptSucceeded? && a.resultRef == j.resultRef
        case Failed => a.status in {AttemptFailed, AttemptExpired} && a.error == j.lastError
        case Queued => a.status in {AttemptFailed, AttemptExpired} && a.error == j.lastError
        case Canceled => a.status.AttemptCanceled?)
  }

  /** `_validate_recovery_snapshot` accepts the observation. */
  predicate SnapshotOk(j: Job, current: Option<Attempt>, attemptCount: int) {
    && attemptCount == j.attemptsStarted
    && (if attemptCount == 0 then j.epoch == 0 && current.None?
        else current.Some? && CurrentAttemptOk(j, current.value))
  }

  /** What `_require_lease` demands before any transaction starts. */
  predicate LeaseOk(l: Lease) {
    && Acceptable(l.jobId, MAX_IDENTITY_BYTES)
    && WorkOk(l.work)
    && Acceptable(l.attemptId, MAX_IDENTITY_BYTES)
    && Acceptable(l.worker, MAX_IDENTITY_BYTES)
    && 1 <= l.attemptNumber <= MAX_SQLITE_INTEGER
    && 1 <= l.maxAttempts <= MAX_SQLITE_INTEGER
    && 1 <= l.epoch <= MAX_SQLITE_INTEGER
    && Acceptable(l.token, MAX_IDENTITY_BYTES)
    && l.claimedAt < l.expiresAt
  }

  /** `_validate_lease_binding` accepts the lease against the durable rows. */
  predicate LeaseBinds(l: Lease, j: Job, a: Attempt) {
    && l.jobId == j.id && l.work == j.work
    && l.attemptId == a.id
    && l.attemptNumber == j.attemptsStarted == a.number
    && l.maxAttempts == j.maxAttempts
    && l.epoch == j.epoch == a.epoch
    && l.worker == a.worker
    && l.claimedAt == a.startedAt
  }

  /** `_existing_matches`, on a row already accepted: the invocation id is not compared. */
  predicate ExistingMatches(j: Job, s: JobSpec) {
    && j.work == s.work
    && j.priority == s.priority && j.maxAttempts == s.maxAttempts
    && j.requestedAt == s.availableAt
  }
}
