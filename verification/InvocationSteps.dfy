/** Each invocation operation as one atomic step over the two durable tables.

    A step either yields the new tables, the answer for the caller and the receipt that read-back would look for,
    or raises a fault and leaves the tables to be rolled back. */
module InvocationSteps {
  import opened Common
  import opened SortKeys
  import opened InvocationText
  import opened InvocationRows

  /** The fixed reason recovery records. Only its being storable matters, so it stands for any storable text. */
  const EXPIRY_REASON: ErrorText
  const CLAIM_SWEEP_LIMIT: nat := 1000

  /** The two tables, keyed by primary key. */
  datatype Db = Db(jobs: map<string, Job>, attempts: map<string, Attempt>)

  const EMPTY_DB := Db(map[], map[])

  datatype Summary = Summary(requeued: seq<string>, exhausted: seq<string>)

  datatype Op =
    | Enqueue(spec: JobSpec)
    | Claim(worker: string, target: Option<string>, length: int, attemptId: string, token: string)
    | Heartbeat(lease: Lease, length: int)
    | Complete(lease: Lease, result: Option<string>)
    | Fail(lease: Lease, error: string, retryAt: Option<Time>)
    | Recover(limit: int)

  datatype Answer =
    | Enqueued(job: Job)
    | Leased(lease: Lease)
    | NoLease
    | Acknowledged(ok: bool)
    | Recovered(summary: Summary)

  /** What the call remembers for reconciling an unacknowledged COMMIT. */
  datatype Receipt =
    | NothingWritten
    | ExpectJob
    | ExpectLease(lease: Lease)
    | ExpectSweep(summary: Summary, at: Time)
    | ExpectBeat(at: Time, deadline: Time)
    | ExpectSuccess(at: Time)
    | ExpectFailure(at: Time, retry: Time, status: JobStatus)

  datatype Fault = Conflict | Integrity | ClockRegression | BadValue | Internal

  datatype Outcome<+T> = Ok(value: T) | Raised(fault: Fault)

  datatype Effect = Effect(db: Db, answer: Answer, receipt: Receipt)

  // ----- Clocks -----

  /** `_lease_deadline`: the end of a lease, unless it is empty, negative or beyond the calendar. */
  function Deadline(now: Time, length: int): Option<Time> {
    if length <= 0 || now + length > MAX_TIME then None else Some(now + length)
  }

  function Later(x: Time, y: Time): Time {
    if x < y then y else x
  }

  // ----- Enqueue -----

  predicate Collides(j: Job, s: JobSpec) {
    || j.id == s.id
    || (j.work.sessionId == s.work.sessionId && j.work.taskId == s.work.taskId)
    || (j.work.sessionId == s.work.sessionId && j.work.idempotencyKey == s.work.idempotencyKey)
  }

  function Colliding(db: Db, s: JobSpec): set<string> {
    set k | k in db.jobs && Collides(db.jobs[k], s)
  }

  function NewJob(s: JobSpec, now: Time): Job {
    Job(s.id, s.work, s.priority, Queued, s.maxAttempts, 0, 0, s.availableAt,
        if s.availableAt.Some? then s.availableAt.value else now, now, now,
        None, None, None, None, None, None, None)
  }

  function EnqueueStep(db: Db, s: JobSpec, now: Time): Outcome<Effect> {
    var rows := Colliding(db, s);
    if rows != {} then
      if |rows| != 1 then Raised(Conflict) else
      var row := db.jobs[Only(rows)];
      if !JobOk(row) then Raised(Integrity)
      else if !ExistingMatches(row, s) then Raised(Conflict)
      else Ok(Effect(db, Enqueued(row), ExpectJob))
    else
      var row := NewJob(s, now);
      if !JobOk(row) then Raised(Integrity)
      else Ok(Effect(db.(jobs := db.jobs[s.id := row]), Enqueued(row), ExpectJob))
  }

  // ----- Attempts of a job -----

  function AttemptsOf(db: Db, jobId: string): set<string> {
    set a | a in db.attempts && db.attempts[a].jobId == jobId
  }

  function RunningAttempts(db: Db, j: Job, attemptId: Option<string>): set<string> {
    set a | a in db.attempts
         && db.attempts[a].jobId == j.id && db.attempts[a].number == j.attemptsStarted
         && db.attempts[a].epoch == j.epoch && db.attempts[a].status.AttemptRunning?
         && (attemptId.Some? ==> a == attemptId.value)
  }

  /** `_load_running_attempt` and `_validate_running_attempt_owner`: the row of the attempt that owns a running job. */
  function OwningAttempt(db: Db, j: Job, attemptId: Option<string>): (r: Outcome<string>)
    ensures r.Ok? ==> r.value in db.attempts
  {
    var rows := RunningAttempts(db, j, attemptId);
    if |rows| != 1 then Raised(Integrity) else
    var a := db.attempts[Only(rows)];
    if !AttemptOk(a) then Raised(Integrity)
    else if Some(a.worker) != j.owner || Some(a.tokenDigest) != j.tokenDigest
         || Some(a.heartbeatAt) != j.heartbeatAt || Some(a.expiresAt) != j.expiresAt then Raised(Integrity)
    else Ok(Only(rows))
  }

  // ----- Expiry recovery -----

  predicate IsExpired(j: Job, now: Time, target: Option<string>) {
    && j.status.Running? && j.expiresAt.Some? && j.expiresAt.value <= now
    && (target.Some? ==> j.id == target.value)
  }

  function ExpiredKeys(db: Db, now: Time, target: Option<string>): set<SortKey> {
    set k | k in db.jobs && IsExpired(db.jobs[k], now, target) :: SortKey(db.jobs[k].expiresAt.value, 0, 0, k)
  }

  /** The expired leases a sweep fences: oldest deadline first, up to the limit. */
  function ExpiredRows(db: Db, now: Time, target: Option<string>, limit: Option<nat>): (ids: seq<string>)
    ensures forall id | id in ids :: id in db.jobs && IsExpired(db.jobs[id], now, target)
  {
    var keys := Ordered(ExpiredKeys(db, now, target));
    var taken := if limit.Some? && limit.value < |keys| then keys[..limit.value] else keys;
    assert forall i | 0 <= i < |taken| :: taken[i] in keys;
    seq(|taken|, i requires 0 <= i < |taken| => taken[i].id)
  }

  function ClearLease(j: Job): Job {
    j.(owner := None, tokenDigest := None, expiresAt := None, heartbeatAt := None)
  }

  /** The job after an attempt ended without success: terminal when the budget is spent, queued otherwise. */
  function AfterFailure(j: Job, now: Time, retry: Time, reason: string): Job {
    if j.attemptsStarted >= j.maxAttempts then
      ClearLease(j).(status := Failed, updatedAt := now, finishedAt := Some(now), lastError := Some(reason))
    else
      ClearLease(j).(status := Queued, availableAt := retry, updatedAt := now, lastError := Some(reason))
  }

  function AfterExpiry(a: Attempt, now: Time): Attempt {
    a.(status := AttemptExpired, finishedAt := Some(now), error := Some(EXPIRY_REASON))
  }

  function Put(db: Db, jobId: string, j: Job, attemptId: string, a: Attempt): Db {
    Db(db.jobs[jobId := j], db.attempts[attemptId := a])
  }

  /** One turn of the recovery loop. */
  function FenceOne(db: Db, id: string, now: Time): Outcome<Db>
    requires id in db.jobs
  {
    var j := db.jobs[id];
    if !JobOk(j) || !j.status.Running? then Raised(Integrity) else
    var owning := OwningAttempt(db, j, None);
    if owning.Raised? then Raised(owning.fault) else
    Ok(Put(db, id, AfterFailure(j, now, now, EXPIRY_REASON), owning.value, AfterExpiry(db.attempts[owning.value], now)))
  }

  /** The recovery loop over the selected rows. */
  function FenceAll(db: Db, ids: seq<string>, now: Time): (r: Outcome<(Db, Summary)>)
    requires forall id | id in ids :: id in db.jobs
    ensures r.Ok? ==> r.value.0.jobs.Keys == db.jobs.Keys
    decreases |ids|
  {
    if ids == [] then Ok((db, Summary([], []))) else
    var last := |ids| - 1;
    var before := FenceAll(db, ids[..last], now);
    if before.Raised? then before else
    var (db1, s) := before.value;
    var j := db1.jobs[ids[last]];
    var one := FenceOne(db1, ids[last], now);
    if one.Raised? then Raised(one.fault)
    else if j.attemptsStarted >= j.maxAttempts then Ok((one.value, s.(exhausted := s.exhausted + [ids[last]])))
    else Ok((one.value, s.(requeued := s.requeued + [ids[last]])))
  }

  function Sweep(db: Db, now: Time, target: Option<string>, limit: Option<nat>): Outcome<(Db, Summary)> {
    FenceAll(db, ExpiredRows(db, now, target, limit), now)
  }

  function Count(s: Summary): nat {
    |s.requeued| + |s.exhausted|
  }

  function RecoverStep(db: Db, limit: nat, now: Time): Outcome<Effect> {
    var swept := Sweep(db, now, None, Some(limit));
    if swept.Raised? then Raised(swept.fault)
    else Ok(Effect(swept.value.0, Recovered(swept.value.1), ExpectSweep(swept.value.1, now)))
  }

  // ----- First claim -----

  predicate IsCandidate(j: Job, now: Time, target: Option<string>) {
    && j.status.Queued? && j.attemptsStarted == 0 && j.availableAt <= now
    && (target.Some? ==> j.id == target.value)
  }

  function ClaimKey(j: Job, id: string): SortKey {
    SortKey(-j.priority, j.availableAt, j.createdAt, id)
  }

  function CandidateKeys(db: Db, now: Time, target: Option<string>): set<SortKey> {
    set k | k in db.jobs && IsCandidate(db.jobs[k], now, target) :: ClaimKey(db.jobs[k], k)
  }

  /** `_select_first_claim_candidate_in_transaction`. */
  function SelectCandidate(db: Db, now: Time, target: Option<string>): (r: Outcome<Option<string>>)
    ensures r.Ok? && r.value.Some? ==> r.value.value in db.jobs
  {
    var keys := CandidateKeys(db, now, target);
    if keys == {} then Ok(None) else
    var id := Least(keys).id;
    var j := db.jobs[id];
    if !JobOk(j) then Raised(Integrity)
    else if AttemptsOf(db, j.id) != {} then Raised(Integrity)
    else
      var pristine := set k | k in db.jobs && IsCandidate(db.jobs[k], now, target)
                           && db.jobs[k].epoch == 0 && db.jobs[k].resultRef.None? && db.jobs[k].lastError.None?
                        :: ClaimKey(db.jobs[k], k);
      if pristine == {} || Least(pristine).id != id then Raised(Integrity)
      else if now < j.createdAt || now < j.updatedAt then Raised(ClockRegression)
      else if j.attemptsStarted + 1 > j.maxAttempts then Raised(Internal)
      else if j.epoch >= MAX_SQLITE_INTEGER then Raised(Integrity)
      else Ok(Some(id))
  }

  function ClaimedJob(j: Job, worker: string, token: string, now: Time, deadline: Time): Job {
    j.(status := Running, attemptsStarted := j.attemptsStarted + 1, epoch := j.epoch + 1,
       owner := Some(worker), tokenDigest := Some(Sha256(token)), expiresAt := Some(deadline),
       heartbeatAt := Some(now), updatedAt := now, finishedAt := None)
  }

  function FirstAttempt(j: Job, worker: string, attemptId: string, token: string, now: Time, deadline: Time): Attempt {
    Attempt(attemptId, j.id, j.attemptsStarted + 1, j.epoch + 1, worker, Sha256(token), AttemptRunning,
            now, now, deadline, None, None, None)
  }

  function NewLease(j: Job, worker: string, attemptId: string, token: string, now: Time, deadline: Time): Lease {
    Lease(j.id, j.work, attemptId, j.attemptsStarted + 1, j.maxAttempts, j.epoch + 1, worker, token, now, deadline)
  }

  predicate TokenInUse(db: Db, token: string) {
    exists k | k in db.jobs :: db.jobs[k].tokenDigest == Some(Sha256(token))
  }

  /** `_claim_first_invocation_in_transaction` on the selected row: the claim's compare-and-set and attempt insert. */
  function ClaimRow(db: Db, id: string, op: Op, now: Time, deadline: Time): Outcome<(Db, Lease)>
    requires op.Claim? && id in db.jobs
  {
    var again := SelectCandidate(db, now, Some(id));
    if again.Raised? then Raised(again.fault)
    else if again.value != Some(id) then Raised(Integrity)
    else
      var j := db.jobs[id];
      // Unique token digests and primary keys are enforced by the schema.
      if TokenInUse(db, op.token) || op.attemptId in db.attempts then Raised(Internal)
      else Ok((Put(db, id, ClaimedJob(j, op.worker, op.token, now, deadline),
                   op.attemptId, FirstAttempt(j, op.worker, op.attemptId, op.token, now, deadline)),
               NewLease(j, op.worker, op.attemptId, op.token, now, deadline)))
  }

  function ClaimStep(db: Db, op: Op, now: Time): Outcome<Effect>
    requires op.Claim?
  {
    var deadline := Deadline(now, op.length);
    if deadline.None? then Raised(BadValue) else
    var swept := Sweep(db, now, op.target, if op.target.Some? then None else Some(CLAIM_SWEEP_LIMIT));
    if swept.Raised? then Raised(swept.fault) else
    var (db1, summary) := swept.value;
    var selected := SelectCandidate(db1, now, op.target);
    if selected.Raised? then Raised(selected.fault)
    else if selected.value.None? then
      Ok(Effect(db1, NoLease, if Count(summary) > 0 then ExpectSweep(summary, now) else NothingWritten))
    else
      var claimed := ClaimRow(db1, selected.value.value, op, now, deadline.value);
      if claimed.Raised? then Raised(claimed.fault)
      else Ok(Effect(claimed.value.0, Leased(claimed.value.1), ExpectLease(claimed.value.1)))
  }

  // ----- Steps of a lease holder -----

  /** The compare-and-set guard of `_active_owned_row`. */
  predicate HoldsLease(j: Job, l: Lease, now: Time) {
    && j.status.Running? && j.owner == Some(l.worker) && j.tokenDigest == Some(Sha256(l.token))
    && j.epoch == l.epoch && j.expiresAt.Some? && now < j.expiresAt.value
  }

  /** `None` when the lease is stale; otherwise the attempt the holder may act on, or the fault of a failed check. */
  function Owned(db: Db, l: Lease, now: Time): (r: Outcome<Option<string>>)
    ensures r.Ok? && r.value.Some? ==> l.jobId in db.jobs && r.value.value in db.attempts
  {
    if l.jobId !in db.jobs || !HoldsLease(db.jobs[l.jobId], l, now) then Ok(None) else
    var j := db.jobs[l.jobId];
    if !JobOk(j) then Raised(Integrity) else
    var owning := OwningAttempt(db, j, Some(l.attemptId));
    if owning.Raised? then Raised(owning.fault) else
    var a := db.attempts[owning.value];
    if !LeaseBinds(l, j, a) then Raised(Integrity)
    else if now < j.updatedAt || now < a.startedAt || now < a.heartbeatAt then Raised(ClockRegression)
    else Ok(Some(owning.value))
  }

  function HeartbeatStep(db: Db, l: Lease, length: int, now: Time): Outcome<Effect> {
    var proposed := Deadline(now, length);
    if proposed.None? then Raised(BadValue) else
    var owned := Owned(db, l, now);
    if owned.Raised? then Raised(owned.fault)
    else if owned.value.None? then Ok(Effect(db, Acknowledged(false), NothingWritten))
    else
      var j, a := db.jobs[l.jobId], db.attempts[owned.value.value];
      if j.expiresAt.None? then Raised(Integrity) else
      var deadline := Later(j.expiresAt.value, proposed.value);
      Ok(Effect(Put(db, l.jobId, j.(heartbeatAt := Some(now), expiresAt := Some(deadline), updatedAt := now),
                    owned.value.value, a.(heartbeatAt := now, expiresAt := deadline)),
                Acknowledged(true), ExpectBeat(now, deadline)))
  }

  function CompleteStep(db: Db, l: Lease, result: Option<string>, now: Time): Outcome<Effect> {
    var owned := Owned(db, l, now);
    if owned.Raised? then Raised(owned.fault)
    else if owned.value.None? then Ok(Effect(db, Acknowledged(false), NothingWritten))
    else
      var j, a := db.jobs[l.jobId], db.attempts[owned.value.value];
      Ok(Effect(Put(db, l.jobId,
                    ClearLease(j).(status := Succeeded, resultRef := result, updatedAt := now, finishedAt := Some(now)),
                    owned.value.value, a.(status := AttemptSucceeded, finishedAt := Some(now), resultRef := result)),
                Acknowledged(true), ExpectSuccess(now)))
  }

  function FailStep(db: Db, l: Lease, error: string, retryAt: Option<Time>, now: Time): Outcome<Effect> {
    var retry := Later(now, if retryAt.Some? then retryAt.value else now);
    var owned := Owned(db, l, now);
    if owned.Raised? then Raised(owned.fault)
    else if owned.value.None? then Ok(Effect(db, Acknowledged(false), NothingWritten))
    else
      var j, a := db.jobs[l.jobId], db.attempts[owned.value.value];
      var stored := StoredError(error);
      var next := AfterFailure(j, now, retry, stored);
      Ok(Effect(Put(db, l.jobId, next, owned.value.value,
                    a.(status := AttemptFailed, finishedAt := Some(now), error := Some(stored))),
                Acknowledged(true), ExpectFailure(now, retry, next.status)))
  }

  // ----- Dispatch -----

  /** The argument checks every call makes before it opens a transaction. */
  predicate ArgumentsOk(op: Op) {
    match op
    case Enqueue(s) => SpecOk(s)
    case Claim(worker, target, _, attemptId, token) =>
      && Acceptable(worker, MAX_IDENTITY_BYTES)
      && AcceptableOption(target, MAX_IDENTITY_BYTES)
      && Acceptable(attemptId, MAX_IDENTITY_BYTES)
      && Acceptable(token, MAX_IDENTITY_BYTES)
    case Heartbeat(l, _) => LeaseOk(l)
    case Complete(l, result) => LeaseOk(l) && AcceptableOption(result, MAX_REFERENCE_BYTES)
    case Fail(l, error, _) => LeaseOk(l) && Acceptable(error, MAX_ERROR_BYTES)
    case Recover(limit) => 1 <= limit <= 1000
  }

  /** The transaction body of an operation at one clock reading. */
  function Step(db: Db, op: Op, now: Time): Outcome<Effect>
    requires ArgumentsOk(op)
  {
    match op
    case Enqueue(s) => EnqueueStep(db, s, now)
    case Claim(_, _, _, _, _) => ClaimStep(db, op, now)
    case Heartbeat(l, length) => HeartbeatStep(db, l, length, now)
    case Complete(l, result) => CompleteStep(db, l, result, now)
    case Fail(l, error, retryAt) => FailStep(db, l, error, retryAt, now)
    case Recover(limit) => RecoverStep(db, limit, now)
  }
}
