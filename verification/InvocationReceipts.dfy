/** What read-back looks for, column by column, in every reachable database. */
module InvocationReceipts {
  import opened Common
  import opened InvocationText
  import opened InvocationRows
  import opened InvocationSteps
  import opened InvocationInvariant
  import opened InvocationReadBack
  import opened InvocationWorld
  import opened InvocationFencing
  import opened InvocationTheorems
  import opened InvocationOperations

  /** The lease is the one its rows were written for, token included. */
  predicate IsHolder(db: Db, l: Lease) {
    IsGenuine(db, l) && db.attempts[l.attemptId].tokenDigest == Sha256(l.token) && l.jobId == db.attempts[l.attemptId].jobId
  }

  lemma HolderIsCarrier(db: Db, l: Lease)
    requires Inv(db)
    ensures IsHolder(db, l) <==> Carries(db, l)
  {
    hide AllDistinct, OneAttemptEach, Acceptable, ErrorOk, JobOk, AttemptOk;
    if l.jobId in db.jobs && l.attemptId in db.attempts {
      AttemptHasRow(db, l.attemptId);
      StartedRows(db, db.attempts[l.attemptId].jobId, l.attemptId);
    }
  }

  /** The rows of an acknowledged claim or beat: last beaten at that time, up to exactly that deadline. */
  predicate ShowsBeat(db: Db, l: Lease, at: Time, deadline: Time) {
    && IsHolder(db, l) && var j := db.jobs[l.jobId];
    && j.status.Running? && j.heartbeatAt == Some(at) && j.updatedAt == at && j.expiresAt == Some(deadline)
  }

  predicate ShowsSuccess(db: Db, l: Lease, at: Time, result: Option<string>) {
    && IsHolder(db, l) && var j := db.jobs[l.jobId];
    && j.status.Succeeded? && j.resultRef == result && j.updatedAt == at && j.finishedAt == Some(at)
  }

  predicate ShowsFailure(db: Db, l: Lease, at: Time, retry: Time, status: JobStatus, error: string) {
    && IsHolder(db, l) && var j := db.jobs[l.jobId]; var a := db.attempts[l.attemptId];
    && j.status == status && a.status.AttemptFailed? && j.lastError == Some(error) && j.updatedAt == at && a.finishedAt == Some(at)
    && (status.Queued? ==> j.availableAt == retry)
  }

  /** One fenced job: its attempt expired at that time, and it was queued again or failed. */
  ghost predicate ShowsExpiry(db: Db, id: string, at: Time, requeued: bool) {
    && id in db.jobs && var j := db.jobs[id];
    && j.updatedAt == at && j.lastError == Some(EXPIRY_REASON)
    && (if requeued then j.status.Queued? && j.availableAt == at else j.status.Failed? && j.finishedAt == Some(at))
    && exists a :: AttemptFor(db, a, id) && db.attempts[a].status.AttemptExpired? && db.attempts[a].finishedAt == Some(at)
  }

  lemma BeatIsShown(db: Db, l: Lease, at: Time, deadline: Time)
    requires Inv(db)
    ensures var seen := LeaseSnapshot(db, l);
      (seen.Some? && BeatConfirmed(seen.value.0, seen.value.1, at, deadline)) <==> ShowsBeat(db, l, at, deadline)
  {
    hide Inv, LeaseSnapshot, JobOk, AttemptOk, IsGenuine, Carries;
    HolderIsCarrier(db, l);
    LeaseSnapshotOnValid(db, l);
    CarrierRows(db, l);
  }

  lemma CarrierRows(db: Db, l: Lease)
    requires Inv(db)
    ensures Carries(db, l) <==>
      l.jobId in db.jobs && AttemptFor(db, l.attemptId, l.jobId) && Bound(db, l) && db.attempts[l.attemptId].tokenDigest == Sha256(l.token)
    ensures Carries(db, l) ==> Paired(db.jobs[l.jobId], db.attempts[l.attemptId])
  {
    hide Inv, JobOk, AttemptOk, Paired;
    if Carries(db, l) {
      StartedRows(db, l.jobId, l.attemptId);
    }
  }

  lemma SuccessIsShown(db: Db, l: Lease, at: Time, result: Option<string>)
    requires Inv(db)
    ensures var seen := LeaseSnapshot(db, l);
      (seen.Some? && SuccessConfirmed(seen.value.0, seen.value.1, at, result)) <==> ShowsSuccess(db, l, at, result)
  {
    hide Inv, LeaseSnapshot, JobOk, AttemptOk, IsGenuine, Carries;
    HolderIsCarrier(db, l);
    LeaseSnapshotOnValid(db, l);
    CarrierRows(db, l);
  }

  lemma FailureIsShown(db: Db, l: Lease, at: Time, retry: Time, status: JobStatus, error: string)
    requires Inv(db) && status in {Queued, Failed}
    ensures var seen := LeaseSnapshot(db, l);
      (seen.Some? && FailureConfirmed(seen.value.0, seen.value.1, at, retry, status, error)) <==>
      ShowsFailure(db, l, at, retry, status, error)
  {
    hide Inv, LeaseSnapshot, AttemptOk, IsGenuine, Carries, Acceptable, ErrorOk, WorkOk;
    HolderIsCarrier(db, l);
    LeaseSnapshotOnValid(db, l);
    CarrierRows(db, l);
    if Carries(db, l) {
      JobRows(db, l.jobId);
    }
  }

  lemma ExpiryIsShown(db: Db, id: string, at: Time, requeued: bool)
    requires Inv(db)
    ensures SweptRow(db, db, id, at, requeued) <==> ShowsExpiry(db, id, at, requeued)
  {
    hide Inv, History, Acceptable, ErrorOk, WorkOk;
    if id in db.jobs {
      JobRows(db, id);
      HistoryOnValid(db, id);
      if db.jobs[id].attemptsStarted == 1 {
        var a := SomeAttempt(db, id);
        StartedRows(db, id, a);
        OnlyAttempt(db, a, id);
      }
    }
  }

  /** Read-back of each kind of receipt confirms exactly these columns. */
  lemma ReadBacksCompareColumns(events: seq<Event>, op: Op, answer: Answer, receipt: Receipt)
    ensures var db := Reached(events).db; var found := ReadBack(db, op, answer, receipt);
      match receipt
      case NothingWritten => found == Some(answer)
      case ExpectJob => op.Enqueue? ==>
        (found.Some? <==> exists k :: InTheWay(db, op.spec) == {k} && RequestOf(db.jobs[k]) == op.spec.(id := k))
        && (found.Some? ==> exists k :: InTheWay(db, op.spec) == {k} && found == Some(Enqueued(db.jobs[k])))
      case ExpectLease(l) =>
        found == (if ShowsBeat(db, l, l.claimedAt, l.expiresAt) && db.jobs[l.jobId].owner == Some(l.worker) then Some(answer) else None)
      case ExpectBeat(at, deadline) => op.Heartbeat? ==>
        found == (if ShowsBeat(db, op.lease, at, deadline) then Some(answer) else None)
      case ExpectSuccess(at) => op.Complete? ==>
        found == (if ShowsSuccess(db, op.lease, at, op.result) then Some(answer) else None)
      case ExpectFailure(at, retry, status) => op.Fail? && status in {Queued, Failed} ==>
        found == (if ShowsFailure(db, op.lease, at, retry, status, StoredError(op.error)) then Some(answer) else None)
      case ExpectSweep(s, at) =>
        found == (if Count(s) == 0
                     || ((forall id | id in s.requeued :: ShowsExpiry(db, id, at, true))
                         && (forall id | id in s.exhausted :: ShowsExpiry(db, id, at, id in s.requeued)))
                  then Some(answer) else None)
  {
    hide Run, Inv, LeaseSnapshot, BeatConfirmed, SuccessConfirmed, FailureConfirmed, SweptRow, ShowsBeat, ShowsSuccess, ShowsFailure,
         ShowsExpiry, StoredError, JobOk;
    var db := Reached(events).db;
    ReachedIsOk(events);
    match receipt
    case NothingWritten =>
    case ExpectJob =>
      if op.Enqueue? {
        JobIsShown(db, op.spec);
      }
    case ExpectLease(l) =>
      BeatIsShown(db, l, l.claimedAt, l.expiresAt);
      ShownIsSeen(db, l, l.claimedAt, l.expiresAt);
    case ExpectBeat(at, deadline) =>
      if op.Heartbeat? {
        BeatIsShown(db, op.lease, at, deadline);
      }
    case ExpectSuccess(at) =>
      if op.Complete? {
        SuccessIsShown(db, op.lease, at, op.result);
      }
    case ExpectFailure(at, retry, status) =>
      if op.Fail? && status in {Queued, Failed} {
        FailureIsShown(db, op.lease, at, retry, status, StoredError(op.error));
      }
    case ExpectSweep(s, at) =>
      forall id: string, requeued: bool ensures SweptRow(db, db, id, at, requeued) <==> ShowsExpiry(db, id, at, requeued) {
        ExpiryIsShown(db, id, at, requeued);
      }
  }

  lemma ShownIsSeen(db: Db, l: Lease, at: Time, deadline: Time)
    requires Inv(db)
    ensures ShowsBeat(db, l, at, deadline) ==> l.jobId in db.jobs && LeaseSnapshot(db, l).Some? && LeaseSnapshot(db, l).value.0 == db.jobs[l.jobId]
  {
    hide Inv, LeaseSnapshot, JobOk, AttemptOk, IsGenuine;
    HolderIsCarrier(db, l);
    LeaseSnapshotOnValid(db, l);
  }

  lemma JobIsShown(db: Db, s: JobSpec)
    requires Inv(db)
    ensures Colliding(db, s) == InTheWay(db, s)
    ensures var rows := Colliding(db, s);
      (|rows| == 1 && JobOk(db.jobs[Only(rows)]) && ExistingMatches(db.jobs[Only(rows)], s)) <==>
      exists k :: InTheWay(db, s) == {k} && RequestOf(db.jobs[k]) == s.(id := k)
  {
    hide Inv, JobOk;
    forall k | k in db.jobs ensures db.jobs[k].id == k && JobOk(db.jobs[k]) {
      JobRows(db, k);
    }
    var rows := Colliding(db, s);
    assert rows == InTheWay(db, s);
    if |rows| == 1 {
      var k := Only(rows);
      assert k in rows;
      assert forall m :: rows == {m} ==> m == k;
    } else {
      assert forall m :: rows != {m};
    }
  }
}
