/** The recovery snapshot of a task, and the read-back that decides what an unacknowledged COMMIT did. */
module InvocationReadBack {
  import opened Common
  import opened SortKeys
  import opened InvocationText
  import opened InvocationRows
  import opened InvocationSteps
  import opened InvocationInvariant

  const HISTORY_LIMIT: nat := 1000

  // ----- The recovery snapshot -----

  datatype Observation = NoJob | Observation(job: Job, current: Option<Attempt>)

  /** The running variables of the attempt-history loop. */
  datatype Scan = Scan(count: nat, epoch: int, finishedAt: Option<Time>, current: Option<Attempt>)

  const SCAN_START := Scan(0, 0, None, None)

  /** One turn of the history loop. */
  function ScanRow(j: Job, s: Scan, a: Attempt): Outcome<Scan> {
    if s.count + 1 > HISTORY_LIMIT || !AttemptOk(a) || a.jobId != j.id || a.startedAt < j.createdAt
       || a.number != s.count + 1 || a.epoch <= s.epoch
       || (s.finishedAt.Some? && a.startedAt < s.finishedAt.value)
       || (a.number < j.attemptsStarted && a.status !in {AttemptFailed, AttemptExpired})
       || a.number > j.attemptsStarted
    then Raised(Integrity)
    else Ok(Scan(s.count + 1, a.epoch, a.finishedAt, if a.number == j.attemptsStarted then Some(a) else s.current))
  }

  function ScanRows(j: Job, rows: seq<Attempt>): Outcome<Scan> {
    if rows == [] then Ok(SCAN_START) else
    var before := ScanRows(j, rows[..|rows| - 1]);
    if before.Raised? then before else ScanRow(j, before.value, rows[|rows| - 1])
  }

  /** The attempts of a job in attempt-number order, one more than the limit at most. */
  function History(db: Db, jobId: string): (rows: seq<Attempt>)
    ensures |rows| <= HISTORY_LIMIT + 1
  {
    var keys := Ordered(set a | a in AttemptsOf(db, jobId) :: SortKey(db.attempts[a].number, 0, 0, a));
    assert forall i | 0 <= i < |keys| :: keys[i].id in db.attempts by {
      forall i | 0 <= i < |keys| ensures keys[i].id in db.attempts {
        assert keys[i] in keys;
      }
    }
    var taken := if |keys| > HISTORY_LIMIT + 1 then keys[..HISTORY_LIMIT + 1] else keys;
    seq(|taken|, i requires 0 <= i < |taken| => db.attempts[taken[i].id])
  }

  function TaskRows(db: Db, sessionId: string, taskId: string): set<string> {
    set k | k in db.jobs && db.jobs[k].work.sessionId == sessionId && db.jobs[k].work.taskId == taskId
  }

  /** `recovery_snapshot_for_task`. */
  function SnapshotOf(db: Db, sessionId: string, taskId: string): Outcome<Observation> {
    var rows := TaskRows(db, sessionId, taskId);
    if rows == {} then Ok(NoJob)
    else if |rows| != 1 then Raised(Integrity)
    else
      var j := db.jobs[Only(rows)];
      if !JobOk(j) then Raised(Integrity) else
      var scanned := ScanRows(j, History(db, j.id));
      if scanned.Raised? then Raised(scanned.fault)
      else if !SnapshotOk(j, scanned.value.current, scanned.value.count) then Raised(Integrity)
      else Ok(Observation(j, scanned.value.current))
  }

  // ----- What a snapshot proves about any tables -----

  /** The rows are the job's attempts 1, 2, ... of rising epochs, none started before the job was created or before the one
      before it was finished, and all before the current one failed or expired. */
  ghost predicate GoodHistory(j: Job, rows: seq<Attempt>) {
    && |rows| <= 1000 && (rows == [] || |rows| <= j.attemptsStarted)
    && (forall i | 0 <= i < |rows| ::
          && AttemptOk(rows[i]) && rows[i].jobId == j.id && rows[i].number == i + 1 && j.createdAt <= rows[i].startedAt
          && (i + 1 < j.attemptsStarted ==> rows[i].status.AttemptFailed? || rows[i].status.AttemptExpired?))
    && (forall i | 1 <= i < |rows| ::
          && rows[i - 1].epoch < rows[i].epoch
          && (rows[i - 1].finishedAt.Some? ==> rows[i - 1].finishedAt.value <= rows[i].startedAt))
  }

  /** A row that may follow a good history. */
  ghost predicate GoodNext(j: Job, front: seq<Attempt>, a: Attempt) {
    && |front| < 1000 && |front| < j.attemptsStarted
    && AttemptOk(a) && a.jobId == j.id && a.number == |front| + 1 && j.createdAt <= a.startedAt
    && (|front| + 1 < j.attemptsStarted ==> a.status.AttemptFailed? || a.status.AttemptExpired?)
    && (front != [] ==>
          && front[|front| - 1].epoch < a.epoch
          && (front[|front| - 1].finishedAt.Some? ==> front[|front| - 1].finishedAt.value <= a.startedAt))
  }

  lemma GoodOneByOne(j: Job, front: seq<Attempt>, a: Attempt)
    ensures GoodHistory(j, front + [a]) <==> GoodHistory(j, front) && GoodNext(j, front, a)
  {
    hide AttemptOk;
    var rows := front + [a];
    assert forall i | 0 <= i < |front| :: front[i] == rows[i];
    if GoodHistory(j, rows) {
      assert rows[|front|] == a;
    }
  }

  lemma GoodNextIsScanned(j: Job, front: seq<Attempt>, s: Scan, a: Attempt)
    requires s.count == |front|
    requires if front == [] then s == SCAN_START else
      s.epoch == front[|front| - 1].epoch && s.finishedAt == front[|front| - 1].finishedAt
    ensures ScanRow(j, s, a).Ok? <==> GoodNext(j, front, a)
  {
    hide AttemptOk;
    EpochsArePositive(a);
  }

  /** The history loop accepts exactly good histories. */
  lemma {:induction false} ScanAcceptsGoodHistories(j: Job, rows: seq<Attempt>)
    ensures ScanRows(j, rows).Ok? <==> GoodHistory(j, rows)
    ensures ScanRows(j, rows).Ok? ==>
      && ScanRows(j, rows).value.count == |rows|
      && (rows != [] ==> ScanRows(j, rows).value.epoch == rows[|rows| - 1].epoch
                         && ScanRows(j, rows).value.finishedAt == rows[|rows| - 1].finishedAt)
      && ScanRows(j, rows).value.current ==
           if 0 < j.attemptsStarted <= |rows| then Some(rows[j.attemptsStarted - 1]) else None
    ensures rows == [] ==> ScanRows(j, rows) == Ok(SCAN_START)
    decreases |rows|
  {
    hide AttemptOk, GoodHistory, GoodNext;
    if rows == [] {
      NoRowsAreGood(j);
    } else {
      var front, a := rows[..|rows| - 1], rows[|rows| - 1];
      assert rows == front + [a];
      ScanAcceptsGoodHistories(j, front);
      GoodOneByOne(j, front, a);
      if ScanRows(j, front).Ok? {
        GoodNextIsScanned(j, front, ScanRows(j, front).value, a);
      }
    }
  }

  lemma NoRowsAreGood(j: Job)
    ensures GoodHistory(j, [])
  {
  }

  lemma EpochsArePositive(a: Attempt)
    ensures AttemptOk(a) ==> a.epoch >= 1
  {
  }

  /** `recovery_snapshot_for_task` on any tables: it answers exactly when a task has no row, or one valid row whose whole
      attempt history is good and ends in the attempt the row speaks of. */
  lemma SnapshotsProveHistories(db: Db, sessionId: string, taskId: string)
    ensures var r := SnapshotOf(db, sessionId, taskId);
      && (r == Ok(NoJob) <==> forall k | k in db.jobs ::
            !(db.jobs[k].work.sessionId == sessionId && db.jobs[k].work.taskId == taskId))
      && (r.Ok? && r.value.Observation? <==> exists k :: TaskRows(db, sessionId, taskId) == {k} && ProvenRow(db, db.jobs[k]))
      && (r.Ok? && r.value.Observation? ==>
            var j := r.value.job; var rows := History(db, j.id);
            && (exists k :: TaskRows(db, sessionId, taskId) == {k} && db.jobs[k] == j) && ProvenRow(db, j)
            && r.value.current == (if rows == [] then None else Some(rows[|rows| - 1])))
  {
    hide JobOk, History, SnapshotOk, GoodHistory;
    var all := TaskRows(db, sessionId, taskId);
    assert all == {} <==> forall k | k in db.jobs :: !(db.jobs[k].work.sessionId == sessionId && db.jobs[k].work.taskId == taskId) by {
      if k :| k in db.jobs && db.jobs[k].work.sessionId == sessionId && db.jobs[k].work.taskId == taskId {
        assert k in all;
      }
    }
    if |all| == 1 {
      var k := Only(all);
      assert k in all && forall m :: all == {m} ==> m == k;
      var j := db.jobs[k];
      ScanAcceptsGoodHistories(j, History(db, j.id));
      if ScanRows(j, History(db, j.id)).Ok? {
        SnapshotCounts(j, ScanRows(j, History(db, j.id)).value.current, |History(db, j.id)|);
        CurrentIsLast(j, History(db, j.id));
      }
    } else {
      assert forall m :: all != {m};
    }
  }

  lemma SnapshotCounts(j: Job, current: Option<Attempt>, count: nat)
    ensures SnapshotOk(j, current, count) ==> count == j.attemptsStarted
  {
    hide CurrentAttemptOk;
  }

  /** A valid row with its whole history. */
  ghost predicate ProvenRow(db: Db, j: Job) {
    var rows := History(db, j.id);
    && JobOk(j) && GoodHistory(j, rows) && |rows| == j.attemptsStarted
    && (if rows == [] then j.epoch == 0 else CurrentAttemptOk(j, rows[|rows| - 1]))
  }

  lemma CurrentIsLast(j: Job, rows: seq<Attempt>)
    requires ScanRows(j, rows).Ok? && GoodHistory(j, rows)
    requires ScanRows(j, rows).value.count == |rows|
    requires ScanRows(j, rows).value.current == if 0 < j.attemptsStarted <= |rows| then Some(rows[j.attemptsStarted - 1]) else None
    ensures SnapshotOk(j, ScanRows(j, rows).value.current, |rows|) <==>
      |rows| == j.attemptsStarted && (if rows == [] then j.epoch == 0 else CurrentAttemptOk(j, rows[|rows| - 1]))
    ensures |rows| == j.attemptsStarted ==>
      ScanRows(j, rows).value.current == if rows == [] then None else Some(rows[|rows| - 1])
  {
    hide CurrentAttemptOk, AttemptOk, ScanRows;
  }

  lemma HistoryOnValid(db: Db, k: string)
    requires Inv(db) && k in db.jobs
    ensures db.jobs[k].attemptsStarted == 0 ==> History(db, k) == []
    ensures forall a | AttemptFor(db, a, k) :: History(db, k) == [db.attempts[a]]
  {
    hide JobOk, Paired, AllDistinct;
    var keys := set a | a in AttemptsOf(db, k) :: SortKey(db.attempts[a].number, 0, 0, a);
    if db.jobs[k].attemptsStarted == 0 {
      assert AttemptsOf(db, k) == {};
      assert keys == {};
    }
    forall a | AttemptFor(db, a, k) ensures History(db, k) == [db.attempts[a]] {
      forall x | x in AttemptsOf(db, k) ensures x == a {
        assert AttemptFor(db, x, k);
      }
      assert AttemptsOf(db, k) == {a};
      assert keys == {SortKey(db.attempts[a].number, 0, 0, a)};
      assert Ordered(keys)[0] in keys;
    }
  }

  /** On valid tables no reader ever raises: the snapshot is its job with its one attempt, if started. */
  lemma SnapshotOnValid(db: Db, k: string)
    requires Inv(db) && k in db.jobs
    ensures var j := db.jobs[k]; var r := SnapshotOf(db, j.work.sessionId, j.work.taskId);
      && (j.attemptsStarted == 0 ==> r == Ok(Observation(j, None)))
      && (forall a | AttemptFor(db, a, k) :: r == Ok(Observation(j, Some(db.attempts[a]))))
      && r.Ok? && r.value.Observation? && r.value.job == j
  {
    hide AllDistinct, History, Acceptable, ErrorOk;
    var j := db.jobs[k];
    TaskRowIsUnique(db, k);
    HistoryOnValid(db, k);
    assert j.id == k && JobOk(j) && FirstAttemptOnly(j);
    if j.attemptsStarted == 1 {
      var a :| AttemptFor(db, a, k);
      assert Paired(j, db.attempts[a]);
      var rows := [db.attempts[a]];
      assert rows[..0] == [];
      assert ScanRows(j, rows) == ScanRow(j, SCAN_START, rows[0]);
      forall b | AttemptFor(db, b, k) ensures b == a {
        SameAttempt(db, a, b, k);
      }
    }
  }

  lemma TaskRowIsUnique(db: Db, k: string)
    requires AllDistinct(db.jobs) && k in db.jobs
    ensures TaskRows(db, db.jobs[k].work.sessionId, db.jobs[k].work.taskId) == {k}
  {
    var w := db.jobs[k].work;
    forall m | m in TaskRows(db, w.sessionId, w.taskId) ensures m == k {
      assert m == k || Distinct(db.jobs[m], db.jobs[k]);
    }
  }

  lemma SnapshotNeverRaises(db: Db, sessionId: string, taskId: string)
    requires Inv(db)
    ensures SnapshotOf(db, sessionId, taskId).Ok?
  {
    hide Inv, SnapshotOf;
    var rows := TaskRows(db, sessionId, taskId);
    if rows != {} {
      var k :| k in rows;
      SnapshotOnValid(db, k);
    } else {
      assert SnapshotOf(db, sessionId, taskId) == Ok(NoJob) by { NoRowNoJob(db, sessionId, taskId); }
    }
  }

  lemma NoRowNoJob(db: Db, sessionId: string, taskId: string)
    requires TaskRows(db, sessionId, taskId) == {}
    ensures SnapshotOf(db, sessionId, taskId) == Ok(NoJob)
  {
  }

  // ----- Read-back -----

  /** `_lease_snapshot`: the rows the lease is bound to, if it is still current. */
  function LeaseSnapshot(db: Db, l: Lease): Option<(Job, Attempt)> {
    var r := SnapshotOf(db, l.work.sessionId, l.work.taskId);
    if r.Raised? || r.value.NoJob? || r.value.current.None? then None else
    var j, a := r.value.job, r.value.current.value;
    if !LeaseBinds(l, j, a) || a.tokenDigest != Sha256(l.token) then None else Some((j, a))
  }

  predicate BeatConfirmed(j: Job, a: Attempt, at: Time, deadline: Time) {
    && j.status.Running? && a.status.AttemptRunning?
    && j.heartbeatAt == Some(at) && a.heartbeatAt == at && j.updatedAt == at
    && j.expiresAt == Some(deadline) && a.expiresAt == deadline
  }

  predicate SuccessConfirmed(j: Job, a: Attempt, at: Time, result: Option<string>) {
    && j.status.Succeeded? && a.status.AttemptSucceeded?
    && j.resultRef == result && a.resultRef == result
    && j.updatedAt == at && j.finishedAt == Some(at) && a.finishedAt == Some(at)
  }

  predicate FailureConfirmed(j: Job, a: Attempt, at: Time, retry: Time, status: JobStatus, error: string) {
    && j.status == status && a.status.AttemptFailed?
    && j.lastError == Some(error) && a.error == Some(error)
    && j.updatedAt == at && a.finishedAt == Some(at)
    && (status.Queued? ==> j.availableAt == retry && j.finishedAt.None?)
    && (status.Failed? ==> j.finishedAt == Some(at))
  }

  /** One id of `_recovered_commit_matches`: the job as first read and the last attempt as read after it. */
  predicate ExpiryConfirmed(j: Job, a: Attempt, at: Time, requeued: bool) {
    && a.number == j.attemptsStarted && a.epoch == j.epoch
    && a.status.AttemptExpired? && a.finishedAt == Some(at) && a.error == Some(EXPIRY_REASON)
    && j.updatedAt == at && j.lastError == Some(EXPIRY_REASON)
    && (if requeued then j.status.Queued? && j.availableAt == at && j.finishedAt.None?
        else j.status.Failed? && j.finishedAt == Some(at))
  }

  predicate SweptRow(jobsSeen: Db, attemptsSeen: Db, id: string, at: Time, requeued: bool) {
    && id in jobsSeen.jobs && JobOk(jobsSeen.jobs[id])
    && var rows := History(attemptsSeen, id);
    && rows != [] && (forall i | 0 <= i < |rows| :: AttemptOk(rows[i]))
    && ExpiryConfirmed(jobsSeen.jobs[id], rows[|rows| - 1], at, requeued)
  }

  predicate SweepMatches(jobsSeen: Db, attemptsSeen: Db, s: Summary, at: Time) {
    && (forall id | id in s.requeued :: SweptRow(jobsSeen, attemptsSeen, id, at, true))
    && (forall id | id in s.exhausted :: SweptRow(jobsSeen, attemptsSeen, id, at, id in s.requeued))
  }

  /** The answer a call gives after COMMIT ended its transaction with an error, or none if it cannot tell. */
  function ReadBack(db: Db, op: Op, answer: Answer, receipt: Receipt): Option<Answer> {
    match receipt
    case NothingWritten => Some(answer)
    case ExpectJob =>
      if !op.Enqueue? then None else
      var rows := Colliding(db, op.spec);
      if |rows| != 1 || !JobOk(db.jobs[Only(rows)]) || !ExistingMatches(db.jobs[Only(rows)], op.spec) then None
      else Some(Enqueued(db.jobs[Only(rows)]))
    case ExpectLease(l) =>
      var seen := LeaseSnapshot(db, l);
      if seen.None? || !BeatConfirmed(seen.value.0, seen.value.1, l.claimedAt, l.expiresAt)
         || seen.value.0.owner != Some(l.worker) then None else Some(answer)
    case ExpectSweep(s, at) =>
      if Count(s) == 0 || SweepMatches(db, db, s, at) then Some(answer) else None
    case ExpectBeat(at, deadline) =>
      if !op.Heartbeat? then None else
      var seen := LeaseSnapshot(db, op.lease);
      if seen.None? || !BeatConfirmed(seen.value.0, seen.value.1, at, deadline) then None else Some(answer)
    case ExpectSuccess(at) =>
      if !op.Complete? then None else
      var seen := LeaseSnapshot(db, op.lease);
      if seen.None? || !SuccessConfirmed(seen.value.0, seen.value.1, at, op.result) then None else Some(answer)
    case ExpectFailure(at, retry, status) =>
      if !op.Fail? then None else
      var seen := LeaseSnapshot(db, op.lease);
      if seen.None? || !FailureConfirmed(seen.value.0, seen.value.1, at, retry, status, StoredError(op.error))
      then None else Some(answer)
  }

  /** On valid tables the lease snapshot finds exactly the rows a bound lease names. */
  lemma LeaseSnapshotOnValid(db: Db, l: Lease)
    requires Inv(db)
    ensures LeaseSnapshot(db, l) ==
      if Bound(db, l) && db.attempts[l.attemptId].tokenDigest == Sha256(l.token)
      then Some((db.jobs[l.jobId], db.attempts[l.attemptId])) else None
  {
    hide SnapshotOf, AllDistinct, Paired, Acceptable, ErrorOk;
    var rows := TaskRows(db, l.work.sessionId, l.work.taskId);
    if rows == {} {
      NoRowNoJob(db, l.work.sessionId, l.work.taskId);
      assert Bound(db, l) ==> l.jobId in rows;
    } else {
      var k :| k in rows;
      SnapshotOnValid(db, k);
      TaskRowIsUnique(db, k);
      if Bound(db, l) {
        assert l.jobId in rows;
      }
      if a :| AttemptFor(db, a, k) {
        assert Paired(db.jobs[k], db.attempts[a]) && db.attempts[a].id == a && db.jobs[k].id == k;
        if Bound(db, l) {
          SameAttempt(db, a, l.attemptId, k);
        }
      } else {
        assert JobOk(db.jobs[k]) && FirstAttemptOnly(db.jobs[k]);
      }
    }
  }

  // ----- What read-back can and cannot conclude -----

  /** A sweep seen right after it committed. */
  lemma SweepIsConfirmed(db: Db, now: Time, target: Option<string>, limit: Option<nat>)
    requires Inv(db)
    ensures var r := Sweep(db, now, target, limit); r.Ok? && SweepMatches(r.value.0, r.value.0, r.value.1, now)
  {
    hide Inv, Sweep, SweptRow, ExpiredRows, Advances, Fenced, AfterFailure, JobOk;
    SweepKeepsInv(db, now, target, limit);
    var (next, s) := Sweep(db, now, target, limit).value;
    var ids := ExpiredRows(db, now, target, limit);
    forall id | id in s.requeued || id in s.exhausted
      ensures SweptRow(next, next, id, now, id in s.requeued)
    {
      SweptRowIsConfirmed(db, next, ids, id, now);
    }
  }

  lemma SweptRowIsConfirmed(db: Db, next: Db, ids: seq<string>, id: string, now: Time)
    requires Inv(db) && Inv(next) && id in ids && id in db.jobs && IsExpired(db.jobs[id], now, None)
    requires Fenced(db, next, ids, now)
    ensures SweptRow(next, next, id, now, db.jobs[id].attemptsStarted < db.jobs[id].maxAttempts)
  {
    hide Inv, History, JobOk, AttemptOk, Paired, FirstAttemptOnly;
    var a := StartedHasAttempt(db, id);
    assert next.attempts[a] == AfterExpiry(db.attempts[a], now);
    assert AttemptFor(next, a, id);
    HistoryOnValid(next, id);
    assert History(next, id) == [next.attempts[a]];
    StartedRows(db, id, a);
    StartedRows(next, id, a);
  }

  lemma StartedHasAttempt(db: Db, k: string) returns (a: string)
    requires Inv(db) && k in db.jobs && db.jobs[k].status.Running?
    ensures AttemptFor(db, a, k)
  {
    hide AllDistinct, AttemptsOk, ErrorOk, Acceptable;
    assert JobOk(db.jobs[k]) && FirstAttemptOnly(db.jobs[k]);
    a :| AttemptFor(db, a, k);
  }

  lemma StartedRows(db: Db, k: string, a: string)
    requires Inv(db) && k in db.jobs && AttemptFor(db, a, k)
    ensures JobOk(db.jobs[k]) && AttemptOk(db.attempts[a])
    ensures db.attempts[a].number == db.jobs[k].attemptsStarted && db.attempts[a].epoch == db.jobs[k].epoch
    ensures Paired(db.jobs[k], db.attempts[a]) && FirstAttemptOnly(db.jobs[k]) && db.jobs[k].id == k
    ensures db.attempts[a].id == a && db.jobs[k].attemptsStarted == 1
    ensures db.jobs[k].status.Running? ==> db.jobs[k].finishedAt.None?
  {
    hide AllDistinct, OneAttemptEach, ErrorOk;
    assert Paired(db.jobs[k], db.attempts[a]);
  }

  // ----- A COMMIT that took effect -----

  /** After a lease holder's change, the lease snapshot shows exactly the changed rows. */
  lemma HolderSees(db: Db, l: Lease, now: Time, m: Job, b: Attempt)
    requires Inv(db) && Owned(db, l, now) == Ok(Some(l.attemptId))
    requires Inv(Put(db, l.jobId, m, l.attemptId, b))
    requires l.jobId in db.jobs && l.attemptId in db.attempts
    requires SameJob(db.jobs[l.jobId], m) && SameStart(db.attempts[l.attemptId], b)
    requires m.attemptsStarted == db.jobs[l.jobId].attemptsStarted && m.epoch == db.jobs[l.jobId].epoch
    ensures LeaseSnapshot(Put(db, l.jobId, m, l.attemptId, b), l) == Some((m, b))
  {
    hide Inv, LeaseSnapshot, Owned, JobOk, FirstAttemptOnly, AttemptOk;
    OwnedOnValid(db, l, now);
    LeaseSnapshotOnValid(Put(db, l.jobId, m, l.attemptId, b), l);
  }

  lemma HeartbeatIsConfirmed(db: Db, l: Lease, length: int, now: Time)
    requires Inv(db)
    ensures var r := HeartbeatStep(db, l, length, now);
      r.Ok? ==> ReadBack(r.value.db, Heartbeat(l, length), r.value.answer, r.value.receipt) == Some(r.value.answer)
  {
    hide Inv, LeaseSnapshot, Owned, Advances, JobOk, FirstAttemptOnly, AttemptOk, SnapshotOf;
    OwnedOnValid(db, l, now);
    HeartbeatKeepsInv(db, l, length, now);
    var r := HeartbeatStep(db, l, length, now);
    if r.Ok? && r.value.receipt.ExpectBeat? {
      HolderSees(db, l, now, r.value.db.jobs[l.jobId], r.value.db.attempts[l.attemptId]);
      StartedRows(db, l.jobId, l.attemptId);
    }
  }

  lemma CompleteIsConfirmed(db: Db, l: Lease, result: Option<string>, now: Time)
    requires Inv(db) && AcceptableOption(result, MAX_REFERENCE_BYTES)
    ensures var r := CompleteStep(db, l, result, now);
      r.Ok? ==> ReadBack(r.value.db, Complete(l, result), r.value.answer, r.value.receipt) == Some(r.value.answer)
  {
    hide Inv, LeaseSnapshot, Owned, Advances, JobOk, FirstAttemptOnly, SnapshotOf, AttemptOk;
    OwnedOnValid(db, l, now);
    CompleteKeepsInv(db, l, result, now);
    var r := CompleteStep(db, l, result, now);
    if r.Ok? && r.value.receipt.ExpectSuccess? {
      HolderSees(db, l, now, r.value.db.jobs[l.jobId], r.value.db.attempts[l.attemptId]);
    }
  }

  lemma FailIsConfirmed(db: Db, l: Lease, error: string, retryAt: Option<Time>, now: Time)
    requires Inv(db) && Acceptable(error, MAX_ERROR_BYTES)
    ensures var r := FailStep(db, l, error, retryAt, now);
      r.Ok? ==> ReadBack(r.value.db, Fail(l, error, retryAt), r.value.answer, r.value.receipt) == Some(r.value.answer)
  {
    hide Inv, LeaseSnapshot, Owned, Advances, FirstAttemptOnly, SnapshotOf, AttemptOk, StoredError, Acceptable, ErrorOk;
    OwnedOnValid(db, l, now);
    FailKeepsInv(db, l, error, retryAt, now);
    var r := FailStep(db, l, error, retryAt, now);
    if r.Ok? && r.value.receipt.ExpectFailure? {
      HolderSees(db, l, now, r.value.db.jobs[l.jobId], r.value.db.attempts[l.attemptId]);
    }
  }

  lemma ClaimIsConfirmed(db: Db, op: Op, now: Time)
    requires Inv(db) && op.Claim? && ArgumentsOk(op)
    ensures var r := ClaimStep(db, op, now);
      r.Ok? ==> ReadBack(r.value.db, op, r.value.answer, r.value.receipt) == Some(r.value.answer)
  {
    hide Inv, LeaseSnapshot, Advances, JobOk, FirstAttemptOnly, SnapshotOf, AttemptOk, ClaimStep, Sweep, SweepMatches,
         CandidateKeys, Bound, TokenInUse, ArgumentsOk, Precedes, IsCandidate;
    ClaimOnValid(db, op, now);
    SweepIsConfirmed(db, now, op.target, ClaimSweepLimit(op));
    var r := ClaimStep(db, op, now);
    if r.Ok? && r.value.answer.Leased? {
      LeastCandidate(db, now, op.target);
      LeaseSnapshotOnValid(r.value.db, r.value.answer.lease);
    }
  }

  lemma EnqueueIsConfirmed(db: Db, s: JobSpec, now: Time)
    requires Inv(db) && SpecOk(s)
    ensures var r := EnqueueStep(db, s, now);
      r.Ok? ==> ReadBack(r.value.db, Enqueue(s), r.value.answer, r.value.receipt) == Some(r.value.answer)
  {
    hide Inv, Advances, ExistingMatches, Distinct;
    var r := EnqueueStep(db, s, now);
    if r.Ok? {
      EnqueueKeepsInv(db, s, now);
      if Colliding(db, s) == {} {
        forall k | k in db.jobs ensures !Collides(db.jobs[k], s) {
          assert k !in Colliding(db, s);
        }
        assert Colliding(r.value.db, s) == {s.id};
        assert Only({s.id}) in {s.id};
      }
    }
  }

  /** Losing only the acknowledgement is invisible: read-back gives the answer the lost acknowledgement would have given. */
  lemma DurableStepIsConfirmed(db: Db, op: Op, now: Time)
    requires Inv(db) && ArgumentsOk(op)
    ensures var r := Step(db, op, now);
      r.Ok? ==> ReadBack(r.value.db, op, r.value.answer, r.value.receipt) == Some(r.value.answer)
  {
    hide Inv, Sweep, EnqueueStep, ClaimStep, HeartbeatStep, CompleteStep, FailStep, ReadBack;
    match op
    case Enqueue(s) => EnqueueIsConfirmed(db, s, now);
    case Claim(_, _, _, _, _) => ClaimIsConfirmed(db, op, now);
    case Heartbeat(l, length) => HeartbeatIsConfirmed(db, l, length, now);
    case Complete(l, result) => CompleteIsConfirmed(db, l, result, now);
    case Fail(l, error, retryAt) => FailIsConfirmed(db, l, error, retryAt, now);
    case Recover(limit) =>
      SweepIsConfirmed(db, now, None, Some(limit));
      SweepReadBack(Sweep(db, now, None, Some(limit)).value.0, op, Sweep(db, now, None, Some(limit)).value.1, now);
  }

  lemma SweepReadBack(db: Db, op: Op, s: Summary, at: Time)
    requires SweepMatches(db, db, s, at)
    ensures ReadBack(db, op, Recovered(s), ExpectSweep(s, at)) == Some(Recovered(s))
  {
  }

  // ----- A COMMIT that did not take effect -----

  lemma HeartbeatNotConfirmed(db: Db, l: Lease, length: int, now: Time)
    requires Inv(db)
    ensures var r := HeartbeatStep(db, l, length, now);
      r.Ok? && ReadBack(db, Heartbeat(l, length), r.value.answer, r.value.receipt).Some? ==> r.value.db == db
  {
    hide Inv, LeaseSnapshot, Owned, JobOk, FirstAttemptOnly, Paired, SnapshotOf;
    OwnedOnValid(db, l, now);
    LeaseSnapshotOnValid(db, l);
    var r := HeartbeatStep(db, l, length, now);
    if r.Ok? && r.value.receipt.ExpectBeat?
       && ReadBack(db, Heartbeat(l, length), r.value.answer, r.value.receipt).Some? {
      assert r.value.db.jobs[l.jobId] == db.jobs[l.jobId];
      assert r.value.db.attempts[l.attemptId] == db.attempts[l.attemptId];
      assert r.value.db.jobs == db.jobs && r.value.db.attempts == db.attempts;
    }
  }

  lemma SettlingNotConfirmed(db: Db, op: Op, now: Time)
    requires Inv(db) && (op.Complete? || op.Fail?) && ArgumentsOk(op)
    ensures var r := Step(db, op, now);
      r.Ok? && ReadBack(db, op, r.value.answer, r.value.receipt).Some? ==> r.value.db == db
  {
    hide Inv, LeaseSnapshot, Owned, JobOk, FirstAttemptOnly, Paired, SnapshotOf, ArgumentsOk, StoredError;
    OwnedOnValid(db, op.lease, now);
    LeaseSnapshotOnValid(db, op.lease);
  }

  lemma ClaimNotConfirmed(db: Db, op: Op, now: Time)
    requires Inv(db) && op.Claim? && ArgumentsOk(op)
    ensures var r := ClaimStep(db, op, now);
      r.Ok? && ReadBack(db, op, r.value.answer, r.value.receipt).Some? ==> r.value.db == db
  {
    hide Inv, LeaseSnapshot, Advances, JobOk, FirstAttemptOnly, SnapshotOf, AttemptOk, ClaimStep, Sweep, SweepMatches,
         CandidateKeys, TokenInUse, ArgumentsOk, Precedes, IsCandidate, Fenced, SplitByBudget, ExpiredRows, Put, ClaimedJob,
         FirstAttempt, LeaseBinds, IsLeast;
    ClaimOnValid(db, op, now);
    var limit := ClaimSweepLimit(op);
    SweepKeepsInv(db, now, op.target, limit);
    var (next, s) := Sweep(db, now, op.target, limit).value;
    SweepNotConfirmed(db, now, op.target, limit);
    var r := ClaimStep(db, op, now);
    if r.Ok? && r.value.answer.Leased? {
      LeaseSnapshotOnValid(db, r.value.answer.lease);
      assert op.attemptId !in db.attempts by { FencedSameAttempts(db, next, ExpiredRows(db, now, op.target, limit), now); }
    }
  }

  lemma FencedSameAttempts(db: Db, next: Db, ids: seq<string>, now: Time)
    requires Fenced(db, next, ids, now)
    ensures next.attempts.Keys == db.attempts.Keys
  {
  }

  lemma SweepNotConfirmed(db: Db, now: Time, target: Option<string>, limit: Option<nat>)
    requires Inv(db)
    ensures var r := Sweep(db, now, target, limit);
      && r.Ok?
      && (Count(r.value.1) == 0 ==> r.value.0 == db)
      && (Count(r.value.1) > 0 ==> !SweepMatches(db, db, r.value.1, now))
  {
    hide Inv, Sweep, Advances, AfterFailure, JobOk, History, ExpiredRows;
    SweepKeepsInv(db, now, target, limit);
    var (next, s) := Sweep(db, now, target, limit).value;
    var ids := ExpiredRows(db, now, target, limit);
    if Count(s) == 0 {
      assert next.jobs == db.jobs && next.attempts == db.attempts;
    } else {
      var id := ids[0];
      assert id in ids;
      assert id in s.requeued || id in s.exhausted;
      assert db.jobs[id].status.Running?;
    }
  }

  /** Losing the whole transaction is never mistaken for success: read-back confirms only tables that need no change. */
  lemma LostStepIsNotConfirmed(db: Db, op: Op, now: Time)
    requires Inv(db) && ArgumentsOk(op)
    ensures var r := Step(db, op, now);
      r.Ok? && ReadBack(db, op, r.value.answer, r.value.receipt).Some? ==> r.value.db == db
  {
    hide Inv, Sweep, ClaimStep, HeartbeatStep, LeaseSnapshot, SweepMatches, JobOk, ExistingMatches;
    match op
    case Enqueue(s) =>
    case Claim(_, _, _, _, _) => ClaimNotConfirmed(db, op, now);
    case Heartbeat(l, length) => HeartbeatNotConfirmed(db, l, length, now);
    case Complete(_, _) => SettlingNotConfirmed(db, op, now);
    case Fail(_, _, _) => SettlingNotConfirmed(db, op, now);
    case Recover(limit) => SweepNotConfirmed(db, now, None, Some(limit));
  }

  /** `_recovered_commit_matches` reads a job and then its attempts without one snapshot: the later reads decide alike. */
  lemma TornReadBackIsHarmless(early: Db, later: Db, id: string, at: Time, requeued: bool)
    requires Inv(early) && Inv(later) && Advances(early, later)
    requires SweptRow(early, later, id, at, requeued)
    ensures SweptRow(later, later, id, at, requeued) && later.jobs[id] == early.jobs[id]
  {
    hide Inv, History, JobOk;
    JobRows(early, id);
    assert JobAdvances(early.jobs[id], later.jobs[id]);
  }

  lemma JobRows(db: Db, k: string)
    requires Inv(db) && k in db.jobs
    ensures db.jobs[k].id == k && JobOk(db.jobs[k]) && FirstAttemptOnly(db.jobs[k])
    ensures !PhaseOf(db.jobs[k]).Unclaimed? ==> db.jobs[k].attemptsStarted == 1
    ensures PhaseOf(db.jobs[k]).Unclaimed? ==> db.jobs[k].lastError.None?
  {
    hide AllDistinct, OneAttemptEach, AttemptsOk;
  }
}
