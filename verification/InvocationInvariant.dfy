/** What every step keeps: the tables satisfy all validators, and rows only ever advance. */
module InvocationInvariant {
  import opened Common
  import opened SortKeys
  import opened InvocationText
  import opened InvocationRows
  import opened InvocationSteps

  // ----- The invariant -----

  predicate FirstAttemptOnly(j: Job) {
    && j.epoch == j.attemptsStarted <= 1
    && !j.status.Canceled?
    && (j.attemptsStarted == 0 ==> j.status.Queued? && j.resultRef.None? && j.lastError.None?)
  }

  /** The schema's uniqueness constraints on two different jobs. */
  predicate Distinct(j: Job, m: Job) {
    && !(j.work.sessionId == m.work.sessionId && j.work.taskId == m.work.taskId)
    && !(j.work.sessionId == m.work.sessionId && j.work.idempotencyKey == m.work.idempotencyKey)
    && (j.tokenDigest.Some? ==> j.tokenDigest != m.tokenDigest)
  }

  predicate Paired(j: Job, a: Attempt) {
    AttemptOk(a) && SnapshotOk(j, Some(a), 1)
  }

  predicate AttemptFor(db: Db, a: string, k: string) {
    a in db.attempts && db.attempts[a].jobId == k
  }

  ghost predicate JobsOk(db: Db) {
    forall k | k in db.jobs :: db.jobs[k].id == k && JobOk(db.jobs[k]) && FirstAttemptOnly(db.jobs[k])
  }

  ghost predicate AttemptsOk(db: Db) {
    forall a | a in db.attempts ::
      && db.attempts[a].id == a && db.attempts[a].jobId in db.jobs
      && db.jobs[db.attempts[a].jobId].attemptsStarted == 1
      && Paired(db.jobs[db.attempts[a].jobId], db.attempts[a])
  }

  /** Every started job has exactly one attempt. */
  ghost predicate OneAttemptEach(db: Db) {
    && (forall k | k in db.jobs && db.jobs[k].attemptsStarted == 1 :: exists a :: AttemptFor(db, a, k))
    && (forall a, b, k | AttemptFor(db, a, k) && AttemptFor(db, b, k) :: a == b)
  }

  ghost predicate AllDistinct(jobs: map<string, Job>) {
    forall k, m | k in jobs && m in jobs && k != m :: Distinct(jobs[k], jobs[m])
  }

  /** Every row passes its validator, every started job has exactly one attempt and they agree with each other. */
  ghost predicate Inv(db: Db) {
    JobsOk(db) && AttemptsOk(db) && OneAttemptEach(db) && AllDistinct(db.jobs)
  }

  // ----- Advancing rows -----

  datatype Phase = Unclaimed | Active | Settled

  function PhaseOf(j: Job): Phase {
    if j.attemptsStarted == 0 then Unclaimed else if j.status.Running? then Active else Settled
  }

  predicate PhaseLeq(p: Phase, q: Phase) {
    p == q || p.Unclaimed? || q.Settled?
  }

  /** Everything the row was enqueued with. */
  predicate SameJob(j: Job, m: Job) {
    && j.id == m.id && j.work == m.work && j.priority == m.priority && j.maxAttempts == m.maxAttempts
    && j.requestedAt == m.requestedAt && j.createdAt == m.createdAt
  }

  predicate JobAdvances(j: Job, m: Job) {
    m == j || (
      && SameJob(j, m)
      && PhaseLeq(PhaseOf(j), PhaseOf(m))
      && !PhaseOf(j).Settled? && !PhaseOf(m).Unclaimed?
      && (PhaseOf(j).Active? && PhaseOf(m).Active? ==>
            && m.owner == j.owner && m.tokenDigest == j.tokenDigest && m.epoch == j.epoch
            && j.expiresAt.Some? && m.expiresAt.Some? && j.expiresAt.value <= m.expiresAt.value))
  }

  /** Everything the attempt was started with. */
  predicate SameStart(a: Attempt, b: Attempt) {
    && a.id == b.id && a.jobId == b.jobId && a.number == b.number && a.epoch == b.epoch
    && a.worker == b.worker && a.tokenDigest == b.tokenDigest && a.startedAt == b.startedAt
  }

  predicate AttemptAdvances(a: Attempt, b: Attempt) {
    && SameStart(a, b)
    && a.heartbeatAt <= b.heartbeatAt && a.expiresAt <= b.expiresAt
    && (!a.status.AttemptRunning? ==> b == a)
  }

  ghost predicate Advances(db: Db, next: Db) {
    && (forall k | k in db.jobs :: k in next.jobs && JobAdvances(db.jobs[k], next.jobs[k]))
    && (forall a | a in db.attempts :: a in next.attempts && AttemptAdvances(db.attempts[a], next.attempts[a]))
  }

  lemma AdvancesIsTransitive(x: Db, y: Db, z: Db)
    requires Advances(x, y) && Advances(y, z)
    ensures Advances(x, z)
  {
    forall k | k in x.jobs ensures k in z.jobs && JobAdvances(x.jobs[k], z.jobs[k]) {
      assert JobAdvances(x.jobs[k], y.jobs[k]) && JobAdvances(y.jobs[k], z.jobs[k]);
    }
    forall a | a in x.attempts ensures a in z.attempts && AttemptAdvances(x.attempts[a], z.attempts[a]) {
      assert AttemptAdvances(x.attempts[a], y.attempts[a]) && AttemptAdvances(y.attempts[a], z.attempts[a]);
    }
  }

  // ----- Three ways to change the tables -----

  lemma DistinctAfterPut(jobs: map<string, Job>, k: string, j: Job)
    requires AllDistinct(jobs)
    requires forall m | m in jobs && m != k :: Distinct(jobs[m], j) && Distinct(j, jobs[m])
    ensures AllDistinct(jobs[k := j])
  {
    hide Distinct;
  }

  lemma OneEachAfterPut(db: Db, k: string, j: Job, a: string, b: Attempt)
    requires OneAttemptEach(db) && b.jobId == k
    requires forall x | AttemptFor(db, x, k) :: x == a
    requires a in db.attempts ==> db.attempts[a].jobId == k
    ensures OneAttemptEach(Put(db, k, j, a, b))
  {
    var next := Put(db, k, j, a, b);
    forall m | m in next.jobs && next.jobs[m].attemptsStarted == 1 ensures exists x :: AttemptFor(next, x, m) {
      if m == k {
        assert AttemptFor(next, a, m);
      } else {
        var x :| AttemptFor(db, x, m);
        assert AttemptFor(next, x, m);
      }
    }
    forall x, y, m | AttemptFor(next, x, m) && AttemptFor(next, y, m) ensures x == y {
      assert m != k ==> AttemptFor(db, x, m) && AttemptFor(db, y, m);
      assert m == k ==> x == a || AttemptFor(db, x, m);
      assert m == k ==> y == a || AttemptFor(db, y, m);
    }
  }

  lemma RowsAfterPut(db: Db, k: string, j: Job, a: string, b: Attempt)
    requires JobsOk(db) && AttemptsOk(db)
    requires forall x | AttemptFor(db, x, k) :: x == a
    requires j.id == k && JobOk(j) && FirstAttemptOnly(j)
    requires j.attemptsStarted == 1 && b.id == a && b.jobId == k && Paired(j, b)
    ensures JobsOk(Put(db, k, j, a, b)) && AttemptsOk(Put(db, k, j, a, b))
  {
    hide JobOk, FirstAttemptOnly, Paired;
    var next := Put(db, k, j, a, b);
    forall x | x in next.attempts && x != a ensures next.attempts[x] == db.attempts[x] && next.attempts[x].jobId != k {
      assert AttemptFor(db, x, db.attempts[x].jobId);
    }
  }

  /** Replacing a job and its attempt. */
  lemma PutKeepsInv(db: Db, k: string, j: Job, a: string, b: Attempt)
    requires Inv(db) && k in db.jobs && AttemptFor(db, a, k)
    requires j.id == k && j.work == db.jobs[k].work && JobOk(j) && FirstAttemptOnly(j)
    requires j.tokenDigest.Some? ==> j.tokenDigest == db.jobs[k].tokenDigest
    requires j.attemptsStarted == 1 && b.id == a && b.jobId == k && Paired(j, b)
    ensures Inv(Put(db, k, j, a, b))
  {
    hide JobOk, FirstAttemptOnly, Paired, JobsOk, AttemptsOk;
    forall m | m in db.jobs && m != k ensures Distinct(db.jobs[m], j) && Distinct(j, db.jobs[m]) {
      assert Distinct(db.jobs[m], db.jobs[k]) && Distinct(db.jobs[k], db.jobs[m]);
    }
    DistinctAfterPut(db.jobs, k, j);
    RowsAfterPut(db, k, j, a, b);
    OneEachAfterPut(db, k, j, a, b);
  }

  /** Starting the first attempt of a job. */
  lemma StartKeepsInv(db: Db, k: string, j: Job, a: string, b: Attempt)
    requires Inv(db) && k in db.jobs && db.jobs[k].attemptsStarted == 0 && a !in db.attempts
    requires j.id == k && j.work == db.jobs[k].work && JobOk(j) && FirstAttemptOnly(j)
    requires j.tokenDigest.Some? && forall m | m in db.jobs :: db.jobs[m].tokenDigest != j.tokenDigest
    requires j.attemptsStarted == 1 && b.id == a && b.jobId == k && Paired(j, b)
    ensures Inv(Put(db, k, j, a, b))
  {
    hide JobOk, FirstAttemptOnly, Paired, JobsOk;
    assert forall x :: !AttemptFor(db, x, k);
    forall m | m in db.jobs && m != k ensures Distinct(db.jobs[m], j) && Distinct(j, db.jobs[m]) {
      assert Distinct(db.jobs[m], db.jobs[k]) && Distinct(db.jobs[k], db.jobs[m]);
    }
    DistinctAfterPut(db.jobs, k, j);
    RowsAfterPut(db, k, j, a, b);
    OneEachAfterPut(db, k, j, a, b);
  }

  /** Adding a job. */
  lemma AddKeepsInv(db: Db, j: Job)
    requires Inv(db) && JobOk(j) && FirstAttemptOnly(j) && j.attemptsStarted == 0 && j.id !in db.jobs
    requires forall k | k in db.jobs :: Distinct(db.jobs[k], j) && Distinct(j, db.jobs[k])
    ensures Inv(db.(jobs := db.jobs[j.id := j]))
    ensures Advances(db, db.(jobs := db.jobs[j.id := j]))
  {
    hide JobOk, FirstAttemptOnly, Paired, Distinct, OneAttemptEach, AllDistinct;
    var next := db.(jobs := db.jobs[j.id := j]);
    DistinctAfterPut(db.jobs, j.id, j);
    AddKeepsAttempts(db, next, j);
  }

  lemma AddKeepsAttempts(db: Db, next: Db, j: Job)
    requires OneAttemptEach(db) && j.attemptsStarted == 0 && next == Db(db.jobs[j.id := j], db.attempts)
    ensures OneAttemptEach(next)
  {
    assert forall x, m :: AttemptFor(db, x, m) <==> AttemptFor(next, x, m);
  }

  // ----- Steps on valid tables -----

  /** A running job has exactly the one owning attempt recovery and lease holders look for. */
  lemma OwnerFound(db: Db, k: string, attemptId: Option<string>) returns (a: string)
    requires Inv(db) && k in db.jobs && db.jobs[k].status.Running?
    ensures AttemptFor(db, a, k) && db.attempts[a].status.AttemptRunning?
    ensures RunningAttempts(db, db.jobs[k], attemptId) == if attemptId.Some? && attemptId.value != a then {} else {a}
    ensures OwningAttempt(db, db.jobs[k], attemptId) ==
            if attemptId.Some? && attemptId.value != a then Raised(Integrity) else Ok(a)
  {
    a :| AttemptFor(db, a, k);
    var rows := RunningAttempts(db, db.jobs[k], attemptId);
    forall x | x in rows ensures x == a {
      assert AttemptFor(db, x, k);
    }
    assert Paired(db.jobs[k], db.attempts[a]);
    if attemptId.Some? && attemptId.value != a {
      assert rows == {};
    } else {
      assert rows == {a};
    }
  }

  lemma PutAdvances(db: Db, k: string, m: Job, a: string, b: Attempt)
    requires Inv(db) && k in db.jobs && AttemptFor(db, a, k)
    requires JobAdvances(db.jobs[k], m) && AttemptAdvances(db.attempts[a], b)
    requires JobOk(m) && FirstAttemptOnly(m) && m.attemptsStarted == 1 && Paired(m, b)
    requires m.tokenDigest.Some? ==> m.tokenDigest == db.jobs[k].tokenDigest
    ensures Inv(Put(db, k, m, a, b)) && Advances(db, Put(db, k, m, a, b))
  {
    hide JobOk, FirstAttemptOnly, Paired, AllDistinct, OneAttemptEach, PhaseOf, PhaseLeq;
    PutKeepsInv(db, k, m, a, b);
  }

  /** A failed or expired attempt settles its job. */
  lemma FailureRows(j: Job, a: Attempt, now: Time, retry: Time, reason: string, status: AttemptStatus)
    requires JobOk(j) && FirstAttemptOnly(j) && Paired(j, a) && j.status.Running?
    requires ErrorOk(Some(reason))
    requires || (status.AttemptExpired? && j.expiresAt.value <= now)
             || (status.AttemptFailed? && j.updatedAt <= now < j.expiresAt.value)
    ensures var m := AfterFailure(j, now, retry, reason);
            var b := a.(status := status, finishedAt := Some(now), error := Some(reason));
      && JobOk(m) && FirstAttemptOnly(m) && m.attemptsStarted == 1 && Paired(m, b)
      && JobAdvances(j, m) && AttemptAdvances(a, b) && PhaseOf(m).Settled? && m.tokenDigest.None?
  {
    hide ErrorOk, Acceptable;
  }

  lemma SuccessRows(j: Job, a: Attempt, now: Time, result: Option<string>)
    requires JobOk(j) && FirstAttemptOnly(j) && Paired(j, a) && j.status.Running?
    requires AcceptableOption(result, MAX_REFERENCE_BYTES)
    requires j.updatedAt <= now < j.expiresAt.value
    ensures var m := ClearLease(j).(status := Succeeded, resultRef := result, updatedAt := now, finishedAt := Some(now));
            var b := a.(status := AttemptSucceeded, finishedAt := Some(now), resultRef := result);
      && JobOk(m) && FirstAttemptOnly(m) && m.attemptsStarted == 1 && Paired(m, b)
      && JobAdvances(j, m) && AttemptAdvances(a, b) && PhaseOf(m).Settled? && m.tokenDigest.None?
  {
    hide ErrorOk, Acceptable;
  }

  lemma BeatRows(j: Job, a: Attempt, now: Time, deadline: Time)
    requires JobOk(j) && FirstAttemptOnly(j) && Paired(j, a) && j.status.Running?
    requires j.updatedAt <= now < deadline && j.expiresAt.value <= deadline
    ensures var m := j.(heartbeatAt := Some(now), expiresAt := Some(deadline), updatedAt := now);
            var b := a.(heartbeatAt := now, expiresAt := deadline);
      && JobOk(m) && FirstAttemptOnly(m) && m.attemptsStarted == 1 && Paired(m, b)
      && JobAdvances(j, m) && AttemptAdvances(a, b)
  {
    hide ErrorOk, Acceptable;
  }

  lemma ClaimRows(j: Job, worker: string, attemptId: string, token: string, now: Time, deadline: Time)
    requires JobOk(j) && FirstAttemptOnly(j) && j.attemptsStarted == 0
    requires Acceptable(worker, MAX_IDENTITY_BYTES) && Acceptable(attemptId, MAX_IDENTITY_BYTES)
    requires j.updatedAt <= now < deadline
    ensures var m := ClaimedJob(j, worker, token, now, deadline);
            var b := FirstAttempt(j, worker, attemptId, token, now, deadline);
      && JobOk(m) && FirstAttemptOnly(m) && m.attemptsStarted == 1 && Paired(m, b)
      && JobAdvances(j, m) && PhaseOf(m).Active?
      && LeaseBinds(NewLease(j, worker, attemptId, token, now, deadline), m, b)
  {
    hide ErrorOk, Acceptable;
  }

  /** What fencing a list of expired leases does to every row, and to no other row. */
  ghost predicate Fenced(db: Db, next: Db, ids: seq<string>, now: Time) {
    && next.jobs.Keys == db.jobs.Keys && next.attempts.Keys == db.attempts.Keys
    && (forall k | k in db.jobs ::
          next.jobs[k] == if k in ids then AfterFailure(db.jobs[k], now, now, EXPIRY_REASON) else db.jobs[k])
    && (forall a | a in db.attempts ::
          next.attempts[a] == if db.attempts[a].jobId in ids then AfterExpiry(db.attempts[a], now) else db.attempts[a])
  }

  /** How a sweep reports the fenced leases: spent budgets are exhausted, the others requeued. */
  ghost predicate SplitByBudget(db: Db, ids: seq<string>, s: Summary) {
    && (forall id | id in ids || id in s.exhausted || id in s.requeued :: id in db.jobs)
    && (forall id :: id in s.exhausted <==> id in ids && db.jobs[id].attemptsStarted >= db.jobs[id].maxAttempts)
    && (forall id :: id in s.requeued <==> id in ids && db.jobs[id].attemptsStarted < db.jobs[id].maxAttempts)
    && Count(s) == |ids|
  }

  /** Recovery needs no clock check: a running lease always expires after its last update. */
  lemma FenceKeepsInv(db: Db, id: string, now: Time)
    requires Inv(db) && id in db.jobs && IsExpired(db.jobs[id], now, None)
    ensures FenceOne(db, id, now).Ok?
    ensures var next := FenceOne(db, id, now).value; Inv(next) && Advances(db, next) && Fenced(db, next, [id], now)
  {
    hide JobOk, FirstAttemptOnly, Paired, OwningAttempt, AllDistinct, AfterFailure, JobAdvances, AttemptAdvances, Advances;
    var a := OwnerFound(db, id, None);
    assert db.jobs[id].id == id && Paired(db.jobs[id], db.attempts[a]);
    FailureRows(db.jobs[id], db.attempts[a], now, now, EXPIRY_REASON, AttemptExpired);
    PutAdvances(db, id, AfterFailure(db.jobs[id], now, now, EXPIRY_REASON), a, AfterExpiry(db.attempts[a], now));
    forall x | x in db.attempts && db.attempts[x].jobId == id ensures x == a {
      SameAttempt(db, x, a, id);
    }
  }

  lemma SameAttempt(db: Db, a: string, b: string, k: string)
    requires OneAttemptEach(db) && AttemptFor(db, a, k) && AttemptFor(db, b, k)
    ensures a == b
  {
  }

  // ----- Sweeps -----

  predicate Repetitionless(ids: seq<string>) {
    forall i, j | 0 <= i < j < |ids| :: ids[i] != ids[j]
  }

  /** The recovery loop fences exactly the listed leases. */
  lemma {:induction false} FenceAllKeepsInv(db: Db, ids: seq<string>, now: Time)
    requires Inv(db) && Repetitionless(ids)
    requires forall id | id in ids :: id in db.jobs && IsExpired(db.jobs[id], now, None)
    ensures var r := FenceAll(db, ids, now);
      && r.Ok? && Inv(r.value.0) && Advances(db, r.value.0)
      && Fenced(db, r.value.0, ids, now) && SplitByBudget(db, ids, r.value.1)
    decreases |ids|
  {
    hide Inv, AfterFailure, AfterExpiry, FenceOne, Advances, Fenced, SplitByBudget, IsExpired;
    if ids == [] {
      StandingStill(db);
      FencingNothing(db, now);
    } else {
      var last := |ids| - 1;
      var front, id := ids[..last], ids[last];
      assert ids == front + [id];
      FenceAllKeepsInv(db, front, now);
      var (mid, s) := FenceAll(db, front, now).value;
      FencedLeavesOthers(db, mid, front, id, now);
      FenceKeepsInv(mid, id, now);
      var next := FenceOne(mid, id, now).value;
      AdvancesIsTransitive(db, mid, next);
      FencedInTurn(db, mid, next, front, id, now);
      SplitInTurn(db, front, id, s);
    }
  }

  lemma FencingNothing(db: Db, now: Time)
    ensures Fenced(db, db, [], now) && SplitByBudget(db, [], Summary([], []))
  {
  }

  lemma FencedLeavesOthers(db: Db, next: Db, ids: seq<string>, id: string, now: Time)
    requires Fenced(db, next, ids, now) && id in db.jobs && id !in ids
    ensures id in next.jobs && next.jobs[id] == db.jobs[id]
  {
  }

  lemma FencedInTurn(db: Db, mid: Db, next: Db, front: seq<string>, id: string, now: Time)
    requires Fenced(db, mid, front, now) && Fenced(mid, next, [id], now) && id !in front
    requires Advances(db, mid)
    ensures Fenced(db, next, front + [id], now)
  {
    hide AfterFailure, AfterExpiry, JobAdvances;
  }

  lemma SplitInTurn(db: Db, front: seq<string>, id: string, s: Summary)
    requires SplitByBudget(db, front, s) && id in db.jobs
    ensures SplitByBudget(db, front + [id],
              if db.jobs[id].attemptsStarted >= db.jobs[id].maxAttempts then s.(exhausted := s.exhausted + [id])
              else s.(requeued := s.requeued + [id]))
  {
  }

  lemma StandingStill(db: Db)
    ensures Advances(db, db)
  {
  }

  function ExpiryKey(db: Db, id: string): SortKey
    requires id in db.jobs && db.jobs[id].expiresAt.Some?
  {
    SortKey(db.jobs[id].expiresAt.value, 0, 0, id)
  }

  /** A sweep with limit k takes exactly the first k expired leases by (deadline, id). */
  lemma ExpiredRowsAreFirst(db: Db, now: Time, target: Option<string>, limit: Option<nat>)
    ensures var ids := ExpiredRows(db, now, target, limit);
      && Repetitionless(ids)
      && (forall i, j | 0 <= i < j < |ids| :: Precedes(ExpiryKey(db, ids[i]), ExpiryKey(db, ids[j])))
      && (forall k | k in db.jobs && IsExpired(db.jobs[k], now, target) && k !in ids ::
            && limit.Some? && |ids| == limit.value
            && forall i | 0 <= i < |ids| :: Precedes(ExpiryKey(db, ids[i]), ExpiryKey(db, k)))
      && (limit.Some? ==> |ids| <= limit.value)
  {
    hide Precedes, IsExpired, Ordered, ExpiredKeys;
    var keys := Ordered(ExpiredKeys(db, now, target));
    var ids := ExpiredRows(db, now, target, limit);
    OrderedIsIncreasing(ExpiredKeys(db, now, target));
    forall i | 0 <= i < |ids|
      ensures i < |keys| && ids[i] in db.jobs && db.jobs[ids[i]].expiresAt.Some? && keys[i] == ExpiryKey(db, ids[i]) {
      ExpiredRowKey(db, now, target, limit, i);
    }
    forall i, j | 0 <= i < j < |ids| ensures ids[i] != ids[j] {
      PrecedesIsStrictTotal(keys[i], keys[j]);
    }
    forall k | k in db.jobs && IsExpired(db.jobs[k], now, target) && k !in ids
      ensures limit.Some? && |ids| == limit.value
      ensures db.jobs[k].expiresAt.Some?
      ensures forall i | 0 <= i < |ids| :: Precedes(ExpiryKey(db, ids[i]), ExpiryKey(db, k))
    {
      ExpiredHasKey(db, now, target, k);
      var n :| 0 <= n < |keys| && keys[n] == ExpiryKey(db, k);
    }
  }

  lemma ExpiredRowKey(db: Db, now: Time, target: Option<string>, limit: Option<nat>, i: nat)
    requires i < |ExpiredRows(db, now, target, limit)|
    ensures var keys := Ordered(ExpiredKeys(db, now, target)); var id := ExpiredRows(db, now, target, limit)[i];
      i < |keys| && id in db.jobs && db.jobs[id].expiresAt.Some? && keys[i] == ExpiryKey(db, id)
  {
    hide Precedes, IsExpired;
    var keys := Ordered(ExpiredKeys(db, now, target));
    assert keys[i] in keys;
    KeyOfExpired(db, now, target, keys[i]);
  }

  lemma KeyOfExpired(db: Db, now: Time, target: Option<string>, key: SortKey)
    requires key in ExpiredKeys(db, now, target)
    ensures key.id in db.jobs && db.jobs[key.id].expiresAt.Some? && key == ExpiryKey(db, key.id)
  {
  }

  lemma ExpiredHasKey(db: Db, now: Time, target: Option<string>, k: string)
    requires k in db.jobs && IsExpired(db.jobs[k], now, target)
    ensures db.jobs[k].expiresAt.Some? && ExpiryKey(db, k) in Ordered(ExpiredKeys(db, now, target))
  {
    hide Precedes;
    assert ExpiryKey(db, k) in ExpiredKeys(db, now, target);
  }

  lemma SweepKeepsInv(db: Db, now: Time, target: Option<string>, limit: Option<nat>)
    requires Inv(db)
    ensures var r := Sweep(db, now, target, limit); var ids := ExpiredRows(db, now, target, limit);
      && r.Ok? && Inv(r.value.0) && Advances(db, r.value.0)
      && Fenced(db, r.value.0, ids, now) && SplitByBudget(db, ids, r.value.1)
  {
    hide Inv, AfterFailure, FenceOne, Advances, ExpiredRows, Fenced, SplitByBudget;
    ExpiredRowsAreFirst(db, now, target, limit);
    FenceAllKeepsInv(db, ExpiredRows(db, now, target, limit), now);
  }

  // ----- Claims -----

  /** On valid tables the candidate is the least never-attempted available job, and only the clock can refuse it. */
  lemma CandidateIsLeast(db: Db, now: Time, target: Option<string>)
    requires Inv(db)
    ensures var keys := CandidateKeys(db, now, target);
            var r := SelectCandidate(db, now, target);
      if keys == {} then r == Ok(None) else
      var id := Least(keys).id;
      && id in db.jobs && IsCandidate(db.jobs[id], now, target) && ClaimKey(db.jobs[id], id) == Least(keys)
      && r == if now < db.jobs[id].updatedAt then Raised(ClockRegression) else Ok(Some(id))
  {
    hide Inv, JobOk, IsCandidate, Precedes;
    var keys := CandidateKeys(db, now, target);
    forall k | k in db.jobs && IsCandidate(db.jobs[k], now, target) ensures Pristine(db, k) {
      CandidateRow(db, k, now, target);
    }
    if keys != {} {
      var id := Least(keys).id;
      assert Pristine(db, id);
      var pristine := set k | k in db.jobs && IsCandidate(db.jobs[k], now, target)
                           && db.jobs[k].epoch == 0 && db.jobs[k].resultRef.None? && db.jobs[k].lastError.None?
                        :: ClaimKey(db.jobs[k], k);
      assert pristine == keys;
    }
  }

  /** What makes a never-attempted job fit for its first claim. */
  predicate Pristine(db: Db, k: string) {
    && k in db.jobs && db.jobs[k].id == k && JobOk(db.jobs[k]) && AttemptsOf(db, k) == {}
    && db.jobs[k].attemptsStarted == db.jobs[k].epoch == 0 && db.jobs[k].resultRef.None? && db.jobs[k].lastError.None?
    && db.jobs[k].createdAt <= db.jobs[k].updatedAt && 1 <= db.jobs[k].maxAttempts
  }

  lemma CandidateRow(db: Db, k: string, now: Time, target: Option<string>)
    requires Inv(db) && k in db.jobs && IsCandidate(db.jobs[k], now, target)
    ensures Pristine(db, k)
  {
    hide Paired, AllDistinct, OneAttemptEach, Acceptable, ErrorOk;
    assert JobOk(db.jobs[k]) && FirstAttemptOnly(db.jobs[k]) && db.jobs[k].id == k;
    assert AttemptsOf(db, k) == {};
  }

  /** A claim on the selected row starts its first attempt and hands out a lease bound to it. */
  lemma ClaimRowKeepsInv(db: Db, id: string, op: Op, now: Time, deadline: Time)
    requires Inv(db) && op.Claim? && ArgumentsOk(op)
    requires id in db.jobs && IsCandidate(db.jobs[id], now, None) && db.jobs[id].updatedAt <= now < deadline
    ensures var r := ClaimRow(db, id, op, now, deadline);
      if TokenInUse(db, op.token) || op.attemptId in db.attempts then r == Raised(Internal) else
      && r.Ok? && r.value.1 == NewLease(db.jobs[id], op.worker, op.attemptId, op.token, now, deadline)
      && var next := r.value.0;
      && next == Put(db, id, ClaimedJob(db.jobs[id], op.worker, op.token, now, deadline), op.attemptId,
                     FirstAttempt(db.jobs[id], op.worker, op.attemptId, op.token, now, deadline))
      && Inv(next) && Advances(db, next) && PhaseOf(next.jobs[id]).Active?
      && LeaseBinds(r.value.1, next.jobs[id], next.attempts[op.attemptId])
  {
    hide Paired, AllDistinct, OneAttemptEach, AttemptsOk, JobOk, FirstAttemptOnly, SelectCandidate;
    var j := db.jobs[id];
    assert JobOk(j) && FirstAttemptOnly(j) && j.id == id;
    CandidateIsLeast(db, now, Some(id));
    assert ClaimKey(j, id) in CandidateKeys(db, now, Some(id));
    if !TokenInUse(db, op.token) && op.attemptId !in db.attempts {
      ClaimRows(j, op.worker, op.attemptId, op.token, now, deadline);
      StartKeepsInv(db, id, ClaimedJob(j, op.worker, op.token, now, deadline),
                    op.attemptId, FirstAttempt(j, op.worker, op.attemptId, op.token, now, deadline));
    }
  }

  // ----- Lease holders -----

  /** The lease names the attempt that owns the job, with every identity field intact. */
  predicate Bound(db: Db, l: Lease) {
    && l.jobId in db.jobs && AttemptFor(db, l.attemptId, l.jobId)
    && LeaseBinds(l, db.jobs[l.jobId], db.attempts[l.attemptId])
  }

  /** On valid tables a lease is stale, altered, ahead of the clock, or the owner of its attempt. */
  lemma OwnedOnValid(db: Db, l: Lease, now: Time)
    requires Inv(db)
    ensures Owned(db, l, now) ==
      if l.jobId !in db.jobs || !HoldsLease(db.jobs[l.jobId], l, now) then Ok(None)
      else if !Bound(db, l) then Raised(Integrity)
      else if now < db.jobs[l.jobId].updatedAt then Raised(ClockRegression)
      else Ok(Some(l.attemptId))
    ensures l.jobId in db.jobs && HoldsLease(db.jobs[l.jobId], l, now) && Bound(db, l) ==>
      && JobOk(db.jobs[l.jobId]) && FirstAttemptOnly(db.jobs[l.jobId])
      && AttemptFor(db, l.attemptId, l.jobId) && Paired(db.jobs[l.jobId], db.attempts[l.attemptId])
  {
    hide AllDistinct, OneAttemptEach, OwningAttempt;
    if l.jobId in db.jobs && HoldsLease(db.jobs[l.jobId], l, now) {
      var a := OwnerFound(db, l.jobId, Some(l.attemptId));
      assert JobOk(db.jobs[l.jobId]) && FirstAttemptOnly(db.jobs[l.jobId]) && db.jobs[l.jobId].id == l.jobId;
      assert Paired(db.jobs[l.jobId], db.attempts[a]) && db.attempts[a].id == a;
      if l.attemptId != a {
        assert !Bound(db, l) by {
          if Bound(db, l) {
            assert AttemptFor(db, l.attemptId, l.jobId) && AttemptFor(db, a, l.jobId);
            SameAttempt(db, l.attemptId, a, l.jobId);
          }
        }
      }
    }
  }

  lemma HeartbeatKeepsInv(db: Db, l: Lease, length: int, now: Time)
    requires Inv(db)
    ensures var r := HeartbeatStep(db, l, length, now); r.Ok? ==> Inv(r.value.db) && Advances(db, r.value.db)
  {
    hide JobOk, FirstAttemptOnly, Paired, Inv, Advances, Owned, Bound;
    OwnedOnValid(db, l, now);
    StandingStill(db);
    var r := HeartbeatStep(db, l, length, now);
    if r.Ok? && r.value.receipt.ExpectBeat? {
      var j, a := db.jobs[l.jobId], db.attempts[l.attemptId];
      var deadline := r.value.receipt.deadline;
      BeatRows(j, a, now, deadline);
      PutAdvances(db, l.jobId, j.(heartbeatAt := Some(now), expiresAt := Some(deadline), updatedAt := now),
                  l.attemptId, a.(heartbeatAt := now, expiresAt := deadline));
    }
  }

  lemma CompleteKeepsInv(db: Db, l: Lease, result: Option<string>, now: Time)
    requires Inv(db) && AcceptableOption(result, MAX_REFERENCE_BYTES)
    ensures var r := CompleteStep(db, l, result, now); r.Ok? ==> Inv(r.value.db) && Advances(db, r.value.db)
  {
    hide JobOk, FirstAttemptOnly, Paired, Inv, Advances, Owned, Bound;
    OwnedOnValid(db, l, now);
    StandingStill(db);
    var r := CompleteStep(db, l, result, now);
    if r.Ok? && r.value.receipt.ExpectSuccess? {
      var j, a := db.jobs[l.jobId], db.attempts[l.attemptId];
      SuccessRows(j, a, now, result);
      PutAdvances(db, l.jobId,
                  ClearLease(j).(status := Succeeded, resultRef := result, updatedAt := now, finishedAt := Some(now)),
                  l.attemptId, a.(status := AttemptSucceeded, finishedAt := Some(now), resultRef := result));
    }
  }

  lemma FailKeepsInv(db: Db, l: Lease, error: string, retryAt: Option<Time>, now: Time)
    requires Inv(db) && Acceptable(error, MAX_ERROR_BYTES)
    ensures var r := FailStep(db, l, error, retryAt, now); r.Ok? ==> Inv(r.value.db) && Advances(db, r.value.db)
  {
    hide JobOk, FirstAttemptOnly, Paired, Inv, Advances, Owned, Bound, AfterFailure, StoredError;
    OwnedOnValid(db, l, now);
    StandingStill(db);
    StoredErrorIsPersistable(error);
    var r := FailStep(db, l, error, retryAt, now);
    if r.Ok? && r.value.receipt.ExpectFailure? {
      var j, a := db.jobs[l.jobId], db.attempts[l.attemptId];
      var retry := r.value.receipt.retry;
      FailureRows(j, a, now, retry, StoredError(error), AttemptFailed);
      PutAdvances(db, l.jobId, AfterFailure(j, now, retry, StoredError(error)), l.attemptId,
                  a.(status := AttemptFailed, finishedAt := Some(now), error := Some(StoredError(error))));
    }
  }

  lemma EnqueueKeepsInv(db: Db, s: JobSpec, now: Time)
    requires Inv(db) && SpecOk(s)
    ensures var r := EnqueueStep(db, s, now);
      && (r.Ok? ==>
            && Inv(r.value.db) && Advances(db, r.value.db) && r.value.answer.Enqueued?
            && r.value.answer.job.id in r.value.db.jobs && r.value.db.jobs[r.value.answer.job.id] == r.value.answer.job
            && Collides(r.value.answer.job, s) && ExistingMatches(r.value.answer.job, s))
      && (r.Raised? ==> r.fault.Conflict? && Colliding(db, s) != {})
  {
    hide Acceptable, Paired, OneAttemptEach, AttemptsOk;
    StandingStill(db);
    var rows := Colliding(db, s);
    if rows == {} {
      assert forall k | k in db.jobs :: k !in rows && !Collides(db.jobs[k], s);
      AddKeepsInv(db, NewJob(s, now));
    } else if |rows| == 1 {
      assert Only(rows) in rows;
    }
  }

  /** Recovery never creates or removes a first-claim candidate. */
  lemma SweepKeepsCandidates(db: Db, next: Db, ids: seq<string>, now: Time, target: Option<string>)
    requires Inv(db) && Fenced(db, next, ids, now)
    requires forall id | id in ids :: id in db.jobs && IsExpired(db.jobs[id], now, None)
    ensures CandidateKeys(next, now, target) == CandidateKeys(db, now, target)
    ensures forall k | k in db.jobs && IsCandidate(db.jobs[k], now, target) :: next.jobs[k] == db.jobs[k]
  {
    hide OneAttemptEach, AllDistinct, AttemptsOk, Acceptable, ErrorOk;
    forall k | k in db.jobs
      ensures IsCandidate(next.jobs[k], now, target) == IsCandidate(db.jobs[k], now, target)
      ensures IsCandidate(db.jobs[k], now, target) ==> next.jobs[k] == db.jobs[k]
    {
      assert JobOk(db.jobs[k]) && FirstAttemptOnly(db.jobs[k]);
    }
  }

  function ClaimSweepLimit(op: Op): Option<nat>
    requires op.Claim?
  {
    if op.target.Some? then None else Some(CLAIM_SWEEP_LIMIT)
  }

  /** What a claim does to the least candidate, given the tables a sweep left. */
  ghost function ClaimOf(swept: Db, id: string, op: Op, now: Time, deadline: Time): Effect
    requires op.Claim? && id in swept.jobs
  {
    var lease := NewLease(swept.jobs[id], op.worker, op.attemptId, op.token, now, deadline);
    Effect(Put(swept, id, ClaimedJob(swept.jobs[id], op.worker, op.token, now, deadline),
               op.attemptId, FirstAttempt(swept.jobs[id], op.worker, op.attemptId, op.token, now, deadline)),
           Leased(lease), ExpectLease(lease))
  }

  /** The whole outcome of a claim on valid tables, in terms of the candidates it started from. */
  ghost predicate ClaimExplained(db: Db, op: Op, now: Time, swept: Db, summary: Summary, r: Outcome<Effect>)
    requires op.Claim?
  {
    var keys := CandidateKeys(db, now, op.target);
    var deadline := Deadline(now, op.length);
    if deadline.None? then r == Raised(BadValue)
    else if keys == {} then
      r == Ok(Effect(swept, NoLease, if Count(summary) > 0 then ExpectSweep(summary, now) else NothingWritten))
    else
      var id := Least(keys).id;
      && id in db.jobs && IsCandidate(db.jobs[id], now, op.target)
      && id in swept.jobs && swept.jobs[id] == db.jobs[id]
      && r == if now < db.jobs[id].updatedAt then Raised(ClockRegression)
              else if TokenInUse(swept, op.token) || op.attemptId in swept.attempts then Raised(Internal)
              else Ok(ClaimOf(swept, id, op, now, deadline.value))
  }

  lemma ClaimOnValid(db: Db, op: Op, now: Time)
    requires Inv(db) && op.Claim? && ArgumentsOk(op)
    ensures var swept := Sweep(db, now, op.target, ClaimSweepLimit(op));
            var r := ClaimStep(db, op, now);
      && swept.Ok? && ClaimExplained(db, op, now, swept.value.0, swept.value.1, r)
      && (r.Ok? ==> Inv(r.value.db) && Advances(db, r.value.db))
      && (r.Ok? && r.value.answer.Leased? ==> Bound(r.value.db, r.value.answer.lease))
  {
    hide Inv, Advances, Sweep, SelectCandidate, ClaimRow, CandidateKeys, SplitByBudget, TokenInUse, Precedes, AfterFailure,
         AfterExpiry, ArgumentsOk, IsCandidate, LeaseBinds, PhaseOf, ClaimedJob, FirstAttempt, Put, Fenced, IsLeast, ClaimKey;
    SweepKeepsInv(db, now, op.target, ClaimSweepLimit(op));
    var (mid, summary) := Sweep(db, now, op.target, ClaimSweepLimit(op)).value;
    var ids := ExpiredRows(db, now, op.target, ClaimSweepLimit(op));
    if Deadline(now, op.length).Some? {
      SweepKeepsCandidates(db, mid, ids, now, op.target);
      CandidateIsLeast(mid, now, op.target);
      if CandidateKeys(db, now, op.target) != {} {
        var id := Least(CandidateKeys(db, now, op.target)).id;
        LeastCandidate(db, now, op.target);
        assert mid.jobs[id] == db.jobs[id];
        CandidateOfAny(mid.jobs[id], now, op.target);
        if mid.jobs[id].updatedAt <= now {
          ClaimRowKeepsInv(mid, id, op, now, Deadline(now, op.length).value);
          ClaimIsBound(mid, id, op, now, Deadline(now, op.length).value);
          if ClaimStep(db, op, now).Ok? {
            AdvancesIsTransitive(db, mid, ClaimStep(db, op, now).value.db);
          }
        }
      }
    }
  }

  lemma LeastCandidate(db: Db, now: Time, target: Option<string>)
    requires Inv(db) && CandidateKeys(db, now, target) != {}
    ensures var id := Least(CandidateKeys(db, now, target)).id;
      id in db.jobs && IsCandidate(db.jobs[id], now, target) && db.jobs[id].id == id
  {
    hide AttemptsOk, OneAttemptEach, AllDistinct, JobOk, FirstAttemptOnly, Precedes;
  }

  lemma ClaimIsBound(db: Db, id: string, op: Op, now: Time, deadline: Time)
    requires op.Claim? && id in db.jobs && db.jobs[id].id == id
    ensures var e := ClaimOf(db, id, op, now, deadline); Bound(e.db, e.answer.lease)
  {
  }

  lemma CandidateOfAny(j: Job, now: Time, target: Option<string>)
    requires IsCandidate(j, now, target)
    ensures IsCandidate(j, now, None)
  {
  }

  /** Every operation keeps every row valid and only ever advances rows. */
  lemma StepKeepsInv(db: Db, op: Op, now: Time)
    requires Inv(db) && ArgumentsOk(op)
    ensures var r := Step(db, op, now); r.Ok? ==> Inv(r.value.db) && Advances(db, r.value.db)
  {
    hide Inv, Advances, Sweep, EnqueueStep, ClaimStep, HeartbeatStep, CompleteStep, FailStep;
    match op
    case Enqueue(s) => EnqueueKeepsInv(db, s, now);
    case Claim(_, _, _, _, _) => ClaimOnValid(db, op, now);
    case Heartbeat(l, length) => HeartbeatKeepsInv(db, l, length, now);
    case Complete(l, result) => CompleteKeepsInv(db, l, result, now);
    case Fail(l, error, retryAt) => FailKeepsInv(db, l, error, retryAt, now);
    case Recover(limit) => SweepKeepsInv(db, now, None, Some(limit));
  }
}
