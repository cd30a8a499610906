/** What each operation does to the rows, column by column, in every reachable database. */
module InvocationOperations {
  import opened Common
  import opened SortKeys
  import opened InvocationText
  import opened InvocationRows
  import opened InvocationSteps
  import opened InvocationInvariant
  import opened InvocationReadBack
  import opened InvocationWorld
  import opened InvocationFencing
  import opened InvocationSelection
  import opened InvocationTheorems

  // ----- Claims -----

  /** ORDER BY priority DESC, available_at, created_at, invocation_id. */
  predicate MoreUrgent(j: Job, m: Job) {
    || j.priority > m.priority
    || (j.priority == m.priority && j.availableAt < m.availableAt)
    || (j.priority == m.priority && j.availableAt == m.availableAt && j.createdAt < m.createdAt)
    || (j.priority == m.priority && j.availableAt == m.availableAt && j.createdAt == m.createdAt && Before(j.id, m.id))
  }

  /** A claim that leases takes a queued, never attempted, available job, its target if it names one, and every other such job is
      less urgent; it answers none exactly when there is no such job. */
  lemma ClaimsTakeTheMostUrgent(events: seq<Event>, op: Op, now: Time)
    requires op.Claim?
    ensures ArgumentsOk(op) ==>
      var db := Reached(events).db; var r := Step(db, op, now);
      && (r.Ok? && r.value.answer.Leased? ==>
            var id := r.value.answer.lease.jobId;
            && id in db.jobs && db.jobs[id].status.Queued? && db.jobs[id].attemptsStarted == 0 && db.jobs[id].availableAt <= now
            && (op.target.Some? ==> id == op.target.value)
            && forall k | k in db.jobs && k != id && db.jobs[k].status.Queued? && db.jobs[k].attemptsStarted == 0
                          && db.jobs[k].availableAt <= now && (op.target.Some? ==> k == op.target.value) ::
                 MoreUrgent(db.jobs[id], db.jobs[k]))
      && (r.Ok? && r.value.answer.NoLease? <==>
            && 0 < op.length && now + op.length <= MAX_TIME
            && forall k | k in db.jobs ::
                 !(db.jobs[k].status.Queued? && db.jobs[k].attemptsStarted == 0 && db.jobs[k].availableAt <= now
                   && (op.target.Some? ==> k == op.target.value)))
  {
    hide Run, Inv, Step, ArgumentsOk, MoreUrgent, Precedes, NamesClash, NewLease;
    var db := Reached(events).db;
    ReachedIsOk(events);
    if ArgumentsOk(op) {
      FaultsExplained(db, op, now);
      forall k | k in db.jobs ensures db.jobs[k].id == k {
        JobRows(db, k);
      }
      if Deadline(now, op.length).Some? {
        ClaimTakesTheFirst(db, op, now);
        forall j: Job, m: Job ensures Precedes(ClaimKey(j, j.id), ClaimKey(m, m.id)) ==> MoreUrgent(j, m) {
          UrgencyIsTheKey(j, m);
        }
      }
    }
  }

  lemma UrgencyIsTheKey(j: Job, m: Job)
    ensures Precedes(ClaimKey(j, j.id), ClaimKey(m, m.id)) <==> MoreUrgent(j, m)
  {
  }

  /** A fenced row: the expired lease is cleared, and the job queued again or failed by its budget. */
  ghost predicate IsFenced(j: Job, m: Job, now: Time) {
    && j.status.Running? && j.expiresAt.Some? && j.expiresAt.value <= now
    && if j.attemptsStarted < j.maxAttempts then
         m == j.(status := Queued, availableAt := now, updatedAt := now, lastError := Some(EXPIRY_REASON),
                 owner := None, tokenDigest := None, expiresAt := None, heartbeatAt := None)
       else
         m == j.(status := Failed, finishedAt := Some(now), updatedAt := now, lastError := Some(EXPIRY_REASON),
                 owner := None, tokenDigest := None, expiresAt := None, heartbeatAt := None)
  }

  ghost predicate IsExpiredAttempt(a: Attempt, b: Attempt, now: Time) {
    b == a.(status := AttemptExpired, finishedAt := Some(now), error := Some(EXPIRY_REASON))
  }

  /** A claim that leases writes exactly these columns; of the other rows it changes expired leases only. */
  lemma ClaimsWriteTheLease(events: seq<Event>, op: Op, now: Time)
    requires op.Claim?
    ensures ArgumentsOk(op) ==>
      var db := Reached(events).db; var r := Step(db, op, now);
      r.Ok? && r.value.answer.Leased? ==>
        var next := r.value.db; var l := r.value.answer.lease; var deadline := now + op.length;
        && l.jobId in db.jobs && op.attemptId !in db.attempts
        && next.jobs.Keys == db.jobs.Keys && next.attempts.Keys == db.attempts.Keys + {op.attemptId}
        && 0 < op.length && deadline <= MAX_TIME
        && l == Lease(l.jobId, db.jobs[l.jobId].work, op.attemptId, 1, db.jobs[l.jobId].maxAttempts, 1, op.worker, op.token, now, deadline)
        && next.jobs[l.jobId] == db.jobs[l.jobId].(
             status := Running, attemptsStarted := 1, epoch := 1, owner := Some(op.worker), tokenDigest := Some(Sha256(op.token)),
             expiresAt := Some(deadline), heartbeatAt := Some(now), updatedAt := now)
        && next.attempts[op.attemptId] ==
             Attempt(op.attemptId, l.jobId, 1, 1, op.worker, Sha256(op.token), AttemptRunning, now, now, deadline, None, None, None)
        && (forall k | k in db.jobs && k != l.jobId :: next.jobs[k] == db.jobs[k] || IsFenced(db.jobs[k], next.jobs[k], now))
        && (forall a | a in db.attempts ::
              next.attempts[a] == db.attempts[a] || IsExpiredAttempt(db.attempts[a], next.attempts[a], now))
  {
    hide Run, Inv, ArgumentsOk, Sweep, ClaimStep, Precedes, CandidateKeys, IsCandidate, TokenInUse, ExpiredRows, Fenced, Bound,
         SplitByBudget, Advances, IsFenced, IsExpiredAttempt;
    var db := Reached(events).db;
    ReachedIsOk(events);
    if ArgumentsOk(op) {
      ClaimOnValid(db, op, now);
      SweepKeepsInv(db, now, op.target, ClaimSweepLimit(op));
      var ids := ExpiredRows(db, now, op.target, ClaimSweepLimit(op));
      SweptRows(db, Sweep(db, now, op.target, ClaimSweepLimit(op)).value.0, ids, now);
      if CandidateKeys(db, now, op.target) != {} {
        LeastCandidate(db, now, op.target);
        JobRows(db, Least(CandidateKeys(db, now, op.target)).id);
        NeverStarted(db.jobs[Least(CandidateKeys(db, now, op.target)).id], now, op.target);
      }
    }
  }

  lemma NeverStarted(j: Job, now: Time, target: Option<string>)
    requires JobOk(j) && IsCandidate(j, now, target)
    ensures j.attemptsStarted == 0 && j.epoch == 0 && j.finishedAt.None?
  {
    hide Acceptable, ErrorOk, WorkOk;
  }

  lemma SweptRows(db: Db, next: Db, ids: seq<string>, now: Time)
    requires Inv(db) && Fenced(db, next, ids, now)
    requires forall id | id in ids :: id in db.jobs && IsExpired(db.jobs[id], now, None)
    ensures FencesRows(db, next, ids, now)
  {
    hide Inv;
  }

  // ----- Recovery -----

  /** The earlier deadline, the smaller id among equal deadlines. */
  predicate ExpiresBefore(j: Job, m: Job) {
    && j.expiresAt.Some? && m.expiresAt.Some?
    && (j.expiresAt.value < m.expiresAt.value || (j.expiresAt == m.expiresAt && Before(j.id, m.id)))
  }

  /** The listed jobs whose budget is not spent, or is, in the order of the list. */
  function WithBudget(db: Db, ids: seq<string>, left: bool): seq<string>
    requires forall id | id in ids :: id in db.jobs
    decreases |ids|
  {
    if ids == [] then [] else
      var last := ids[|ids| - 1];
      WithBudget(db, ids[..|ids| - 1], left) + if (db.jobs[last].attemptsStarted < db.jobs[last].maxAttempts) == left then [last] else []
  }

  lemma OneMoreReported(db: Db, ids: seq<string>, now: Time)
    requires ids != [] && (forall id | id in ids :: id in db.jobs) && FenceAll(db, ids, now).Ok?
    ensures var front, id := ids[..|ids| - 1], ids[|ids| - 1];
      && FenceAll(db, front, now).Ok? && var (mid, s) := FenceAll(db, front, now).value;
      && id in mid.jobs
      && FenceAll(db, ids, now).value.1 ==
           if mid.jobs[id].attemptsStarted >= mid.jobs[id].maxAttempts then s.(exhausted := s.exhausted + [id])
           else s.(requeued := s.requeued + [id])
  {
    hide FenceOne;
  }

  lemma OneMoreListed(db: Db, ids: seq<string>, left: bool)
    requires ids != [] && (forall id | id in ids :: id in db.jobs)
    ensures var front, id := ids[..|ids| - 1], ids[|ids| - 1];
      WithBudget(db, ids, left) ==
        WithBudget(db, front, left) + if (db.jobs[id].attemptsStarted < db.jobs[id].maxAttempts) == left then [id] else []
  {
  }

  /** A recovery's report lists the fenced jobs in the order it fenced them. */
  lemma {:induction false} ReportsInOrder(db: Db, ids: seq<string>, now: Time)
    requires Inv(db) && Repetitionless(ids)
    requires forall id | id in ids :: id in db.jobs && IsExpired(db.jobs[id], now, None)
    ensures FenceAll(db, ids, now).Ok?
    ensures FenceAll(db, ids, now).value.1 == Summary(WithBudget(db, ids, true), WithBudget(db, ids, false))
    decreases |ids|
  {
    hide Inv, FenceAll, Advances, Fenced, SplitByBudget, IsExpired, WithBudget;
    FenceAllKeepsInv(db, ids, now);
    if ids == [] {
      NothingReported(db, now);
    } else {
      var front, id := ids[..|ids| - 1], ids[|ids| - 1];
      assert ids == front + [id];
      FenceAllKeepsInv(db, front, now);
      FencedLeavesOthers(db, FenceAll(db, front, now).value.0, front, id, now);
      ReportsInOrder(db, front, now);
      OneMoreReported(db, ids, now);
      OneMoreListed(db, ids, true);
      OneMoreListed(db, ids, false);
    }
  }

  lemma NothingReported(db: Db, now: Time)
    ensures FenceAll(db, [], now) == Ok((db, Summary([], [])))
    ensures WithBudget(db, [], true) == WithBudget(db, [], false) == []
  {
  }

  ghost predicate InExpiryOrder(db: Db, ids: seq<string>) {
    && (forall id | id in ids :: id in db.jobs)
    && forall i, j | 0 <= i < j < |ids| :: ExpiresBefore(db.jobs[ids[i]], db.jobs[ids[j]])
  }

  lemma {:induction false} PartsStayInOrder(db: Db, ids: seq<string>, left: bool)
    requires InExpiryOrder(db, ids)
    ensures InExpiryOrder(db, WithBudget(db, ids, left))
    ensures forall id :: id in WithBudget(db, ids, left) <==>
      id in ids && (db.jobs[id].attemptsStarted < db.jobs[id].maxAttempts) == left
    decreases |ids|
  {
    hide ExpiresBefore;
    if ids != [] {
      var front, last := ids[..|ids| - 1], ids[|ids| - 1];
      assert ids == front + [last];
      PartsStayInOrder(db, front, left);
      forall id | id in WithBudget(db, front, left) ensures ExpiresBefore(db.jobs[id], db.jobs[last]) {
        var i :| 0 <= i < |front| && front[i] == id;
        assert ids[i] == id;
      }
    }
  }

  /** The listed jobs are the first expired leases, or all of them. */
  ghost predicate AreEarliest(db: Db, ids: seq<string>, limit: nat, now: Time) {
    && |ids| <= limit && InExpiryOrder(db, ids)
    && (forall k | k in db.jobs && k !in ids && db.jobs[k].status.Running? && db.jobs[k].expiresAt.Some?
                   && db.jobs[k].expiresAt.value <= now ::
          |ids| == limit && forall i | 0 <= i < |ids| :: ExpiresBefore(db.jobs[ids[i]], db.jobs[k]))
  }

  /** Exactly the listed jobs and their attempts are fenced. */
  ghost predicate FencesRows(db: Db, next: Db, ids: seq<string>, now: Time) {
    && next.jobs.Keys == db.jobs.Keys && next.attempts.Keys == db.attempts.Keys
    && (forall k | k in db.jobs :: if k in ids then IsFenced(db.jobs[k], next.jobs[k], now) else next.jobs[k] == db.jobs[k])
    && (forall a | a in db.attempts ::
          if db.attempts[a].jobId in ids then IsExpiredAttempt(db.attempts[a], next.attempts[a], now)
          else next.attempts[a] == db.attempts[a])
  }

  /** The report: jobs queued again and jobs failed, each in deadline order. */
  ghost predicate ReportsRows(db: Db, ids: seq<string>, s: Summary) {
    && InExpiryOrder(db, s.requeued) && InExpiryOrder(db, s.exhausted) && (forall id | id in ids :: id in db.jobs)
    && (forall id :: id in s.requeued <==> id in ids && db.jobs[id].attemptsStarted < db.jobs[id].maxAttempts)
    && (forall id :: id in s.exhausted <==> id in ids && db.jobs[id].attemptsStarted >= db.jobs[id].maxAttempts)
  }

  lemma EarliestAreFirst(db: Db, ids: seq<string>, limit: nat, now: Time)
    requires Inv(db) && ids == ExpiredRows(db, now, None, Some(limit))
    ensures AreEarliest(db, ids, limit, now)
  {
    hide Inv, Precedes, ExpiredRows, ExpiresBefore;
    ExpiredRowsAreFirst(db, now, None, Some(limit));
    forall k | k in db.jobs ensures db.jobs[k].id == k {
      JobRows(db, k);
    }
    forall k, m | k in db.jobs && m in db.jobs && db.jobs[k].expiresAt.Some? && db.jobs[m].expiresAt.Some?
      ensures Precedes(ExpiryKey(db, k), ExpiryKey(db, m)) ==> ExpiresBefore(db.jobs[k], db.jobs[m])
    {
      DeadlineIsTheKey(db, k, m);
    }
  }

  lemma RecoveryIsExact(db: Db, limit: nat, now: Time)
    requires Inv(db)
    ensures var r := RecoverStep(db, limit, now); var ids := ExpiredRows(db, now, None, Some(limit));
      && r.Ok? && r.value.answer.Recovered?
      && FencesRows(db, r.value.db, ids, now) && ReportsRows(db, ids, r.value.answer.summary)
  {
    hide Inv, ExpiredRows, Advances, SplitByBudget, Fenced, FenceAll, ExpiresBefore, IsExpired, FencesRows, Precedes;
    var ids := ExpiredRows(db, now, None, Some(limit));
    EarliestAreFirst(db, ids, limit, now);
    ExpiredRowsAreFirst(db, now, None, Some(limit));
    SweepKeepsInv(db, now, None, Some(limit));
    SweptRows(db, Sweep(db, now, None, Some(limit)).value.0, ids, now);
    ReportsInOrder(db, ids, now);
    PartsStayInOrder(db, ids, true);
    PartsStayInOrder(db, ids, false);
  }

  /** In every reachable database a recovery with limit k fences the k expired leases with the earliest deadlines, or all if
      there are no more; it changes no other row, and reports requeued and exhausted jobs, each in deadline order. */
  lemma RecoveriesFenceTheEarliest(events: seq<Event>, limit: nat, now: Time) returns (ids: seq<string>)
    requires 1 <= limit <= 1000
    ensures AreEarliest(Reached(events).db, ids, limit, now)
    ensures var db := Reached(events).db; var r := Step(db, Recover(limit), now);
      && r.Ok? && r.value.answer.Recovered?
      && FencesRows(db, r.value.db, ids, now) && ReportsRows(db, ids, r.value.answer.summary)
  {
    hide Run, Inv, ExpiredRows, FencesRows, ReportsRows, AreEarliest, RecoverStep;
    ReachedIsOk(events);
    var db := Reached(events).db;
    ids := ExpiredRows(db, now, None, Some(limit));
    EarliestAreFirst(db, ids, limit, now);
    RecoveryIsExact(db, limit, now);
  }

  lemma DeadlineIsTheKey(db: Db, k: string, m: string)
    requires k in db.jobs && m in db.jobs && db.jobs[k].id == k && db.jobs[m].id == m
    requires db.jobs[k].expiresAt.Some? && db.jobs[m].expiresAt.Some?
    ensures Precedes(ExpiryKey(db, k), ExpiryKey(db, m)) <==> ExpiresBefore(db.jobs[k], db.jobs[m])
  {
  }

  /** With room for them all, every expired lease is fenced. */
  lemma RecoveriesWithRoomFenceAll(events: seq<Event>, limit: nat, now: Time, k: string)
    requires 1 <= limit <= 1000
    ensures var db := Reached(events).db; var r := Step(db, Recover(limit), now);
      && r.Ok?
      && (k in db.jobs && db.jobs[k].status.Running? && db.jobs[k].expiresAt.Some? && db.jobs[k].expiresAt.value <= now
          && |ExpiredJobs(db, now)| <= limit ==>
            k in r.value.db.jobs && IsFenced(db.jobs[k], r.value.db.jobs[k], now))
  {
    hide Run, Inv, Step, ReportsRows, IsFenced, IsExpiredAttempt, ExpiresBefore;
    var db := Reached(events).db;
    var ids := RecoveriesFenceTheEarliest(events, limit, now);
    if k in db.jobs && k !in ids && db.jobs[k].status.Running? && db.jobs[k].expiresAt.Some? && db.jobs[k].expiresAt.value <= now {
      forall id | id in ids ensures id in ExpiredJobs(db, now) {
        assert IsFenced(db.jobs[id], Step(db, Recover(limit), now).value.db.jobs[id], now);
        FencedWasExpired(db.jobs[id], Step(db, Recover(limit), now).value.db.jobs[id], now);
      }
      forall i, j | 0 <= i < j < |ids| ensures ids[i] != ids[j] {
        assert ExpiresBefore(db.jobs[ids[i]], db.jobs[ids[j]]);
        NotBeforeItself(db.jobs[ids[i]]);
      }
      ManyExpired(ids, k, ExpiredJobs(db, now));
    }
  }

  function ExpiredJobs(db: Db, now: Time): set<string> {
    set k | k in db.jobs && db.jobs[k].status.Running? && db.jobs[k].expiresAt.Some? && db.jobs[k].expiresAt.value <= now
  }

  lemma FencedWasExpired(j: Job, m: Job, now: Time)
    requires IsFenced(j, m, now)
    ensures j.status.Running? && j.expiresAt.Some? && j.expiresAt.value <= now
  {
  }

  lemma NotBeforeItself(j: Job)
    ensures !ExpiresBefore(j, j)
  {
    BeforeIsStrict(j.id, j.id);
  }

  /** A list without repetitions and one more element of a set. */
  lemma {:induction false} ManyExpired(ids: seq<string>, k: string, all: set<string>)
    requires Repetitionless(ids) && k !in ids && k in all && forall id | id in ids :: id in all
    ensures |ids| < |all|
    decreases |ids|
  {
    if ids != [] {
      var front, last := ids[..|ids| - 1], ids[|ids| - 1];
      assert last !in front && last in ids;
      ManyExpired(front, k, all - {last});
    } else {
      assert all != {};
    }
  }

  /** Before it looks for a job, a claim fences expired leases: without a target the thousand with the earliest deadlines, or all if
      there are no more; with a target that job alone, if its lease is expired. */
  lemma ClaimsSweepFirst(events: seq<Event>, op: Op, now: Time) returns (ids: seq<string>)
    requires op.Claim?
    ensures op.target.None? ==> AreEarliest(Reached(events).db, ids, 1000, now)
    ensures op.target.Some? ==>
      forall id :: id in ids <==> id == op.target.value && id in ExpiredJobs(Reached(events).db, now)
    ensures ArgumentsOk(op) ==>
      var db := Reached(events).db; var r := Step(db, op, now);
      && (r.Ok? && r.value.answer.NoLease? ==> FencesRows(db, r.value.db, ids, now) && ReportsOf(db, ids, r.value.receipt, now))
      && (r.Ok? && r.value.answer.Leased? ==>
            && r.value.answer.lease.jobId in db.jobs && r.value.answer.lease.jobId !in ids && op.attemptId in r.value.db.attempts
            && FencesRows(db, Db(r.value.db.jobs[r.value.answer.lease.jobId := db.jobs[r.value.answer.lease.jobId]],
                                 r.value.db.attempts - {op.attemptId}), ids, now))
  {
    hide Run, Inv, ArgumentsOk, Sweep, ClaimStep, Precedes, CandidateKeys, TokenInUse, ExpiredRows, Fenced, Bound, IsExpired,
         SplitByBudget, Advances, FencesRows, AreEarliest, ReportsRows, ClaimedJob, FirstAttempt, NewLease, IsCandidate;
    var db := Reached(events).db;
    ReachedIsOk(events);
    ids := ExpiredRows(db, now, op.target, ClaimSweepLimit(op));
    if op.target.None? {
      EarliestAreFirst(db, ids, 1000, now);
    } else {
      TargetAlone(db, op.target.value, now);
    }
    if ArgumentsOk(op) {
      ClaimOverSweep(db, op, now, ids);
    }
  }

  lemma ClaimOverSweep(db: Db, op: Op, now: Time, ids: seq<string>)
    requires Inv(db) && op.Claim? && ArgumentsOk(op) && ids == ExpiredRows(db, now, op.target, ClaimSweepLimit(op))
    ensures var r := ClaimStep(db, op, now);
      && (r.Ok? && r.value.answer.NoLease? ==> FencesRows(db, r.value.db, ids, now) && ReportsOf(db, ids, r.value.receipt, now))
      && (r.Ok? && r.value.answer.Leased? ==>
            && r.value.answer.lease.jobId in db.jobs && r.value.answer.lease.jobId !in ids && op.attemptId in r.value.db.attempts
            && FencesRows(db, Db(r.value.db.jobs[r.value.answer.lease.jobId := db.jobs[r.value.answer.lease.jobId]],
                                 r.value.db.attempts - {op.attemptId}), ids, now))
  {
    hide Inv, ArgumentsOk, Sweep, ClaimStep, Precedes, CandidateKeys, TokenInUse, ExpiredRows, Fenced, Bound, IsExpired,
         SplitByBudget, Advances, FencesRows, ReportsRows, ClaimedJob, FirstAttempt, NewLease, IsCandidate, ClaimOf;
    ClaimOnValid(db, op, now);
    SweepKeepsInv(db, now, op.target, ClaimSweepLimit(op));
    var swept := Sweep(db, now, op.target, ClaimSweepLimit(op)).value.0;
    ExpiredWithoutTarget(db, now, op.target, ids);
    SweptRows(db, swept, ids, now);
    SweepReports(db, now, op.target, ClaimSweepLimit(op));
    var r := ClaimStep(db, op, now);
    if CandidateKeys(db, now, op.target) != {} && r.Ok? {
      LeastCandidate(db, now, op.target);
      var id := Least(CandidateKeys(db, now, op.target)).id;
      CandidateIsNotListed(db, id, now, op.target, ids);
      ClaimUndone(swept, id, op, now, now + op.length);
    }
  }

  /** The receipt of a claim that found nothing: its sweep, if it fenced anything. */
  ghost predicate ReportsOf(db: Db, ids: seq<string>, receipt: Receipt, now: Time) {
    if ids == [] then receipt.NothingWritten? else receipt.ExpectSweep? && receipt.at == now && ReportsRows(db, ids, receipt.summary)
  }

  lemma TargetAlone(db: Db, target: string, now: Time)
    requires Inv(db)
    ensures forall id :: id in ExpiredRows(db, now, Some(target), None) <==> id == target && id in ExpiredJobs(db, now)
  {
    hide Inv, Precedes, ExpiredRows;
    ExpiredRowsAreFirst(db, now, Some(target), None);
    forall k | k in db.jobs ensures db.jobs[k].id == k {
      JobRows(db, k);
    }
    forall id ensures id in ExpiredRows(db, now, Some(target), None) ==> id in db.jobs && IsExpired(db.jobs[id], now, Some(target)) {
    }
  }

  lemma ExpiredWithoutTarget(db: Db, now: Time, target: Option<string>, ids: seq<string>)
    requires forall id | id in ids :: id in db.jobs && IsExpired(db.jobs[id], now, target)
    ensures forall id | id in ids :: id in db.jobs && IsExpired(db.jobs[id], now, None)
  {
  }

  lemma ExpiredInOrder(db: Db, now: Time, target: Option<string>, limit: Option<nat>)
    requires Inv(db)
    ensures InExpiryOrder(db, ExpiredRows(db, now, target, limit))
  {
    hide Inv, Precedes, ExpiredRows, ExpiresBefore;
    ExpiredRowsAreFirst(db, now, target, limit);
    forall k | k in db.jobs ensures db.jobs[k].id == k {
      JobRows(db, k);
    }
    forall k, m | k in db.jobs && m in db.jobs && db.jobs[k].expiresAt.Some? && db.jobs[m].expiresAt.Some?
      ensures Precedes(ExpiryKey(db, k), ExpiryKey(db, m)) ==> ExpiresBefore(db.jobs[k], db.jobs[m])
    {
      DeadlineIsTheKey(db, k, m);
    }
  }

  lemma SweepReports(db: Db, now: Time, target: Option<string>, limit: Option<nat>)
    requires Inv(db)
    ensures var ids := ExpiredRows(db, now, target, limit); var r := Sweep(db, now, target, limit);
      r.Ok? && Count(r.value.1) == |ids| && ReportsRows(db, ids, r.value.1)
  {
    hide Inv, ExpiredRows, Advances, Fenced, FenceAll, InExpiryOrder, IsExpired;
    var ids := ExpiredRows(db, now, target, limit);
    ExpiredRowsAreFirst(db, now, target, limit);
    SweepKeepsInv(db, now, target, limit);
    ExpiredWithoutTarget(db, now, target, ids);
    ReportsInOrder(db, ids, now);
    ExpiredInOrder(db, now, target, limit);
    PartsStayInOrder(db, ids, true);
    PartsStayInOrder(db, ids, false);
  }

  lemma CandidateIsNotListed(db: Db, id: string, now: Time, target: Option<string>, ids: seq<string>)
    requires id in db.jobs && IsCandidate(db.jobs[id], now, target)
    requires forall k | k in ids :: k in db.jobs && IsExpired(db.jobs[k], now, target)
    ensures id !in ids
  {
  }

  /** Without its lease, what a claim leaves is what its sweep left. */
  lemma ClaimUndone(swept: Db, id: string, op: Op, now: Time, deadline: Time)
    requires op.Claim? && id in swept.jobs && op.attemptId !in swept.attempts && swept.jobs[id].id == id
    ensures var e := ClaimOf(swept, id, op, now, deadline);
      && e.answer.Leased? && e.answer.lease.jobId == id && op.attemptId in e.db.attempts
      && Db(e.db.jobs[id := swept.jobs[id]], e.db.attempts - {op.attemptId}) == swept
  {
  }

  // ----- Lease holders -----

  /** The lease presented is the one its attempt's row was written for, whatever deadline it carries. */
  predicate IsGenuine(db: Db, l: Lease) {
    && l.jobId in db.jobs && l.attemptId in db.attempts
    && var j := db.jobs[l.jobId]; var a := db.attempts[l.attemptId];
    && a.jobId == j.id && l.work == j.work && l.attemptNumber == a.number && l.maxAttempts == j.maxAttempts && l.epoch == a.epoch
    && l.worker == a.worker && l.claimedAt == a.startedAt
  }

  /** The job runs under the lease's worker, token and epoch, and its deadline lies ahead. */
  predicate IsCurrent(db: Db, l: Lease, now: Time) {
    && l.jobId in db.jobs
    && var j := db.jobs[l.jobId];
    && j.status.Running? && j.owner == Some(l.worker) && j.tokenDigest == Some(Sha256(l.token)) && j.epoch == l.epoch
    && j.expiresAt.Some? && now < j.expiresAt.value
  }

  /** What becomes of a heartbeat, a completion or a failure, in every reachable database: all five ways, each exactly. */
  lemma HoldersActExactlyWhen(events: seq<Event>, op: Op, now: Time)
    requires op.Heartbeat? || op.Complete? || op.Fail?
    ensures ArgumentsOk(op) ==>
      var db := Reached(events).db; var r := Step(db, op, now); var l := op.lease;
      var inRange := op.Heartbeat? ==> 0 < op.length && now + op.length <= MAX_TIME;
      && (r == Raised(BadValue) <==> !inRange)
      && (r.Ok? && r.value.answer == Acknowledged(false) <==> inRange && !IsCurrent(db, l, now))
      && (r == Raised(Integrity) <==> inRange && IsCurrent(db, l, now) && !IsGenuine(db, l))
      && (r == Raised(ClockRegression) <==>
            inRange && IsCurrent(db, l, now) && IsGenuine(db, l) && now < db.jobs[l.jobId].updatedAt)
      && (r.Ok? && r.value.answer == Acknowledged(true) <==>
            inRange && IsCurrent(db, l, now) && IsGenuine(db, l) && db.jobs[l.jobId].updatedAt <= now)
      && (r.Ok? && r.value.answer == Acknowledged(false) ==> r.value.db == db)
  {
    hide Run, Inv, SpecOk, LeaseOk, Acceptable, StoredError, Owned, JobOk, AttemptOk, Put, AfterFailure;
    var db := Reached(events).db;
    ReachedIsOk(events);
    OwnedOnValid(db, op.lease, now);
    GenuineIsBound(db, op.lease, now);
  }

  lemma GenuineIsBound(db: Db, l: Lease, now: Time)
    requires Inv(db)
    ensures IsCurrent(db, l, now) ==> (IsGenuine(db, l) <==> Bound(db, l))
  {
    hide AllDistinct, OneAttemptEach, Acceptable, ErrorOk, AttemptOk;
    if IsCurrent(db, l, now) {
      assert JobOk(db.jobs[l.jobId]) && FirstAttemptOnly(db.jobs[l.jobId]) && db.jobs[l.jobId].id == l.jobId;
      if l.attemptId in db.attempts {
        var a := db.attempts[l.attemptId];
        assert a.id == l.attemptId && a.jobId in db.jobs && Paired(db.jobs[a.jobId], a);
      }
    }
  }

  /** An acknowledged beat moves the deadline to the later of the old one and a full length from now, in both rows, notes the
      time, and changes nothing else. */
  lemma BeatsWriteTheDeadline(events: seq<Event>, l: Lease, length: int, now: Time)
    ensures ArgumentsOk(Heartbeat(l, length)) ==>
      var db := Reached(events).db; var r := Step(db, Heartbeat(l, length), now);
      r.Ok? && r.value.answer == Acknowledged(true) ==>
        && l.jobId in db.jobs && l.attemptId in db.attempts && 0 < length && now + length <= MAX_TIME
        && var j := db.jobs[l.jobId]; var a := db.attempts[l.attemptId];
        && j.expiresAt == Some(a.expiresAt)
        && var deadline: Time := if a.expiresAt < now + length then now + length else a.expiresAt;
        && r.value.db == Db(
             db.jobs[l.jobId := j.(heartbeatAt := Some(now), expiresAt := Some(deadline), updatedAt := now)],
             db.attempts[l.attemptId := a.(heartbeatAt := now, expiresAt := deadline)])
        && r.value.receipt == ExpectBeat(now, deadline)
  {
    hide Run, Inv, LeaseOk, Owned, JobOk, AttemptOk, LeaseBinds;
    ReachedIsOk(events);
    OwnedOnValid(Reached(events).db, l, now);
  }

  /** An acknowledged completion stores the result in both rows and clears the lease. */
  lemma CompletionsWriteTheResult(events: seq<Event>, l: Lease, result: Option<string>, now: Time)
    ensures ArgumentsOk(Complete(l, result)) ==>
      var db := Reached(events).db; var r := Step(db, Complete(l, result), now);
      r.Ok? && r.value.answer == Acknowledged(true) ==>
        && l.jobId in db.jobs && l.attemptId in db.attempts
        && r.value.db == Db(
             db.jobs[l.jobId := db.jobs[l.jobId].(
               status := Succeeded, resultRef := result, updatedAt := now, finishedAt := Some(now),
               owner := None, tokenDigest := None, expiresAt := None, heartbeatAt := None)],
             db.attempts[l.attemptId := db.attempts[l.attemptId].(
               status := AttemptSucceeded, finishedAt := Some(now), resultRef := result)])
        && r.value.receipt == ExpectSuccess(now)
  {
    hide Run, Inv, LeaseOk, Owned, JobOk, AttemptOk, LeaseBinds;
    ReachedIsOk(events);
    OwnedOnValid(Reached(events).db, l, now);
  }

  /** An acknowledged failure stores the error in both rows and clears the lease: the job is queued for the later of now and the
      time asked for while its budget lasts, and failed otherwise. */
  lemma FailuresWriteTheError(events: seq<Event>, l: Lease, error: string, retryAt: Option<Time>, now: Time)
    ensures ArgumentsOk(Fail(l, error, retryAt)) ==>
      var db := Reached(events).db; var r := Step(db, Fail(l, error, retryAt), now);
      r.Ok? && r.value.answer == Acknowledged(true) ==>
        && l.jobId in db.jobs && l.attemptId in db.attempts
        && var j := db.jobs[l.jobId]; var a := db.attempts[l.attemptId];
        var retry := if retryAt.Some? && now < retryAt.value then retryAt.value else now;
        var cleared := j.(owner := None, tokenDigest := None, expiresAt := None, heartbeatAt := None, updatedAt := now,
                          lastError := Some(StoredError(error)));
        && r.value.db == Db(
             db.jobs[l.jobId := if j.attemptsStarted < j.maxAttempts then cleared.(status := Queued, availableAt := retry)
                                else cleared.(status := Failed, finishedAt := Some(now))],
             db.attempts[l.attemptId := a.(status := AttemptFailed, finishedAt := Some(now), error := Some(StoredError(error)))])
        && r.value.receipt == ExpectFailure(now, retry, if j.attemptsStarted < j.maxAttempts then Queued else Failed)
  {
    hide Run, Inv, LeaseOk, Owned, JobOk, AttemptOk, LeaseBinds, StoredError, Acceptable;
    ReachedIsOk(events);
    OwnedOnValid(Reached(events).db, l, now);
  }

  // ----- Enqueueing -----

  /** What a row was asked for. */
  function RequestOf(j: Job): JobSpec {
    JobSpec(j.id, j.work, j.priority, j.maxAttempts, j.requestedAt)
  }

  /** The rows a request may not stand beside: its id, or its task or idempotency key in its session. */
  function InTheWay(db: Db, s: JobSpec): set<string> {
    set k | k in db.jobs &&
      (k == s.id || (db.jobs[k].work.sessionId == s.work.sessionId
                     && (db.jobs[k].work.taskId == s.work.taskId || db.jobs[k].work.idempotencyKey == s.work.idempotencyKey)))
  }

  /** Enqueue in every reachable database: a new row with exactly these columns, or the one row in the way if it was asked for
      with the same request up to its id, or a conflict. */
  lemma EnqueuesWriteTheRequest(events: seq<Event>, s: JobSpec, now: Time)
    ensures ArgumentsOk(Enqueue(s)) ==>
      var db := Reached(events).db; var r := Step(db, Enqueue(s), now);
      if InTheWay(db, s) == {} then
        var row := Job(s.id, s.work, s.priority, Queued, s.maxAttempts, 0, 0, s.availableAt,
                       if s.availableAt.Some? then s.availableAt.value else now, now, now,
                       None, None, None, None, None, None, None);
        r == Ok(Effect(Db(db.jobs[s.id := row], db.attempts), Enqueued(row), ExpectJob))
      else if exists k :: InTheWay(db, s) == {k} && RequestOf(db.jobs[k]) == s.(id := k) then
        exists k :: InTheWay(db, s) == {k} && r == Ok(Effect(db, Enqueued(db.jobs[k]), ExpectJob))
      else r == Raised(Conflict)
  {
    hide Run, Inv, Acceptable, WorkOk, JobOk;
    ReachedIsOk(events);
    var db := Reached(events).db;
    forall k | k in db.jobs ensures db.jobs[k].id == k && JobOk(db.jobs[k]) {
      JobRows(db, k);
    }
    assert InTheWay(db, s) == Colliding(db, s);
    if SpecOk(s) {
      EnqueueKeepsInv(db, s, now);
      if |Colliding(db, s)| == 1 {
        var k := Only(Colliding(db, s));
        assert k in Colliding(db, s);
        assert forall m :: Colliding(db, s) == {m} ==> m == k;
      } else {
        assert forall m :: Colliding(db, s) != {m};
      }
    }
  }

  // ----- One lease per job -----

  /** Once a lease was handed out, no other lease for its job ever acts, but for the deadline a lease carries. */
  lemma OnlyTheGrantedLeaseActs(events: seq<Event>, c: nat, op: Op, now: Time)
    requires op.Heartbeat? || op.Complete? || op.Fail?
    ensures var w := Reached(events);
      ArgumentsOk(op) && WasLeased(w, c, op.lease.jobId) ==>
        var granted := w.calls[c].progress.verdict.answer.lease; var r := Step(w.db, op, now);
        r.Ok? && r.value.answer == Acknowledged(true) ==> op.lease == granted.(expiresAt := op.lease.expiresAt)
  {
    hide Run, Inv, Step, LeaseOk, SpecOk, Acceptable;
    var w := Reached(events);
    ReachedIsOk(events);
    if ArgumentsOk(op) && WasLeased(w, c, op.lease.jobId) {
      var granted := w.calls[c].progress.verdict.answer.lease;
      ReturnedAgrees(w, c);
      HoldersActExactlyWhen(events, op, now);
      if IsCurrent(w.db, op.lease, now) && IsGenuine(w.db, op.lease) {
        GrantedIsGenuine(w.db, op.lease, granted, now);
      }
    }
  }

  lemma GrantedIsGenuine(db: Db, l: Lease, granted: Lease, now: Time)
    requires Inv(db) && IsCurrent(db, l, now) && IsGenuine(db, l) && Carries(db, granted) && granted.jobId == l.jobId
    ensures l == granted.(expiresAt := l.expiresAt)
  {
    hide Inv, JobOk, AttemptOk, Paired;
    StartedRows(db, granted.jobId, granted.attemptId);
    GenuineIsBound(db, l, now);
    StartedRows(db, l.jobId, l.attemptId);
    OnlyAttempt(db, l.attemptId, l.jobId);
    CurrentDigest(db, granted, now);
  }

  lemma CurrentDigest(db: Db, l: Lease, now: Time)
    requires Inv(db) && Carries(db, l) && db.jobs[l.jobId].status.Running?
    ensures db.jobs[l.jobId].tokenDigest == Some(Sha256(l.token))
  {
    hide Inv, JobOk, AttemptOk;
    StartedRows(db, l.jobId, l.attemptId);
  }

  // ----- What rows look like -----

  /** A job row of any reachable database, by its status. */
  lemma ReachableJobs(events: seq<Event>, k: string)
    ensures var db := Reached(events).db; k in db.jobs ==>
      var j := db.jobs[k];
      && j.id == k && 0 <= j.priority <= 100 && 1 <= j.maxAttempts <= 0x7FFF_FFFF_FFFF_FFFF && j.createdAt <= j.updatedAt
      && 0 <= j.attemptsStarted <= 1 && j.epoch == j.attemptsStarted
      && (j.status.Running? <==> j.expiresAt.Some?) && (j.owner.Some? <==> j.status.Running?)
      && (j.tokenDigest.Some? <==> j.status.Running?) && (j.heartbeatAt.Some? <==> j.status.Running?)
      && (match j.status
          case Queued =>
            && j.finishedAt.None? && j.resultRef.None?
            && (j.attemptsStarted == 0 ==> j.lastError.None?)
            && (j.attemptsStarted == 1 ==> j.lastError.Some? && j.maxAttempts > 1)
          case Running =>
            && j.attemptsStarted == 1 && j.finishedAt.None? && j.resultRef.None?
            && j.createdAt <= j.heartbeatAt.value <= j.updatedAt < j.expiresAt.value
          case Succeeded =>
            j.attemptsStarted == 1 && j.finishedAt.Some? && j.createdAt <= j.finishedAt.value <= j.updatedAt
          case Failed =>
            && j.attemptsStarted == 1 == j.maxAttempts && j.lastError.Some? && j.resultRef.None?
            && j.finishedAt.Some? && j.createdAt <= j.finishedAt.value <= j.updatedAt
          case Canceled => false)
  {
    hide Run, Inv, Acceptable, WorkOk;
    ReachedIsOk(events);
    if k in Reached(events).db.jobs {
      JobRows(Reached(events).db, k);
    }
  }

  /** An attempt row of any reachable database, with the job row it belongs to. */
  lemma ReachableAttempts(events: seq<Event>, id: string)
    ensures var db := Reached(events).db; id in db.attempts ==>
      var a := db.attempts[id];
      && a.id == id && a.jobId in db.jobs && var j := db.jobs[a.jobId];
      && a.number == 1 && a.epoch == 1 && j.attemptsStarted == 1
      && j.createdAt <= a.startedAt <= a.heartbeatAt < a.expiresAt
      && (a.status.AttemptRunning? <==> j.status.Running?) && (a.finishedAt.Some? <==> !j.status.Running?)
      && (a.finishedAt.Some? ==> a.heartbeatAt <= a.finishedAt.value <= j.updatedAt)
      && (j.finishedAt.Some? ==> j.finishedAt == a.finishedAt)
      && (match j.status
          case Running =>
            && a.error.None? && a.resultRef.None? && j.owner == Some(a.worker) && j.tokenDigest == Some(a.tokenDigest)
            && j.heartbeatAt == Some(a.heartbeatAt) && j.expiresAt == Some(a.expiresAt)
          case Succeeded =>
            a.status.AttemptSucceeded? && a.resultRef == j.resultRef && a.error.None? && a.finishedAt.value < a.expiresAt
          case _ =>
            && a.error == j.lastError && a.error.Some? && a.resultRef.None?
            && (if a.finishedAt.value < a.expiresAt then a.status.AttemptFailed? else a.status.AttemptExpired?))
  {
    hide Run, Inv, Acceptable, WorkOk, ErrorOk;
    ReachedIsOk(events);
    var db := Reached(events).db;
    if id in db.attempts {
      AttemptHasRow(db, id);
      StartedRows(db, db.attempts[id].jobId, id);
    }
  }

  lemma AttemptHasRow(db: Db, id: string)
    requires Inv(db) && id in db.attempts
    ensures db.attempts[id].jobId in db.jobs && AttemptFor(db, id, db.attempts[id].jobId) && db.attempts[id].id == id
  {
    hide JobsOk, OneAttemptEach, AllDistinct, Paired;
  }
}
