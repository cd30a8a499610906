/** Which job a claim takes, which leases a recovery fences, and which leases it can never fence. */
module InvocationSelection {
  import opened Common
  import opened SortKeys
  import opened InvocationText
  import opened InvocationRows
  import opened InvocationSteps
  import opened InvocationInvariant
  import opened InvocationReadBack
  import opened InvocationWorld

  /** No other candidate comes before it by priority, availability, creation and id. */
  ghost predicate FirstCandidate(db: Db, id: string, now: Time, target: Option<string>) {
    && id in db.jobs && IsCandidate(db.jobs[id], now, target)
    && forall k | k in db.jobs && IsCandidate(db.jobs[k], now, target) && k != id ::
         Precedes(ClaimKey(db.jobs[id], id), ClaimKey(db.jobs[k], k))
  }

  lemma LeastIsFirstCandidate(db: Db, now: Time, target: Option<string>)
    requires Inv(db) && CandidateKeys(db, now, target) != {}
    ensures FirstCandidate(db, Least(CandidateKeys(db, now, target)).id, now, target)
  {
    hide Inv, Precedes, IsCandidate;
    var keys := CandidateKeys(db, now, target);
    LeastCandidate(db, now, target);
    var id := Least(keys).id;
    assert Least(keys) == ClaimKey(db.jobs[id], id);
    forall k | k in db.jobs && IsCandidate(db.jobs[k], now, target) && k != id
      ensures Precedes(ClaimKey(db.jobs[id], id), ClaimKey(db.jobs[k], k))
    {
      assert ClaimKey(db.jobs[k], k) in keys;
    }
  }

  lemma FirstCandidateIsUnique(db: Db, x: string, y: string, now: Time, target: Option<string>)
    requires FirstCandidate(db, x, now, target) && FirstCandidate(db, y, now, target)
    ensures x == y
  {
    PrecedesIsStrictTotal(ClaimKey(db.jobs[x], x), ClaimKey(db.jobs[y], y));
  }

  /** The claim's random names clash: its attempt id is taken, or its token belongs to a lease its own sweep leaves alone. */
  ghost predicate NamesClash(db: Db, op: Op, now: Time)
    requires op.Claim?
  {
    || op.attemptId in db.attempts
    || exists k :: k in db.jobs && k !in ExpiredRows(db, now, op.target, ClaimSweepLimit(op))
                   && db.jobs[k].tokenDigest == Some(Sha256(op.token))
  }

  lemma SweepKeepsClashes(db: Db, op: Op, now: Time, swept: Db)
    requires op.Claim? && Fenced(db, swept, ExpiredRows(db, now, op.target, ClaimSweepLimit(op)), now)
    ensures TokenInUse(swept, op.token) || op.attemptId in swept.attempts <==> NamesClash(db, op, now)
  {
    hide ExpiredRows;
    if k :| k in swept.jobs && swept.jobs[k].tokenDigest == Some(Sha256(op.token)) {
      assert k in db.jobs;
    }
  }

  lemma NoCandidateNoKey(db: Db, now: Time, target: Option<string>)
    ensures CandidateKeys(db, now, target) == {} <==> forall k | k in db.jobs :: !IsCandidate(db.jobs[k], now, target)
  {
    hide IsCandidate;
    if k :| k in db.jobs && IsCandidate(db.jobs[k], now, target) {
      assert ClaimKey(db.jobs[k], k) in CandidateKeys(db, now, target);
    }
  }

  /** A claim leases the first never-attempted available job, answers none exactly when there is none, and refuses to
      run ahead of the job's own clock or to reuse a name; a refusal also undoes the sweep the claim began with. */
  lemma ClaimTakesTheFirst(db: Db, op: Op, now: Time)
    requires Inv(db) && op.Claim? && ArgumentsOk(op) && Deadline(now, op.length).Some?
    ensures var r := Step(db, op, now);
      && (r.Ok? && r.value.answer.NoLease? <==> forall k | k in db.jobs :: !IsCandidate(db.jobs[k], now, op.target))
      && (r.Ok? && r.value.answer.Leased? ==>
            var l := r.value.answer.lease;
            && FirstCandidate(db, l.jobId, now, op.target)
            && l == NewLease(db.jobs[l.jobId], op.worker, op.attemptId, op.token, now, now + op.length))
      && (r.Ok? ==> r.value.answer.NoLease? || r.value.answer.Leased?)
      && (r == Raised(ClockRegression) <==>
            exists id :: FirstCandidate(db, id, now, op.target) && now < db.jobs[id].updatedAt)
      && (r == Raised(Internal) <==>
            NamesClash(db, op, now) && exists id :: FirstCandidate(db, id, now, op.target) && db.jobs[id].updatedAt <= now)
      && (r.Raised? ==> r.fault.ClockRegression? || r.fault.Internal?)
  {
    hide Inv, ArgumentsOk, Sweep, ClaimStep, IsCandidate, Precedes, CandidateKeys, TokenInUse, Put, ClaimedJob, FirstAttempt,
         Bound, Advances, ExpiredRows, NamesClash, Fenced;
    ClaimOnValid(db, op, now);
    SweepKeepsInv(db, now, op.target, ClaimSweepLimit(op));
    SweepKeepsClashes(db, op, now, Sweep(db, now, op.target, ClaimSweepLimit(op)).value.0);
    NoCandidateNoKey(db, now, op.target);
    var keys := CandidateKeys(db, now, op.target);
    if keys != {} {
      var id := Least(keys).id;
      LeastIsFirstCandidate(db, now, op.target);
      LeastCandidate(db, now, op.target);
      forall x | FirstCandidate(db, x, now, op.target) ensures x == id {
        FirstCandidateIsUnique(db, x, id, now, op.target);
      }
    }
  }

  /** Which faults a step can raise on valid tables, and exactly when. */
  lemma FaultsExplained(db: Db, op: Op, now: Time)
    requires Inv(db) && ArgumentsOk(op)
    ensures var r := Step(db, op, now);
      && (r == Raised(Integrity) <==>
            && (op.Heartbeat? || op.Complete? || op.Fail?) && (op.Heartbeat? ==> Deadline(now, op.length).Some?)
            && op.lease.jobId in db.jobs && HoldsLease(db.jobs[op.lease.jobId], op.lease, now) && !Bound(db, op.lease))
      && (r == Raised(BadValue) <==> (op.Claim? || op.Heartbeat?) && Deadline(now, op.length).None?)
      && (r == Raised(Conflict) ==> op.Enqueue? && Colliding(db, op.spec) != {})
      && (r == Raised(Internal) ==> op.Claim?)
      && (r == Raised(ClockRegression) ==> op.Claim? || op.Heartbeat? || op.Complete? || op.Fail?)
      && (op.Recover? ==> r.Ok?)
  {
    hide Inv, SpecOk, LeaseOk, Acceptable, Sweep, ClaimStep, StoredError, Owned, Precedes, CandidateKeys, EnqueueStep,
         LeaseBinds, Bound, Advances, TokenInUse, JobOk;
    match op
    case Enqueue(s) => EnqueueKeepsInv(db, s, now);
    case Claim(_, _, _, _, _) => ClaimOnValid(db, op, now);
    case Recover(limit) => SweepKeepsInv(db, now, None, Some(limit));
    case _ => OwnedOnValid(db, op.lease, now);
  }

  // ----- Enqueueing -----

  /** A fresh enqueue adds one waiting job that carries the request and becomes a candidate at its time; enqueueing the
      same request again at any time returns that very row and changes nothing. */
  lemma EnqueueAddsOneWaitingJob(db: Db, s: JobSpec, now: Time, later: Time)
    requires Inv(db) && SpecOk(s) && Colliding(db, s) == {}
    ensures var r := EnqueueStep(db, s, now);
      && r.Ok? && r.value.answer.Enqueued?
      && var row := r.value.answer.job; var next := r.value.db;
      && next == Db(db.jobs[s.id := row], db.attempts) && s.id !in db.jobs && row.id == s.id && ExistingMatches(row, s)
      && (forall t, target: Option<string> | target.None? || target.value == s.id ::
            IsCandidate(row, t, target) <==> (if s.availableAt.Some? then s.availableAt.value else now) <= t)
      && EnqueueStep(next, s, later) == Ok(Effect(next, Enqueued(row), ExpectJob))
  {
    hide Inv, Acceptable, Advances, WorkOk;
    EnqueueKeepsInv(db, s, now);
    assert s.id in db.jobs ==> s.id in Colliding(db, s) by {
      if s.id in db.jobs {
        JobRows(db, s.id);
      }
    }
    var r := EnqueueStep(db, s, now);
    assert JobOk(NewJob(s, now)) by { assert r.Ok?; }
    var next := r.value.db;
    forall k | k in Colliding(next, s) ensures k == s.id {
      assert k != s.id ==> k in Colliding(db, s);
    }
    assert Colliding(next, s) == {s.id};
  }

  // ----- Failure -----

  /** An acknowledged failure spends the attempt: terminal exactly when the budget is spent, otherwise queued at the
      earliest time that is neither before now nor before the time asked for. */
  lemma FailureGoesByBudget(db: Db, op: Op, now: Time)
    requires Inv(db) && op.Fail? && ArgumentsOk(op)
    ensures var r := Step(db, op, now); r.Ok? && r.value.answer == Acknowledged(true) ==>
      && op.lease.jobId in db.jobs && op.lease.jobId in r.value.db.jobs && op.lease.attemptId in r.value.db.attempts
      && var j := r.value.db.jobs[op.lease.jobId]; var a := r.value.db.attempts[op.lease.attemptId];
      && (j.status.Failed? <==> db.jobs[op.lease.jobId].attemptsStarted == db.jobs[op.lease.jobId].maxAttempts)
      && (j.status.Queued? <==> !j.status.Failed?)
      && (j.status.Queued? ==>
            && now <= j.availableAt && (op.retryAt.Some? ==> op.retryAt.value <= j.availableAt)
            && (j.availableAt == now || op.retryAt == Some(j.availableAt)))
      && j.lastError == a.error == Some(StoredError(op.error)) && a.status.AttemptFailed? && a.finishedAt == Some(now)
      && !HoldsLease(j, op.lease, now)
  {
    hide Inv, ArgumentsOk, StoredError, JobOk, AttemptOk;
    OwnedOnValid(db, op.lease, now);
    if op.lease.jobId in db.jobs {
      BudgetHolds(db, op.lease.jobId);
    }
  }

  lemma BudgetHolds(db: Db, k: string)
    requires Inv(db) && k in db.jobs
    ensures db.jobs[k].attemptsStarted <= db.jobs[k].maxAttempts
  {
    hide Acceptable, ErrorOk, OneAttemptEach, AttemptsOk, AllDistinct;
    assert JobOk(db.jobs[k]);
  }

  // ----- Recovery -----

  /** The listed jobs are the first `limit` expired leases by (deadline, id), in that order. */
  ghost predicate FirstExpired(db: Db, ids: seq<string>, limit: nat, now: Time) {
    && Repetitionless(ids) && |ids| <= limit
    && (forall id | id in ids :: id in db.jobs && IsExpired(db.jobs[id], now, None))
    && (forall i, j | 0 <= i < j < |ids| :: Precedes(ExpiryKey(db, ids[i]), ExpiryKey(db, ids[j])))
    && (forall k | k in db.jobs && IsExpired(db.jobs[k], now, None) && k !in ids ::
          |ids| == limit && forall i | 0 <= i < |ids| :: Precedes(ExpiryKey(db, ids[i]), ExpiryKey(db, k)))
  }

  /** Recovery fences exactly the first expired leases, splits them by attempt budget and leaves every other row alone. */
  lemma RecoveryFencesTheFirst(db: Db, limit: nat, now: Time) returns (ids: seq<string>)
    requires Inv(db) && 1 <= limit <= 1000
    ensures FirstExpired(db, ids, limit, now)
    ensures var r := Step(db, Recover(limit), now);
      && r.Ok? && r.value.answer.Recovered?
      && Fenced(db, r.value.db, ids, now) && SplitByBudget(db, ids, r.value.answer.summary)
  {
    hide Inv, Sweep, Precedes, ExpiredRows, Advances, SplitByBudget, Fenced;
    SweepKeepsInv(db, now, None, Some(limit));
    ExpiredRowsAreFirst(db, now, None, Some(limit));
    ids := ExpiredRows(db, now, None, Some(limit));
  }

  /** A fenced invocation is settled, and recovery never makes any job claimable, then or later. */
  lemma RecoveryMakesNothingClaimable(db: Db, next: Db, ids: seq<string>, now: Time, k: string, t: Time)
    requires Inv(db) && Fenced(db, next, ids, now)
    requires forall id | id in ids :: id in db.jobs && IsExpired(db.jobs[id], now, None)
    ensures k in ids ==> k in next.jobs && PhaseOf(next.jobs[k]).Settled?
    ensures k in next.jobs && IsCandidate(next.jobs[k], t, None) ==> k in db.jobs && next.jobs[k] == db.jobs[k]
  {
    hide Inv;
    if k in ids {
      ExpiredIsStarted(db, k, now);
    }
  }

  lemma ExpiredIsStarted(db: Db, id: string, now: Time)
    requires Inv(db) && id in db.jobs && IsExpired(db.jobs[id], now, None)
    ensures db.jobs[id].attemptsStarted == 1
  {
    hide Acceptable, ErrorOk, OneAttemptEach, AttemptsOk, AllDistinct;
    assert JobOk(db.jobs[id]) && FirstAttemptOnly(db.jobs[id]);
  }

  // ----- Keep-alive -----

  datatype Tick = Tick(op: Op, now: Time)

  /** One transaction that took effect, or was refused and changed nothing. */
  function TickOnce(db: Db, t: Tick): Db {
    if ArgumentsOk(t.op) && Step(db, t.op, t.now).Ok? then Step(db, t.op, t.now).value.db else db
  }

  function Ticks(db: Db, ticks: seq<Tick>): Db
    decreases |ticks|
  {
    if ticks == [] then db else Ticks(TickOnce(db, ticks[0]), ticks[1..])
  }

  /** Whatever other workers and stores do: they do not present this lease's token. */
  predicate Foreign(op: Op, l: Lease) {
    (op.Heartbeat? || op.Complete? || op.Fail?) ==> op.lease.token != l.token
  }

  /** A run on a non-decreasing clock in which the lease is beaten at gaps strictly shorter than its length. */
  predicate KeptAlive(l: Lease, length: int, last: Time, clock: Time, ticks: seq<Tick>)
    decreases |ticks|
  {
    ticks == [] || (
      var t := ticks[0];
      var beat := t.op == Heartbeat(l, length);
      && clock <= t.now < last + length
      && (beat || Foreign(t.op, l))
      && (beat ==> t.now + length <= MAX_TIME)
      && KeptAlive(l, length, if beat then t.now else last, t.now, ticks[1..]))
  }

  /** The lease owns its running job at least until a full length after the last beat. */
  ghost predicate Held(db: Db, l: Lease, length: int, last: Time, clock: Time) {
    && Carries(db, l) && db.jobs[l.jobId].status.Running?
    && db.jobs[l.jobId].updatedAt <= clock
    && db.jobs[l.jobId].expiresAt.Some? && last + length <= db.jobs[l.jobId].expiresAt.value
  }

  /** Steps that do not present a running job's token leave its rows alone until it expires. */
  lemma ForeignLeavesAlone(db: Db, op: Op, now: Time, l: Lease)
    requires Inv(db) && ArgumentsOk(op) && Foreign(op, l)
    requires Carries(db, l) && db.jobs[l.jobId].status.Running? && !IsExpired(db.jobs[l.jobId], now, None)
    ensures var r := Step(db, op, now); r.Ok? ==>
      && l.jobId in r.value.db.jobs && r.value.db.jobs[l.jobId] == db.jobs[l.jobId]
      && l.attemptId in r.value.db.attempts && r.value.db.attempts[l.attemptId] == db.attempts[l.attemptId]
  {
    hide Inv, SpecOk, LeaseOk, Acceptable, Sweep, ClaimStep, JobOk, StoredError, Owned, Precedes, CandidateKeys;
    StartedRows(db, l.jobId, l.attemptId);
    match op
    case Enqueue(s) =>
      assert s.id == l.jobId ==> l.jobId in Colliding(db, s);
    case Claim(_, _, _, _, _) =>
      ClaimOnValid(db, op, now);
      SweepLeavesAlone(db, now, op.target, ClaimSweepLimit(op), l);
      if CandidateKeys(db, now, op.target) != {} {
        LeastCandidate(db, now, op.target);
      }
    case Recover(limit) => SweepLeavesAlone(db, now, None, Some(limit), l);
    case _ =>
      OwnedOnValid(db, op.lease, now);
  }

  lemma SweepLeavesAlone(db: Db, now: Time, target: Option<string>, limit: Option<nat>, l: Lease)
    requires Inv(db) && Bound(db, l) && db.jobs[l.jobId].status.Running? && !IsExpired(db.jobs[l.jobId], now, None)
    ensures var r := Sweep(db, now, target, limit);
      && r.Ok? && l.jobId in r.value.0.jobs && r.value.0.jobs[l.jobId] == db.jobs[l.jobId]
      && l.attemptId in r.value.0.attempts && r.value.0.attempts[l.attemptId] == db.attempts[l.attemptId]
  {
    hide Inv, Sweep, LeaseBinds, AfterFailure, AfterExpiry, Advances, SplitByBudget;
    SweepKeepsInv(db, now, target, limit);
    var ids := ExpiredRows(db, now, target, limit);
    if l.jobId in ids {
      JobRows(db, l.jobId);
    }
  }

  /** A beat in time is always acknowledged and moves the deadline a full length ahead, never back. */
  lemma BeatIsAcknowledged(db: Db, l: Lease, length: int, last: Time, clock: Time, now: Time)
    requires Inv(db) && LeaseOk(l) && 0 < length && Held(db, l, length, last, clock)
    requires clock <= now < last + length && now + length <= MAX_TIME
    ensures var r := Step(db, Heartbeat(l, length), now);
      && r.Ok? && r.value.answer == Acknowledged(true)
      && Held(r.value.db, l, length, now, now)
      && db.jobs[l.jobId].expiresAt.value <= r.value.db.jobs[l.jobId].expiresAt.value
  {
    hide Inv, LeaseOk, JobOk, Owned, SnapshotOf;
    OwnedOnValid(db, l, now);
    StartedRows(db, l.jobId, l.attemptId);
    CarrierHolds(db, l, now);
  }

  lemma CarrierHolds(db: Db, l: Lease, now: Time)
    requires Inv(db) && Carries(db, l) && db.jobs[l.jobId].status.Running?
    requires db.jobs[l.jobId].expiresAt.Some? && now < db.jobs[l.jobId].expiresAt.value
    ensures HoldsLease(db.jobs[l.jobId], l, now)
  {
    hide Inv, JobOk, AttemptOk;
    StartedRows(db, l.jobId, l.attemptId);
  }

  lemma TickKeepsHeld(db: Db, l: Lease, length: int, last: Time, clock: Time, t: Tick)
    requires Inv(db) && LeaseOk(l) && 0 < length && Held(db, l, length, last, clock)
    requires clock <= t.now < last + length
    requires t.op == Heartbeat(l, length) || Foreign(t.op, l)
    requires t.op == Heartbeat(l, length) ==> t.now + length <= MAX_TIME
    ensures var next := TickOnce(db, t);
      && Inv(next) && Held(next, l, length, if t.op == Heartbeat(l, length) then t.now else last, t.now)
      && db.jobs[l.jobId].expiresAt.value <= next.jobs[l.jobId].expiresAt.value
  {
    hide Inv, LeaseOk, Step, ArgumentsOk, Advances, LeaseBinds;
    if ArgumentsOk(t.op) {
      StepKeepsInv(db, t.op, t.now);
    }
    if t.op == Heartbeat(l, length) {
      HeartbeatArguments(l, length);
      BeatIsAcknowledged(db, l, length, last, clock, t.now);
    } else if ArgumentsOk(t.op) {
      ForeignLeavesAlone(db, t.op, t.now, l);
    }
  }

  lemma HeartbeatArguments(l: Lease, length: int)
    requires LeaseOk(l)
    ensures ArgumentsOk(Heartbeat(l, length))
  {
  }

  /** Keep-alive: no interleaving with other stores, their recoveries included, ever fences a lease beaten in time;
      every beat is acknowledged and the deadline never shrinks. */
  lemma {:induction false} KeepAlive(db: Db, l: Lease, length: int, last: Time, clock: Time, ticks: seq<Tick>, n: nat)
    requires Inv(db) && LeaseOk(l) && 0 < length && Held(db, l, length, last, clock)
    requires KeptAlive(l, length, last, clock, ticks) && n < |ticks|
    ensures var here, next := Ticks(db, ticks[..n]), Ticks(db, ticks[..n + 1]);
      && Carries(here, l) && here.jobs[l.jobId].status.Running? && Carries(next, l) && next.jobs[l.jobId].status.Running?
      && here.jobs[l.jobId].expiresAt.Some? && next.jobs[l.jobId].expiresAt.Some?
      && here.jobs[l.jobId].expiresAt.value <= next.jobs[l.jobId].expiresAt.value
      && (ticks[n].op == Heartbeat(l, length) ==>
            ArgumentsOk(ticks[n].op) && Step(here, ticks[n].op, ticks[n].now).Ok?
            && Step(here, ticks[n].op, ticks[n].now).value.answer == Acknowledged(true))
    decreases n
  {
    hide Inv, LeaseOk, Step, ArgumentsOk, TickOnce, Bound;
    var t := ticks[0];
    var mid := TickOnce(db, t);
    TickKeepsHeld(db, l, length, last, clock, t);
    var beat := t.op == Heartbeat(l, length);
    if n == 0 {
      assert ticks[..1] == [t] && Ticks(db, [t]) == Ticks(mid, []);
      if beat {
        HeartbeatArguments(l, length);
        BeatIsAcknowledged(db, l, length, last, clock, t.now);
      }
    } else {
      KeepAlive(mid, l, length, if beat then t.now else last, t.now, ticks[1..], n - 1);
      assert ticks[..n][1..] == ticks[1..][..n - 1] && ticks[..n + 1][1..] == ticks[1..][..n];
    }
  }

  /** One beat per interval; where a beat is missed, another store's recovery runs at that very moment. */
  function Schedule(l: Lease, length: int, interval: int, start: Time, delivered: seq<bool>): seq<Tick>
    requires 0 < interval && start + |delivered| * interval <= MAX_TIME
    decreases |delivered|
  {
    if delivered == [] then [] else
    var at := start + interval;
    assert at + |delivered[1..]| * interval == start + |delivered| * interval;
    [Tick(if delivered[0] then Heartbeat(l, length) else Recover(1000), at)] + Schedule(l, length, interval, at, delivered[1..])
  }

  /** A schedule that misses no two beats in a row stays within the lease. */
  lemma {:induction false} ScheduleIsInTime(
      l: Lease, length: int, interval: int, last: Time, clock: Time, delivered: seq<bool>)
    requires 0 < interval && 3 * interval <= length
    requires clock + |delivered| * interval + length <= MAX_TIME
    requires clock == last || (clock == last + interval && delivered != [] ==> delivered[0])
    requires clock == last || clock == last + interval
    requires forall i | 0 <= i < |delivered| - 1 :: delivered[i] || delivered[i + 1]
    ensures KeptAlive(l, length, last, clock, Schedule(l, length, interval, clock, delivered))
    decreases |delivered|
  {
    if delivered != [] {
      var at := clock + interval;
      var rest := delivered[1..];
      assert at + |rest| * interval == clock + |delivered| * interval;
      assert Schedule(l, length, interval, clock, delivered)[1..] == Schedule(l, length, interval, at, rest);
      ScheduleIsInTime(l, length, interval, if delivered[0] then at else last, at, rest);
    }
  }

  lemma {:induction false} ScheduleLength(l: Lease, length: int, interval: int, start: Time, delivered: seq<bool>)
    requires 0 < interval && start + |delivered| * interval <= MAX_TIME
    ensures |Schedule(l, length, interval, start, delivered)| == |delivered|
    decreases |delivered|
  {
    if delivered != [] {
      assert start + interval + |delivered[1..]| * interval == start + |delivered| * interval;
      ScheduleLength(l, length, interval, start + interval, delivered[1..]);
    }
  }

  /** The configured interval, at most a third of the lease, survives any single missed beat: the lease is still running after
      every tick of the schedule, its deadline never shrinks and every delivered beat is acknowledged. */
  lemma OneMissedBeatIsSurvivable(
      db: Db, l: Lease, length: int, interval: int, start: Time, delivered: seq<bool>, n: nat)
    requires Inv(db) && LeaseOk(l) && Held(db, l, length, start, start)
    requires 0 < interval && 3 * interval <= length && start + |delivered| * interval + length <= MAX_TIME
    requires forall i | 0 <= i < |delivered| - 1 :: delivered[i] || delivered[i + 1]
    requires n < |delivered|
    ensures var ticks := Schedule(l, length, interval, start, delivered);
      |ticks| == |delivered| &&
      var here, next := Ticks(db, ticks[..n]), Ticks(db, ticks[..n + 1]);
      && Carries(here, l) && here.jobs[l.jobId].status.Running? && Carries(next, l) && next.jobs[l.jobId].status.Running?
      && here.jobs[l.jobId].expiresAt.Some? && next.jobs[l.jobId].expiresAt.Some?
      && here.jobs[l.jobId].expiresAt.value <= next.jobs[l.jobId].expiresAt.value
      && (ticks[n].op == Heartbeat(l, length) ==>
            ArgumentsOk(ticks[n].op) && Step(here, ticks[n].op, ticks[n].now).Ok?
            && Step(here, ticks[n].op, ticks[n].now).value.answer == Acknowledged(true))
  {
    hide Inv, LeaseOk, Step, ArgumentsOk, Held, Ticks, Bound, KeptAlive, Schedule;
    ScheduleLength(l, length, interval, start, delivered);
    ScheduleIsInTime(l, length, interval, start, start, delivered);
    KeepAlive(db, l, length, start, start, Schedule(l, length, interval, start, delivered), n);
  }
}
