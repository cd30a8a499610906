/** When a lease ends: its deadline moves by its own beats only, and behind the last one anybody's recovery fences it. */
module InvocationDeadlines {
  import opened Common
  import opened SortKeys
  import opened InvocationText
  import opened InvocationRows
  import opened InvocationSteps
  import opened InvocationInvariant
  import opened InvocationReadBack
  import opened InvocationWorld
  import opened InvocationFencing
  import opened InvocationSelection
  import opened InvocationTheorems
  import opened InvocationOperations

  /** The event is not a heartbeat with the lease's token. */
  predicate IsNoBeat(e: Event, l: Lease) {
    e.Calls? && e.op.Heartbeat? ==> e.op.lease.token != l.token
  }

  /** The lease's rows are as they were, or its job has stopped running for good. */
  ghost predicate StaysOrSettles(db: Db, next: Db, l: Lease) {
    && l.jobId in db.jobs && l.jobId in next.jobs && l.attemptId in db.attempts && l.attemptId in next.attempts
    && ((next.jobs[l.jobId] == db.jobs[l.jobId] && next.attempts[l.attemptId] == db.attempts[l.attemptId])
        || PhaseOf(next.jobs[l.jobId]).Settled?)
  }

  lemma SweptStaysOrSettles(db: Db, next: Db, ids: seq<string>, now: Time, l: Lease)
    requires Inv(db) && Carries(db, l) && Fenced(db, next, ids, now)
    requires forall id | id in ids :: id in db.jobs && IsExpired(db.jobs[id], now, None)
    ensures StaysOrSettles(db, next, l)
    ensures l.jobId in ids ==> PhaseOf(next.jobs[l.jobId]).Settled?
  {
    hide Inv, JobOk, AttemptOk;
    StartedRows(db, l.jobId, l.attemptId);
  }

  /** A step other than a beat of the lease leaves its rows alone or settles its job. */
  lemma StepStaysOrSettles(db: Db, op: Op, now: Time, l: Lease)
    requires Inv(db) && ArgumentsOk(op) && Carries(db, l) && db.jobs[l.jobId].status.Running?
    requires op.Heartbeat? ==> op.lease.token != l.token
    ensures var r := Step(db, op, now); r.Ok? ==> StaysOrSettles(db, r.value.db, l)
  {
    hide Inv, SpecOk, LeaseOk, Acceptable, Sweep, ClaimStep, JobOk, AttemptOk, StoredError, Owned, Precedes, CandidateKeys, Fenced,
         ExpiredRows, SplitByBudget, Advances, TokenInUse, IsCandidate, ExistingMatches;
    StartedRows(db, l.jobId, l.attemptId);
    match op
    case Enqueue(s) =>
      assert s.id == l.jobId ==> l.jobId in Colliding(db, s);
    case Claim(_, target, _, attemptId, _) =>
      ClaimOnValid(db, op, now);
      SweepKeepsInv(db, now, target, ClaimSweepLimit(op));
      var swept := Sweep(db, now, target, ClaimSweepLimit(op)).value.0;
      SweptStaysOrSettles(db, swept, ExpiredRows(db, now, target, ClaimSweepLimit(op)), now, l);
      SameAttemptIds(db, swept, ExpiredRows(db, now, target, ClaimSweepLimit(op)), now);
      if CandidateKeys(db, now, target) != {} {
        LeastCandidate(db, now, target);
        CandidateIsIdle(db.jobs[Least(CandidateKeys(db, now, target)).id], now, target);
      }
    case Recover(limit) =>
      var most: Option<nat> := Some(limit);
      SweepKeepsInv(db, now, None, most);
      SweptStaysOrSettles(db, Sweep(db, now, None, most).value.0, ExpiredRows(db, now, None, most), now, l);
    case _ =>
      OwnedOnValid(db, op.lease, now);
      CurrentDigest(db, l, now);
  }

  lemma SameAttemptIds(db: Db, next: Db, ids: seq<string>, now: Time)
    requires Fenced(db, next, ids, now)
    ensures next.attempts.Keys == db.attempts.Keys
  {
  }

  lemma CandidateIsIdle(j: Job, now: Time, target: Option<string>)
    requires IsCandidate(j, now, target)
    ensures !j.status.Running?
  {
  }

  lemma EventStaysOrSettles(w: World, e: Event, l: Lease)
    requires WorldOk(w) && Carries(w.db, l) && w.db.jobs[l.jobId].status.Running? && IsNoBeat(e, l)
    ensures StaysOrSettles(w.db, After(w, e).db, l)
  {
    hide Inv, CallOk, Step, Transact, Reconcile, ArgumentsOk;
    if e.Calls? && e.call !in w.calls && e.store in w.stores && ArgumentsOk(e.op) {
      TransactOutcome(w.stores[e.store], w.db, e.op, e.now, e.script);
      StepStaysOrSettles(w.db, e.op, e.now, l);
    }
  }

  lemma StandingStays(db: Db, l: Lease)
    requires Carries(db, l)
    ensures StaysOrSettles(db, db, l)
  {
  }

  lemma SettledStays(db: Db, mid: Db, next: Db, l: Lease)
    requires StaysOrSettles(db, mid, l) && Advances(mid, next) && PhaseOf(mid.jobs[l.jobId]).Settled?
    ensures StaysOrSettles(db, next, l) && PhaseOf(next.jobs[l.jobId]).Settled?
  {
    assert JobAdvances(mid.jobs[l.jobId], next.jobs[l.jobId]);
  }

  lemma StillCarries(db: Db, next: Db, l: Lease)
    requires Carries(db, l) && db.jobs[l.jobId].status.Running?
    requires StaysOrSettles(db, next, l) && !PhaseOf(next.jobs[l.jobId]).Settled?
    ensures Carries(next, l) && next.jobs[l.jobId].status.Running?
    ensures next.jobs[l.jobId] == db.jobs[l.jobId] && next.attempts[l.attemptId] == db.attempts[l.attemptId]
  {
  }

  lemma StaysOn(db: Db, mid: Db, next: Db, l: Lease)
    requires StaysOrSettles(db, mid, l) && StaysOrSettles(mid, next, l) && !PhaseOf(mid.jobs[l.jobId]).Settled?
    ensures StaysOrSettles(db, next, l)
  {
  }

  lemma KnownRows(db: Db, next: Db, l: Lease)
    requires StaysOrSettles(db, next, l)
    ensures l.jobId in db.jobs && l.jobId in next.jobs && l.attemptId in next.attempts
  {
  }

  /** In every run without a beat of the lease: its rows stay as they are until its job stops running. */
  lemma {:induction false} DeadlinesMoveByBeatsOnly(w: World, events: seq<Event>, l: Lease)
    requires WorldOk(w) && Carries(w.db, l) && w.db.jobs[l.jobId].status.Running?
    requires forall e | e in events :: IsNoBeat(e, l)
    ensures StaysOrSettles(w.db, Run(w, events).db, l)
    decreases |events|
  {
    hide WorldOk, After, Advances, IsNoBeat, Carries, StaysOrSettles;
    if events == [] {
      StandingStays(w.db, l);
    } else {
      var front, e := events[..|events| - 1], events[|events| - 1];
      assert forall x | x in front :: x in events;
      DeadlinesMoveByBeatsOnly(w, front, l);
      RunKeepsWorld(w, front);
      var mid := Run(w, front);
      AfterKeepsWorld(mid, e);
      KnownRows(w.db, mid.db, l);
      if PhaseOf(mid.db.jobs[l.jobId]).Settled? {
        SettledStays(w.db, mid.db, After(mid, e).db, l);
      } else {
        StillCarries(w.db, mid.db, l);
        EventStaysOrSettles(mid, e, l);
        StaysOn(w.db, mid.db, After(mid, e).db, l);
      }
    }
  }

  /** The heartbeat's transaction reached the disk, acknowledged to its caller or not. */
  ghost predicate Beats(w: World, c: nat, s: nat, l: Lease, length: int, now: Time, script: Script) {
    && c !in w.calls && s in w.stores && ArgumentsOk(Heartbeat(l, length))
    && var r := Step(w.db, Heartbeat(l, length), now);
    && r.Ok? && r.value.answer == Acknowledged(true) && After(w, Calls(c, s, Heartbeat(l, length), now, script)).db == r.value.db
  }

  /** How long a lease lasts. Behind its last durable beat at time t with length n, in every run whatsoever, its job has stopped
      running, or its deadline is exactly the later of t + n and the deadline before that beat. */
  lemma LastBeatDecides(past: seq<Event>, c: nat, s: nat, l: Lease, length: int, now: Time, script: Script, future: seq<Event>)
    requires forall e | e in future :: IsNoBeat(e, l)
    ensures var w := Reached(past); var last := Calls(c, s, Heartbeat(l, length), now, script);
      Beats(w, c, s, l, length, now, script) ==>
        && l.jobId in w.db.jobs && w.db.jobs[l.jobId].expiresAt.Some?
        && var next := Run(After(w, last), future);
        && l.jobId in next.db.jobs
        && (IsSettled(next.db, l.jobId)
            || (next.db.jobs[l.jobId].status.Running?
                && next.db.jobs[l.jobId].expiresAt == Some(
                     if w.db.jobs[l.jobId].expiresAt.value < now + length then now + length else w.db.jobs[l.jobId].expiresAt.value)
                && next.db.jobs[l.jobId].heartbeatAt == Some(now)))
  {
    hide WorldOk, Run, Inv, Step, ArgumentsOk, After, IsNoBeat, Bound;
    var w := Reached(past);
    var last := Calls(c, s, Heartbeat(l, length), now, script);
    ReachedIsOk(past);
    if Beats(w, c, s, l, length, now, script) {
      BeatsWriteTheDeadline(past, l, length, now);
      HoldersActExactlyWhen(past, Heartbeat(l, length), now);
      BeatenIsCarried(w.db, l, length, now);
      AfterKeepsWorld(w, last);
      DeadlinesMoveByBeatsOnly(After(w, last), future, l);
    }
  }

  lemma BeatenIsCarried(db: Db, l: Lease, length: int, now: Time)
    requires Inv(db) && ArgumentsOk(Heartbeat(l, length))
    requires Step(db, Heartbeat(l, length), now).Ok? && Step(db, Heartbeat(l, length), now).value.answer == Acknowledged(true)
    ensures var next := Step(db, Heartbeat(l, length), now).value.db; Carries(next, l) && next.jobs[l.jobId].status.Running?
  {
    hide Inv, LeaseOk, Owned, JobOk, AttemptOk;
    OwnedOnValid(db, l, now);
    if l.jobId in db.jobs && l.attemptId in db.attempts && db.attempts[l.attemptId].jobId == l.jobId {
      StartedRows(db, l.jobId, l.attemptId);
    }
  }

  /** A lease that is not beaten any more is fenced: at any reading from its deadline on, a recovery with room for all expired
      leases settles its job. */
  lemma IdleLeasesAreFenced(past: seq<Event>, l: Lease, future: seq<Event>, limit: nat, at: Time)
    requires 1 <= limit <= 1000 && forall e | e in future :: IsNoBeat(e, l)
    ensures var w := Reached(past);
      Carries(w.db, l) && w.db.jobs[l.jobId].status.Running? && w.db.jobs[l.jobId].expiresAt.Some?
      && w.db.jobs[l.jobId].expiresAt.value <= at ==>
        var here := Reached(past + future); var r := Step(here.db, Recover(limit), at);
        r.Ok? && (|ExpiredJobs(here.db, at)| <= limit ==> IsSettled(r.value.db, l.jobId))
  {
    hide WorldOk, Run, Inv, Step, IsNoBeat, LeaseBinds, IsFenced, ExpiredJobs;
    var w := Reached(past);
    ReachedIsOk(past);
    if Carries(w.db, l) && w.db.jobs[l.jobId].status.Running? && w.db.jobs[l.jobId].expiresAt.Some?
       && w.db.jobs[l.jobId].expiresAt.value <= at {
      RunInTwoParts(EMPTY_WORLD, past, future);
      DeadlinesMoveByBeatsOnly(w, future, l);
      var here := Reached(past + future);
      ReachedIsOk(past + future);
      RecoveriesWithRoomFenceAll(past + future, limit, at, l.jobId);
      var next := Step(here.db, Recover(limit), at).value.db;
      StepKeepsInv(here.db, Recover(limit), at);
      if IsSettled(here.db, l.jobId) {
        SettledStays(w.db, here.db, next, l);
      } else {
        CarriedIsStarted(w.db, l);
        if |ExpiredJobs(here.db, at)| <= limit {
          FencedIsSettled(here.db.jobs[l.jobId], next.jobs[l.jobId], at);
        }
      }
    }
  }

  lemma FencedIsSettled(j: Job, m: Job, now: Time)
    requires IsFenced(j, m, now) && j.attemptsStarted == 1
    ensures PhaseOf(m).Settled?
  {
  }
}
