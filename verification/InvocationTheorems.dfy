/** The main results about the invocation store, stated for every run from the empty database: any number of stores, any
    clocks, any driver faults, any interleaving. */
module InvocationTheorems {
  import opened Common
  import opened InvocationText
  import opened InvocationRows
  import SortKeys
  import opened InvocationSteps
  import opened InvocationInvariant
  import opened InvocationReadBack
  import opened InvocationWorld
  import opened InvocationFencing
  import opened InvocationSelection

  function Reached(events: seq<Event>): World {
    Run(EMPTY_WORLD, events)
  }

  lemma ReachedIsOk(events: seq<Event>)
    ensures WorldOk(Reached(events)) && Inv(Reached(events).db)
  {
    hide WorldOk, Inv, Run;
    EmptyWorldIsOk();
    RunKeepsWorld(EMPTY_WORLD, events);
    WorldHasInv(Reached(events));
  }

  // ----- Fencing -----

  /** In every run each invocation starts running at most once and stops running at most once. */
  lemma EveryInvocationRunsOnce(events: seq<Event>, m: nat, n: nat, id: string)
    requires m < n < |events|
    ensures !(Enters(EMPTY_WORLD, events, m, id) && Enters(EMPTY_WORLD, events, n, id))
    ensures !(Leaves(EMPTY_WORLD, events, m, id) && Leaves(EMPTY_WORLD, events, n, id))
  {
    hide WorldOk, Enters, Leaves;
    EmptyWorldIsOk();
    RunsOnce(EMPTY_WORLD, events, m, n, id);
  }

  ghost predicate IsSettled(db: Db, id: string) {
    id in db.jobs && PhaseOf(db.jobs[id]).Settled?
  }

  ghost predicate SameRows(before: Db, after: Db, id: string) {
    && id in before.jobs && id in after.jobs && after.jobs[id] == before.jobs[id]
    && AttemptsOf(after, id) == AttemptsOf(before, id)
    && forall a | a in AttemptsOf(before, id) :: after.attempts[a] == before.attempts[a]
  }

  /** Once an invocation has stopped running, nothing that happens later changes its rows, and no lease for it, old or
      forged, gets an effect or an acknowledgement. */
  lemma SettledRowsAreFinal(past: seq<Event>, future: seq<Event>, id: string, op: Op, now: Time)
    ensures IsSettled(Reached(past).db, id) ==> SameRows(Reached(past).db, Reached(past + future).db, id)
    ensures
      IsSettled(Reached(past).db, id) && ArgumentsOk(op) && (op.Heartbeat? || op.Complete? || op.Fail?) && op.lease.jobId == id ==>
        var db := Reached(past + future).db;
        Step(db, op, now) == Ok(Effect(db, Acknowledged(false), NothingWritten)) || (op.Heartbeat? && Step(db, op, now) == Raised(BadValue))
  {
    hide WorldOk, Run, Inv, ArgumentsOk, Step;
    if IsSettled(Reached(past).db, id) {
      ReachedIsOk(past);
      RunInTwoParts(EMPTY_WORLD, past, future);
      SettledForever(Reached(past), future, id);
      forall a | a in AttemptsOf(Reached(past).db, id) ensures Reached(past + future).db.attempts[a] == Reached(past).db.attempts[a] {
        assert AttemptFor(Reached(past).db, a, id);
      }
      if ArgumentsOk(op) && (op.Heartbeat? || op.Complete? || op.Fail?) && op.lease.jobId == id {
        SettledIgnoresLeases(Reached(past + future).db, op, now);
      }
    }
  }

  // ----- Leases -----

  /** Call c was answered with a lease for the invocation. */
  predicate WasLeased(w: World, c: nat, id: string) {
    && c in w.calls && w.calls[c].progress.Done? && w.calls[c].progress.verdict.Returned?
    && w.calls[c].progress.verdict.answer.Leased? && w.calls[c].progress.verdict.answer.lease.jobId == id
  }

  /** Attempt ids are drawn at random: no two claims use the same. */
  ghost predicate FreshAttemptIds(w: World) {
    forall x, y | x in w.calls && y in w.calls && x != y && w.calls[x].op.Claim? && w.calls[y].op.Claim? ::
      w.calls[x].op.attemptId != w.calls[y].op.attemptId
  }

  /** At most one call is ever answered with a lease for an invocation. */
  lemma AtMostOneLease(events: seq<Event>, c: nat, d: nat, id: string)
    ensures var w := Reached(events);
      WasLeased(w, c, id) && WasLeased(w, d, id) ==>
        && w.calls[c].op.Claim? && w.calls[d].op.Claim? && w.calls[c].op.attemptId == w.calls[d].op.attemptId
        && (FreshAttemptIds(w) ==> c == d)
  {
    hide WorldOk, Run, Inv;
    var w := Reached(events);
    if WasLeased(w, c, id) && WasLeased(w, d, id) {
      ReachedIsOk(events);
      OneLeasePerInvocation(w, c, d);
    }
  }

  // ----- Acknowledgements -----

  ghost predicate HasAcknowledged(w: World, c: nat, id: string) {
    c in w.calls && Acknowledges(w.calls[c], id).Some?
  }

  ghost predicate Records(db: Db, id: string, s: Option<Settlement>) {
    id in db.jobs && exists a :: AttemptFor(db, a, id) && SettlementOf(db.jobs[id], db.attempts[a]) == s
  }

  /** Every acknowledgement of an invocation, direct or through read-back, is the settlement its rows record; so all of
      them agree in kind, time, result and error. */
  lemma AllAcknowledgementsAgree(events: seq<Event>, c: nat, d: nat, id: string)
    ensures var w := Reached(events); HasAcknowledged(w, c, id) ==> IsSettled(w.db, id) && Records(w.db, id, Acknowledges(w.calls[c], id))
    ensures var w := Reached(events);
      HasAcknowledged(w, c, id) && HasAcknowledged(w, d, id) ==> Acknowledges(w.calls[c], id) == Acknowledges(w.calls[d], id)
  {
    hide WorldOk, Run, Inv, Acknowledges, SettlementOf;
    var w := Reached(events);
    ReachedIsOk(events);
    if HasAcknowledged(w, c, id) {
      AcknowledgementsNameTheSettlement(w, c, id);
      if HasAcknowledged(w, d, id) {
        OneSettlementPerInvocation(w, c, d, id);
      }
    }
  }

  /** Whatever a call returned, with the times of its own clock reading, the tables bear out then and ever after: the job
      enqueued, the lease and every beat up to its time and deadline, the settlement, the recovered rows. */
  lemma ReturnsAreBorneOut(past: seq<Event>, future: seq<Event>, c: nat)
    ensures c in Reached(past).calls && Reached(past).calls[c].progress.Done? && Reached(past).calls[c].progress.verdict.Returned? ==>
      var call := Reached(past).calls[c];
      && Agrees(Reached(past + future).db, call.op, call.progress.verdict.answer, call.progress.receipt)
      && Fits(call.op, call.now, call.progress.verdict.answer, call.progress.receipt)
  {
    hide WorldOk, Run, Inv, Agrees, Advances, Fits;
    var w, call := Reached(past), if c in Reached(past).calls then Reached(past).calls[c] else Call(0, Recover(1), 0, Ended(Rejected));
    if c in w.calls && call.progress.Done? && call.progress.verdict.Returned? {
      ReachedIsOk(past);
      ReachedIsOk(past + future);
      RunInTwoParts(EMPTY_WORLD, past, future);
      RunKeepsWorld(w, future);
      ReturnedAgrees(w, c);
      AgreesPersists(w.db, Reached(past + future).db, call.op, call.progress.verdict.answer, call.progress.receipt);
    }
  }

  lemma ReturnedAgrees(w: World, c: nat)
    requires WorldOk(w) && c in w.calls && w.calls[c].progress.Done? && w.calls[c].progress.verdict.Returned?
    ensures Agrees(w.db, w.calls[c].op, w.calls[c].progress.verdict.answer, w.calls[c].progress.receipt)
    ensures Fits(w.calls[c].op, w.calls[c].now, w.calls[c].progress.verdict.answer, w.calls[c].progress.receipt)
  {
    hide Inv, Agrees, Fits;
    assert CallOk(w.db, w.calls[c]);
  }

  /** Beats and leases that were acknowledged, in columns, at any time later: the attempt was heard of no earlier than at the call's
      reading, and its deadline is no earlier than a full length behind it. */
  lemma BeatsAreBorneOut(past: seq<Event>, future: seq<Event>, c: nat)
    ensures c in Reached(past).calls ==>
      var call := Reached(past).calls[c]; var db := Reached(past + future).db;
      call.progress.Done? && call.progress.verdict.Returned? ==>
        && (call.op.Heartbeat? && call.progress.verdict.answer == Acknowledged(true) ==>
              var l := call.op.lease;
              && l.attemptId in db.attempts && db.attempts[l.attemptId].jobId == l.jobId
              && db.attempts[l.attemptId].tokenDigest == Sha256(l.token)
              && call.now <= db.attempts[l.attemptId].heartbeatAt && call.now + call.op.length <= db.attempts[l.attemptId].expiresAt)
        && (call.op.Claim? && call.progress.verdict.answer.Leased? ==>
              && call.op.attemptId in db.attempts && db.attempts[call.op.attemptId].tokenDigest == Sha256(call.op.token)
              && db.attempts[call.op.attemptId].startedAt == call.now
              && call.now <= db.attempts[call.op.attemptId].heartbeatAt
              && call.now + call.op.length <= db.attempts[call.op.attemptId].expiresAt)
  {
    hide WorldOk, Run, Inv;
    ReturnsAreBorneOut(past, future, c);
  }

  predicate HasReturned(w: World, c: nat) {
    c in w.calls && w.calls[c].progress.Done? && w.calls[c].progress.verdict.Returned?
  }

  /** At the very moment a call returns, straight from its COMMIT or after reading back, the durable rows are exactly the
      intended ones: they pass every comparison read-back makes, with the same answer. */
  lemma ReturnsAreDurable(events: seq<Event>, e: Event, c: nat)
    ensures var w := Reached(events); var next := After(w, e);
      HasReturned(next, c) && !HasReturned(w, c) ==>
        var call := next.calls[c];
        ReadBack(next.db, call.op, call.progress.verdict.answer, call.progress.receipt) == Some(call.progress.verdict.answer)
  {
    hide Run, Inv, Step, Transact, Reconcile, ReadBack, ArgumentsOk, Agrees, Fits;
    var w := Reached(events);
    ReachedIsOk(events);
    match e
    case Calls(d, s, op, now, script) =>
      if d == c && d !in w.calls && s in w.stores && ArgumentsOk(op) {
        TransactOutcome(w.stores[s], w.db, op, now, script);
        DurableStepIsConfirmed(w.db, op, now);
      }
    case ReadsBack(d, read, close) =>
      if d == c && d in w.calls && w.calls[d].progress.Pending? && w.calls[d].store in w.stores {
        var call := w.calls[d];
        assert CallOk(w.db, call);
        ReconcileOutcome(w.stores[call.store], w.db, call.op, call.now, call.progress, read, close);
      }
    case _ =>
  }

  // ----- Unacknowledged commits -----

  ghost predicate EndsAs(w: World, c: nat, v: Verdict) {
    c in w.calls && w.calls[c].progress.Done? && w.calls[c].progress.verdict == v
  }

  /** In every reachable world: a call that reports the transaction as not applied left no trace; one whose outcome cannot
      be reconciled has already poisoned its store; and a transaction is open only on a poisoned store. */
  lemma UnacknowledgedCommitsAreSound(events: seq<Event>, c: nat, s: nat, op: Op, now: Time, script: Script)
    ensures var w := Reached(events); var next := After(w, Calls(c, s, op, now, script));
      c !in w.calls && s in w.stores ==>
        && (EndsAs(next, c, RolledBack) ==> next.db == w.db)
        && (EndsAs(next, c, Ambiguous) || EndsAs(next, c, Signalled(true)) ==> next.stores[s].poisoned)
        && (next.db == w.db || (ArgumentsOk(op) && Step(w.db, op, now).Ok? && next.db == Step(w.db, op, now).value.db))
    ensures forall k | k in Reached(events).stores && Reached(events).stores[k].transactionOpen :: Reached(events).stores[k].poisoned
  {
    hide Run, Inv, Step, Transact, ArgumentsOk, CallOk;
    var w := Reached(events);
    ReachedIsOk(events);
    if c !in w.calls && s in w.stores && ArgumentsOk(op) {
      TransactOutcome(w.stores[s], w.db, op, now, script);
    }
  }

  /** Quarantine is for good: after any further events the store refuses every call and touches nothing. */
  lemma PoisonedStoresStayOut(past: seq<Event>, future: seq<Event>, s: nat, c: nat, op: Op, now: Time, script: Script)
    ensures s in Reached(past).stores && Reached(past).stores[s].poisoned ==>
      var w := Reached(past + future); var next := After(w, Calls(c, s, op, now, script));
      && s in w.stores && w.stores[s].poisoned
      && (c !in w.calls && ArgumentsOk(op) ==> next.db == w.db && EndsAs(next, c, Quarantined))
  {
    hide WorldOk, Run, Inv, Transact, Reconcile, ArgumentsOk;
    if s in Reached(past).stores && Reached(past).stores[s].poisoned {
      ReachedIsOk(past);
      RunInTwoParts(EMPTY_WORLD, past, future);
      PoisonIsForever(Reached(past), future, s);
    }
  }

  // ----- Enqueueing, claims and recovery -----

  /** In every reachable database enqueue answers in one of three ways: a new waiting job, the one existing row with exactly
      this request, or a conflict; only the first changes anything. */
  lemma EnqueuesAddOrMatch(events: seq<Event>, s: JobSpec, now: Time)
    ensures SpecOk(s) ==>
      var db := Reached(events).db; var r := EnqueueStep(db, s, now);
      if Colliding(db, s) == {} then
        r.Ok? && r.value.answer.Enqueued? && r.value.db == Db(db.jobs[s.id := r.value.answer.job], db.attempts) && s.id !in db.jobs
        && ExistingMatches(r.value.answer.job, s) && r.value.answer.job.status.Queued?
      else if exists k :: Colliding(db, s) == {k} && ExistingMatches(db.jobs[k], s) then
        r.Ok? && r.value.db == db && r.value.answer.Enqueued? && r.value.answer.job in db.jobs.Values
        && ExistingMatches(r.value.answer.job, s)
      else r == Raised(Conflict)
  {
    hide WorldOk, Run, Inv, SpecOk, ExistingMatches, Collides;
    ReachedIsOk(events);
    var db := Reached(events).db;
    if SpecOk(s) {
      EnqueueKeepsInv(db, s, now);
      if Colliding(db, s) == {} {
        EnqueueAddsOneWaitingJob(db, s, now, now);
      } else if |Colliding(db, s)| == 1 {
        var k := Only(Colliding(db, s));
        assert k in Colliding(db, s);
        JobRows(db, k);
        assert forall m :: Colliding(db, s) == {m} ==> m == k;
      } else {
        assert forall m :: Colliding(db, s) != {m};
      }
    }
  }

  ghost predicate NoCandidates(db: Db, now: Time, target: Option<string>) {
    forall k | k in db.jobs :: !IsCandidate(db.jobs[k], now, target)
  }

  /** In every reachable database a claim takes the first never-attempted available job by priority, availability, creation
      and id; answers none exactly when there is none; raises clock regression exactly when that job was updated later; or
      fails exactly when its attempt id or its token is already in use. */
  lemma ClaimsTakeTheFirst(events: seq<Event>, op: Op, now: Time)
    requires op.Claim?
    ensures ArgumentsOk(op) && Deadline(now, op.length).Some? ==>
        var db := Reached(events).db; var r := Step(db, op, now);
        && (r.Ok? && r.value.answer.NoLease? <==> NoCandidates(db, now, op.target))
        && (r.Ok? && r.value.answer.Leased? ==> FirstCandidate(db, r.value.answer.lease.jobId, now, op.target))
        && (r.Ok? ==> r.value.answer.NoLease? || r.value.answer.Leased?)
        && (r == Raised(ClockRegression) <==> exists id :: FirstCandidate(db, id, now, op.target) && now < db.jobs[id].updatedAt)
        && (r == Raised(Internal) <==>
              NamesClash(db, op, now) && exists id :: FirstCandidate(db, id, now, op.target) && db.jobs[id].updatedAt <= now)
        && (r.Raised? ==> r.fault.ClockRegression? || r.fault.Internal?)
  {
    hide WorldOk, Run, Inv, Step, ArgumentsOk, FirstCandidate, NamesClash;
    ReachedIsOk(events);
    if ArgumentsOk(op) && Deadline(now, op.length).Some? {
      ClaimTakesTheFirst(Reached(events).db, op, now);
    }
  }

  /** In every reachable database a recovery with limit k fences exactly the first k expired leases, reports them split by
      attempt budget, and makes no job claimable, now or later. */
  lemma RecoveriesFenceTheFirst(events: seq<Event>, limit: nat, now: Time) returns (ids: seq<string>)
    requires 1 <= limit <= 1000
    ensures FirstExpired(Reached(events).db, ids, limit, now)
    ensures var db := Reached(events).db; var r := Step(db, Recover(limit), now);
      r.Ok? && r.value.answer.Recovered? && SplitByBudget(db, ids, r.value.answer.summary)
    ensures var db := Reached(events).db; var r := Step(db, Recover(limit), now);
      && (forall id | id in ids :: IsSettled(r.value.db, id))
      && (forall k, t | k in r.value.db.jobs && IsCandidate(r.value.db.jobs[k], t, None) :: k in db.jobs && r.value.db.jobs[k] == db.jobs[k])
  {
    hide WorldOk, Run, Inv, Step, SplitByBudget, IsCandidate;
    ReachedIsOk(events);
    var db := Reached(events).db;
    ids := RecoveryFencesTheFirst(db, limit, now);
    var next := Step(db, Recover(limit), now).value.db;
    forall k | k in ids ensures IsSettled(next, k) {
      RecoveryMakesNothingClaimable(db, next, ids, now, k, now);
    }
    forall k, t | k in next.jobs && IsCandidate(next.jobs[k], t, None) ensures k in db.jobs && next.jobs[k] == db.jobs[k] {
      RecoveryMakesNothingClaimable(db, next, ids, now, k, t);
    }
  }

  // ----- Keep-alive -----

  lemma NewLeaseIsOk(j: Job, op: Op, now: Time, deadline: Time)
    requires op.Claim? && ArgumentsOk(op) && JobOk(j) && FirstAttemptOnly(j) && j.attemptsStarted == 0 && now < deadline
    ensures LeaseOk(NewLease(j, op.worker, op.attemptId, op.token, now, deadline))
  {
    hide Acceptable, ErrorOk;
  }

  /** A lease just claimed is held for its full length. */
  lemma ClaimIsHeld(db: Db, op: Op, now: Time)
    requires Inv(db) && op.Claim? && ArgumentsOk(op) && Step(db, op, now).Ok? && Step(db, op, now).value.answer.Leased?
    ensures var next, l := Step(db, op, now).value.db, Step(db, op, now).value.answer.lease;
      Inv(next) && 0 < op.length && LeaseOk(l) && Held(next, l, op.length, now, now)
  {
    hide Inv, ArgumentsOk, ClaimStep, Sweep, CandidateKeys, TokenInUse, Advances, Bound, JobOk, NewLease, LeaseOk;
    ClaimOnValid(db, op, now);
    var keys := CandidateKeys(db, now, op.target);
    if keys != {} {
      LeastCandidate(db, now, op.target);
      var id := SortKeys.Least(keys).id;
      JobRows(db, id);
      NewLeaseIsOk(db.jobs[id], op, now, now + op.length);
      NewLeaseFields(db.jobs[id], op, now, now + op.length);
    }
  }

  lemma NewLeaseFields(j: Job, op: Op, now: Time, deadline: Time)
    requires op.Claim?
    ensures var l := NewLease(j, op.worker, op.attemptId, op.token, now, deadline);
      l.jobId == j.id && l.attemptId == op.attemptId && l.token == op.token
  {
  }

  /** From any reachable database on: a lease that was claimed and then beaten at gaps strictly shorter than its length, on a
      clock that does not run backward, is never fenced by anybody's recovery, gets every beat acknowledged, and its deadline
      never shrinks. */
  lemma LeasesBeatenInTimeLive(events: seq<Event>, op: Op, now: Time, ticks: seq<Tick>, n: nat)
    requires op.Claim? && n < |ticks|
    ensures ArgumentsOk(op) && Step(Reached(events).db, op, now).Ok? && Step(Reached(events).db, op, now).value.answer.Leased? ==>
      var claimed := Step(Reached(events).db, op, now).value;
      var l := claimed.answer.lease;
      KeptAlive(l, op.length, now, now, ticks) ==>
        var here, next := Ticks(claimed.db, ticks[..n]), Ticks(claimed.db, ticks[..n + 1]);
        && Carries(here, l) && here.jobs[l.jobId].status.Running? && Carries(next, l) && next.jobs[l.jobId].status.Running?
        && here.jobs[l.jobId].expiresAt.Some? && next.jobs[l.jobId].expiresAt.Some?
        && here.jobs[l.jobId].expiresAt.value <= next.jobs[l.jobId].expiresAt.value
        && (ticks[n].op == Heartbeat(l, op.length) ==>
              ArgumentsOk(ticks[n].op) && Step(here, ticks[n].op, ticks[n].now).Ok?
              && Step(here, ticks[n].op, ticks[n].now).value.answer == Acknowledged(true))
  {
    hide WorldOk, Run, Inv, Step, ArgumentsOk, LeaseOk, Held, KeptAlive, Ticks, Bound;
    var db := Reached(events).db;
    ReachedIsOk(events);
    if ArgumentsOk(op) && Step(db, op, now).Ok? && Step(db, op, now).value.answer.Leased? {
      ClaimIsHeld(db, op, now);
      var claimed := Step(db, op, now).value;
      if KeptAlive(claimed.answer.lease, op.length, now, now, ticks) {
        KeepAlive(claimed.db, claimed.answer.lease, op.length, now, now, ticks, n);
      }
    }
  }
}
