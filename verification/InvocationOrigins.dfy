/** Where rows come from: every column of every reachable row was written by some call. */
module InvocationOrigins {
  import opened Common
  import opened SortKeys
  import opened InvocationText
  import opened InvocationRows
  import opened InvocationSteps
  import opened InvocationInvariant
  import opened InvocationReadBack
  import opened InvocationWorld
  import opened InvocationFencing
  import opened InvocationSelection
  import opened InvocationTheorems
  import opened InvocationOperations

  /** The call asked for exactly this row, at the time it was created. */
  predicate Requests(op: Op, now: Time, j: Job) {
    op == Enqueue(RequestOf(j)) && now == j.createdAt
  }

  /** The claim drew exactly this attempt's names, at the time it started. */
  predicate Starts(op: Op, now: Time, a: Attempt) {
    && op.Claim? && now == a.startedAt && op.attemptId == a.id && op.worker == a.worker && Sha256(op.token) == a.tokenDigest
    && (op.target.Some? ==> op.target.value == a.jobId)
  }

  /** The attempt's deadline lies a full length behind its claim or one of its beats. */
  predicate Extends(op: Op, now: Time, a: Attempt) {
    || (op.Claim? && Sha256(op.token) == a.tokenDigest && a.expiresAt == now + op.length)
    || (op.Heartbeat? && Sha256(op.lease.token) == a.tokenDigest && a.expiresAt == now + op.length)
  }

  /** The attempt was last heard of at its claim or at one of its beats. */
  predicate Hears(op: Op, now: Time, a: Attempt) {
    || (op.Claim? && Sha256(op.token) == a.tokenDigest && a.heartbeatAt == now)
    || (op.Heartbeat? && Sha256(op.lease.token) == a.tokenDigest && a.heartbeatAt == now)
  }

  /** The attempt ended by its holder's completion or failure, with that result or error, or by somebody's sweep. */
  predicate Ends(op: Op, now: Time, a: Attempt) {
    && a.finishedAt == Some(now)
    && (match a.status
        case AttemptSucceeded => op.Complete? && Sha256(op.lease.token) == a.tokenDigest && op.result == a.resultRef
        case AttemptFailed => op.Fail? && Sha256(op.lease.token) == a.tokenDigest && a.error == Some(StoredError(op.error))
        case AttemptExpired => (op.Recover? || op.Claim?) && a.error == Some(EXPIRY_REASON)
        case _ => false)
  }

  /** What one step may do to the origins of rows. */
  ghost predicate KeepsOrigins(db: Db, next: Db, op: Op, now: Time) {
    && (forall k | k in next.jobs ::
          || (k in db.jobs && RequestOf(next.jobs[k]) == RequestOf(db.jobs[k]) && next.jobs[k].createdAt == db.jobs[k].createdAt)
          || Requests(op, now, next.jobs[k]))
    && (forall a | a in next.attempts :: KeepsOrigin(db, next.attempts[a], a, op, now))
  }

  ghost predicate KeepsOrigin(db: Db, b: Attempt, a: string, op: Op, now: Time) {
    if a in db.attempts then
      && SameStart(db.attempts[a], b)
      && (b.expiresAt == db.attempts[a].expiresAt || Extends(op, now, b))
      && (b.heartbeatAt == db.attempts[a].heartbeatAt || Hears(op, now, b))
      && (b.status.AttemptRunning? || b == db.attempts[a] || Ends(op, now, b))
    else Starts(op, now, b) && Extends(op, now, b) && Hears(op, now, b) && b.status.AttemptRunning?
  }

  lemma StandingKeepsOrigins(db: Db, op: Op, now: Time)
    ensures KeepsOrigins(db, db, op, now)
  {
  }

  lemma OldJobsKeepTheirRequest(db: Db, next: Db)
    requires Advances(db, next)
    ensures forall k | k in db.jobs ::
      k in next.jobs && RequestOf(next.jobs[k]) == RequestOf(db.jobs[k]) && next.jobs[k].createdAt == db.jobs[k].createdAt
  {
    hide PhaseOf, PhaseLeq;
    forall k | k in db.jobs
      ensures k in next.jobs && RequestOf(next.jobs[k]) == RequestOf(db.jobs[k]) && next.jobs[k].createdAt == db.jobs[k].createdAt
    {
      assert JobAdvances(db.jobs[k], next.jobs[k]);
    }
  }

  /** Replacing one job and one attempt. */
  lemma PutKeepsOrigins(db: Db, k: string, j: Job, a: string, b: Attempt, op: Op, now: Time)
    requires k in db.jobs && RequestOf(j) == RequestOf(db.jobs[k]) && j.createdAt == db.jobs[k].createdAt
    requires a in db.attempts && KeepsOrigin(db, b, a, op, now)
    ensures KeepsOrigins(db, Db(db.jobs[k := j], db.attempts[a := b]), op, now)
  {
    hide Extends, Hears, Ends, Starts;
  }

  lemma HolderKeepsOrigins(events: seq<Event>, op: Op, now: Time)
    requires ArgumentsOk(op) && (op.Heartbeat? || op.Complete? || op.Fail?)
    ensures var db := Reached(events).db; var r := Step(db, op, now); r.Ok? ==> KeepsOrigins(db, r.value.db, op, now)
  {
    hide Run, Inv, Step, LeaseOk, SpecOk, Acceptable, StoredError, JobOk, Advances, KeepsOrigins;
    var db := Reached(events).db;
    var r := Step(db, op, now);
    HoldersActExactlyWhen(events, op, now);
    ReachedIsOk(events);
    HolderAnswers(db, op, now);
    if r.Ok? && r.value.answer == Acknowledged(true) {
      CurrentAttemptHasDigest(db, op.lease, now);
      match op {
        case Heartbeat(l, length) => BeatsWriteTheDeadline(events, l, length, now);
        case Complete(l, result) => CompletionsWriteTheResult(events, l, result, now);
        case Fail(l, error, retryAt) => FailuresWriteTheError(events, l, error, retryAt, now);
      }
      var j, b := r.value.db.jobs[op.lease.jobId], r.value.db.attempts[op.lease.attemptId];
      assert r.value.db == Db(db.jobs[op.lease.jobId := j], db.attempts[op.lease.attemptId := b]);
      PutKeepsOrigins(db, op.lease.jobId, j, op.lease.attemptId, b, op, now);
    } else if r.Ok? {
      StandingKeepsOrigins(db, op, now);
    }
  }

  lemma HolderAnswers(db: Db, op: Op, now: Time)
    requires ArgumentsOk(op) && (op.Heartbeat? || op.Complete? || op.Fail?)
    ensures var r := Step(db, op, now); r.Ok? ==> r.value.answer == Acknowledged(true) || r.value.answer == Acknowledged(false)
  {
    hide LeaseOk, Acceptable, Owned, StoredError;
  }

  lemma CurrentAttemptHasDigest(db: Db, l: Lease, now: Time)
    requires Inv(db) && IsCurrent(db, l, now) && IsGenuine(db, l)
    ensures db.attempts[l.attemptId].tokenDigest == Sha256(l.token) && db.attempts[l.attemptId].status.AttemptRunning?
  {
    hide Inv, JobOk, AttemptOk;
    GenuineIsBound(db, l, now);
    StartedRows(db, l.jobId, l.attemptId);
  }

  lemma StepKeepsOrigins(events: seq<Event>, op: Op, now: Time)
    requires ArgumentsOk(op)
    ensures var db := Reached(events).db; var r := Step(db, op, now); r.Ok? ==> KeepsOrigins(db, r.value.db, op, now)
  {
    hide Run, Inv, Step, LeaseOk, SpecOk, Acceptable, StoredError, Advances, IsFenced, AreEarliest, ReportsRows, MoreUrgent;
    var db := Reached(events).db;
    var r := Step(db, op, now);
    ReachedIsOk(events);
    StepKeepsInv(db, op, now);
    if r.Ok? {
      OldJobsKeepTheirRequest(db, r.value.db);
      match op
      case Enqueue(s) => EnqueuesWriteTheRequest(events, s, now);
      case Claim(_, _, _, _, _) => ClaimKeepsOrigins(events, op, now);
      case Recover(limit) =>
        var ids := RecoveriesFenceTheEarliest(events, limit, now);
      case _ => HolderKeepsOrigins(events, op, now);
    }
  }

  lemma LeaseKeepsOrigins(events: seq<Event>, op: Op, now: Time)
    requires ArgumentsOk(op) && op.Claim?
    ensures var db := Reached(events).db; var r := Step(db, op, now);
      r.Ok? && r.value.answer.Leased? ==> KeepsOrigins(db, r.value.db, op, now)
  {
    hide Run, Inv, Acceptable, Advances, Step, MoreUrgent, Requests, RequestOf;
    var db := Reached(events).db;
    var r := Step(db, op, now);
    ReachedIsOk(events);
    if r.Ok? && r.value.answer.Leased? {
      StepKeepsInv(db, op, now);
      OldJobsKeepTheirRequest(db, r.value.db);
      ClaimsTakeTheMostUrgent(events, op, now);
      ClaimsWriteTheLease(events, op, now);
    }
  }

  lemma ClaimKeepsOrigins(events: seq<Event>, op: Op, now: Time)
    requires ArgumentsOk(op) && op.Claim?
    ensures var db := Reached(events).db; var r := Step(db, op, now); r.Ok? ==> KeepsOrigins(db, r.value.db, op, now)
  {
    hide Run, Inv, Acceptable, Advances, IsFenced, Step, Requests, RequestOf, AreEarliest, ReportsOf;
    var db := Reached(events).db;
    var r := Step(db, op, now);
    ReachedIsOk(events);
    if r.Ok? {
      if r.value.answer.Leased? {
        LeaseKeepsOrigins(events, op, now);
      } else {
        StepKeepsInv(db, op, now);
        OldJobsKeepTheirRequest(db, r.value.db);
        ClaimAnswers(db, op, now);
        var ids := ClaimsSweepFirst(events, op, now);
      }
    }
  }

  lemma ClaimAnswers(db: Db, op: Op, now: Time)
    requires ArgumentsOk(op) && op.Claim?
    ensures var r := Step(db, op, now); r.Ok? ==> r.value.answer.Leased? || r.value.answer.NoLease?
  {
    hide Acceptable, Sweep, SelectCandidate, ClaimRow;
  }

  // ----- Over every run -----


  ghost predicate JobHasOrigin(w: World, j: Job) {
    exists c :: c in w.calls && Requests(w.calls[c].op, w.calls[c].now, j)
  }

  ghost predicate AttemptHasOrigin(w: World, a: Attempt) {
    && (exists c :: c in w.calls && Starts(w.calls[c].op, w.calls[c].now, a))
    && (exists c :: c in w.calls && Extends(w.calls[c].op, w.calls[c].now, a))
    && (exists c :: c in w.calls && Hears(w.calls[c].op, w.calls[c].now, a))
    && (a.status.AttemptRunning? || exists c :: c in w.calls && Ends(w.calls[c].op, w.calls[c].now, a))
  }

  ghost predicate HaveOrigins(w: World) {
    && (forall k | k in w.db.jobs :: JobHasOrigin(w, w.db.jobs[k]))
    && (forall a | a in w.db.attempts :: AttemptHasOrigin(w, w.db.attempts[a]))
  }

  lemma CallsAreKept(w: World, e: Event)
    ensures forall c | c in w.calls ::
      c in After(w, e).calls && After(w, e).calls[c].op == w.calls[c].op && After(w, e).calls[c].now == w.calls[c].now
  {
    hide Transact, Reconcile, ArgumentsOk;
  }

  lemma JobKeepsOrigin(w: World, next: World, j: Job, m: Job)
    requires JobHasOrigin(w, j) && RequestOf(m) == RequestOf(j) && m.createdAt == j.createdAt
    requires forall c | c in w.calls :: c in next.calls && next.calls[c].op == w.calls[c].op && next.calls[c].now == w.calls[c].now
    ensures JobHasOrigin(next, m)
  {
    var c :| c in w.calls && Requests(w.calls[c].op, w.calls[c].now, j);
    assert Requests(next.calls[c].op, next.calls[c].now, m);
  }

  /** What one call may do to an attempt with an origin. */
  lemma AttemptKeepsOrigin(w: World, next: World, a: Attempt, b: Attempt, d: nat)
    requires AttemptHasOrigin(w, a) && SameStart(a, b) && d in next.calls
    requires forall c | c in w.calls :: c in next.calls && next.calls[c].op == w.calls[c].op && next.calls[c].now == w.calls[c].now
    requires b.expiresAt == a.expiresAt || Extends(next.calls[d].op, next.calls[d].now, b)
    requires b.heartbeatAt == a.heartbeatAt || Hears(next.calls[d].op, next.calls[d].now, b)
    requires b.status.AttemptRunning? || b == a || Ends(next.calls[d].op, next.calls[d].now, b)
    ensures AttemptHasOrigin(next, b)
  {
    var x :| x in w.calls && Starts(w.calls[x].op, w.calls[x].now, a);
    assert Starts(next.calls[x].op, next.calls[x].now, b);
    var y :| y in w.calls && Extends(w.calls[y].op, w.calls[y].now, a);
    assert b.expiresAt == a.expiresAt ==> Extends(next.calls[y].op, next.calls[y].now, b);
    var z :| z in w.calls && Hears(w.calls[z].op, w.calls[z].now, a);
    assert b.heartbeatAt == a.heartbeatAt ==> Hears(next.calls[z].op, next.calls[z].now, b);
    if !b.status.AttemptRunning? && b == a {
      var v :| v in w.calls && Ends(w.calls[v].op, w.calls[v].now, a);
      assert Ends(next.calls[v].op, next.calls[v].now, b);
    }
  }

  lemma NewAttemptHasOrigin(next: World, b: Attempt, d: nat)
    requires d in next.calls
    requires Starts(next.calls[d].op, next.calls[d].now, b) && Extends(next.calls[d].op, next.calls[d].now, b)
    requires Hears(next.calls[d].op, next.calls[d].now, b) && b.status.AttemptRunning?
    ensures AttemptHasOrigin(next, b)
  {
  }

  lemma CallKeepsOrigins(w: World, next: World, d: nat)
    requires HaveOrigins(w) && d in next.calls && KeepsOrigins(w.db, next.db, next.calls[d].op, next.calls[d].now)
    requires forall c | c in w.calls :: c in next.calls && next.calls[c].op == w.calls[c].op && next.calls[c].now == w.calls[c].now
    ensures HaveOrigins(next)
  {
    hide Requests, Starts, Extends, Hears, Ends, JobHasOrigin, AttemptHasOrigin, SameStart, RequestOf;
    forall k | k in next.db.jobs ensures JobHasOrigin(next, next.db.jobs[k]) {
      if Requests(next.calls[d].op, next.calls[d].now, next.db.jobs[k]) {
        RequestedHasOrigin(next, next.db.jobs[k], d);
      } else {
        JobKeepsOrigin(w, next, w.db.jobs[k], next.db.jobs[k]);
      }
    }
    forall a | a in next.db.attempts ensures AttemptHasOrigin(next, next.db.attempts[a]) {
      assert KeepsOrigin(w.db, next.db.attempts[a], a, next.calls[d].op, next.calls[d].now);
      if a in w.db.attempts {
        AttemptKeepsOrigin(w, next, w.db.attempts[a], next.db.attempts[a], d);
      } else {
        NewAttemptHasOrigin(next, next.db.attempts[a], d);
      }
    }
  }

  lemma RequestedHasOrigin(next: World, j: Job, d: nat)
    requires d in next.calls && Requests(next.calls[d].op, next.calls[d].now, j)
    ensures JobHasOrigin(next, j)
  {
  }

  lemma SameRowsHaveOrigins(w: World, next: World)
    requires HaveOrigins(w) && next.db == w.db
    requires forall c | c in w.calls :: c in next.calls && next.calls[c].op == w.calls[c].op && next.calls[c].now == w.calls[c].now
    ensures HaveOrigins(next)
  {
    hide Requests, JobHasOrigin, AttemptHasOrigin, RequestOf;
    forall k | k in next.db.jobs ensures JobHasOrigin(next, next.db.jobs[k]) {
      JobKeepsOrigin(w, next, w.db.jobs[k], next.db.jobs[k]);
    }
    forall a | a in next.db.attempts ensures AttemptHasOrigin(next, next.db.attempts[a]) {
      SameAttemptHasOrigin(w, next, w.db.attempts[a]);
    }
  }

  lemma SameAttemptHasOrigin(w: World, next: World, a: Attempt)
    requires AttemptHasOrigin(w, a)
    requires forall c | c in w.calls :: c in next.calls && next.calls[c].op == w.calls[c].op && next.calls[c].now == w.calls[c].now
    ensures AttemptHasOrigin(next, a)
  {
    var d :| d in w.calls && Starts(w.calls[d].op, w.calls[d].now, a);
    AttemptKeepsOrigin(w, next, a, a, d);
  }

  /** In every run, whatever fails: each job was enqueued with exactly its request at its creation; each attempt was started by a
      claim with its names at its start; its last beat and its deadline were set by its claim or a beat with its token; and its
      end was written by its holder's completion or failure, with that very result or error, or by a sweep at that time. */
  lemma {:induction false} RowsComeFromCalls(events: seq<Event>)
    ensures HaveOrigins(Reached(events))
    decreases |events|
  {
    hide After, HaveOrigins, KeepsOrigins, Step, ArgumentsOk;
    if events == [] {
      NothingHasOrigins();
    } else {
      var front, e := events[..|events| - 1], events[|events| - 1];
      var w := Reached(front);
      var next := After(w, e);
      RowsComeFromCalls(front);
      CallsAreKept(w, e);
      EventChanges(front, e);
      if next.db == w.db {
        SameRowsHaveOrigins(w, next);
      } else {
        StepKeepsOrigins(front, e.op, e.now);
        CallKeepsOrigins(w, next, e.call);
      }
    }
  }

  lemma NothingHasOrigins()
    ensures HaveOrigins(EMPTY_WORLD)
  {
  }

  /** Rows change by whole steps of the event's own call only. */
  lemma EventChanges(events: seq<Event>, e: Event)
    ensures var w := Reached(events); var next := After(w, e);
      next.db == w.db || (e.Calls? && ArgumentsOk(e.op) && Step(w.db, e.op, e.now).Ok? && next.db == Step(w.db, e.op, e.now).value.db
                          && e.call in next.calls && next.calls[e.call].op == e.op && next.calls[e.call].now == e.now)
  {
    hide Run, Inv, Step, ArgumentsOk, Transact, Reconcile, CallOk;
    var w := Reached(events);
    ReachedIsOk(events);
    if e.Calls? && e.call !in w.calls && e.store in w.stores && ArgumentsOk(e.op) {
      TransactOutcome(w.stores[e.store], w.db, e.op, e.now, e.script);
    }
  }
}
