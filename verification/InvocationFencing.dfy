/** What holds over whole runs: valid rows, fencing, one lease, one settlement, and quarantine for good. */
module InvocationFencing {
  import opened Common
  import opened SortKeys
  import opened InvocationText
  import opened InvocationRows
  import opened InvocationSteps
  import opened InvocationInvariant
  import opened InvocationReadBack
  import opened InvocationWorld

  lemma EmptyWorldIsOk()
    ensures WorldOk(EMPTY_WORLD)
  {
  }

  /** From the empty database, under any clocks, stores, faults and interleaving, no reader ever refuses a row. */
  lemma ReachableRowsAreAccepted(events: seq<Event>)
    ensures var db := Run(EMPTY_WORLD, events).db;
      && (forall k | k in db.jobs :: JobOk(db.jobs[k]) && |AttemptsOf(db, k)| == db.jobs[k].attemptsStarted <= 1)
      && (forall a | a in db.attempts :: AttemptOk(db.attempts[a]))
      && (forall sessionId, taskId :: SnapshotOf(db, sessionId, taskId).Ok?)
      && (forall k, m | k in db.jobs && m in db.jobs && k != m :: Distinct(db.jobs[k], db.jobs[m]))
  {
    hide Inv, Run, SnapshotOf, JobOk, AttemptOk;
    EmptyWorldIsOk();
    RunKeepsWorld(EMPTY_WORLD, events);
    var db := Run(EMPTY_WORLD, events).db;
    forall k | k in db.jobs ensures JobOk(db.jobs[k]) && |AttemptsOf(db, k)| == db.jobs[k].attemptsStarted <= 1 {
      JobRows(db, k);
      CountAttempts(db, k);
    }
    forall a | a in db.attempts ensures AttemptOk(db.attempts[a]) {
      EveryAttemptHasJob(db, a);
      StartedRows(db, db.attempts[a].jobId, a);
    }
    forall sessionId, taskId ensures SnapshotOf(db, sessionId, taskId).Ok? {
      SnapshotNeverRaises(db, sessionId, taskId);
    }
    JobsAreDistinct(db);
  }

  lemma EveryAttemptHasJob(db: Db, a: string)
    requires Inv(db) && a in db.attempts
    ensures AttemptFor(db, a, db.attempts[a].jobId) && db.attempts[a].jobId in db.jobs
  {
    hide AllDistinct, OneAttemptEach, JobsOk, Paired;
  }

  lemma CountAttempts(db: Db, k: string)
    requires Inv(db) && k in db.jobs
    ensures |AttemptsOf(db, k)| == db.jobs[k].attemptsStarted <= 1
  {
    hide AllDistinct, Acceptable, ErrorOk;
    assert JobOk(db.jobs[k]) && FirstAttemptOnly(db.jobs[k]);
    if db.jobs[k].attemptsStarted == 0 {
      assert AttemptsOf(db, k) == {};
    } else {
      var a :| AttemptFor(db, a, k);
      OnlyAttempt(db, a, k);
    }
  }

  lemma JobsAreDistinct(db: Db)
    requires Inv(db)
    ensures forall k, m | k in db.jobs && m in db.jobs && k != m :: Distinct(db.jobs[k], db.jobs[m])
  {
    hide JobsOk, AttemptsOk, OneAttemptEach, Distinct;
  }

  // ----- Running is entered once and left once -----

  lemma {:induction false} RunInTwoParts(w: World, front: seq<Event>, back: seq<Event>)
    ensures Run(w, front + back) == Run(Run(w, front), back)
    decreases |back|
  {
    hide After;
    if back == [] {
      assert front + back == front;
    } else {
      var rest := back[..|back| - 1];
      assert (front + back)[..|front + back| - 1] == front + rest;
      RunInTwoParts(w, front, rest);
    }
  }

  /** The tables after the first n events. */
  function Then(w: World, events: seq<Event>, n: nat): Db
    requires n <= |events|
  {
    Run(w, events[..n]).db
  }

  lemma LaterTablesAdvance(w: World, events: seq<Event>, m: nat, n: nat)
    requires WorldOk(w) && m <= n <= |events|
    ensures Advances(Then(w, events, m), Then(w, events, n)) && Inv(Then(w, events, n))
  {
    hide Run, Inv, Advances;
    assert events[..n] == events[..m] + events[m..n];
    RunInTwoParts(w, events[..m], events[m..n]);
    RunKeepsWorld(w, events[..m]);
    RunKeepsWorld(Run(w, events[..m]), events[m..n]);
  }

  predicate IsActive(db: Db, id: string) {
    id in db.jobs && PhaseOf(db.jobs[id]).Active?
  }

  predicate Enters(w: World, events: seq<Event>, n: nat, id: string)
    requires n < |events|
  {
    !IsActive(Then(w, events, n), id) && IsActive(Then(w, events, n + 1), id)
  }

  predicate Leaves(w: World, events: seq<Event>, n: nat, id: string)
    requires n < |events|
  {
    IsActive(Then(w, events, n), id) && !IsActive(Then(w, events, n + 1), id)
  }

  /** Each invocation starts running at most once and stops running at most once. */
  lemma RunsOnce(w: World, events: seq<Event>, m: nat, n: nat, id: string)
    requires WorldOk(w) && m < n < |events|
    ensures !(Enters(w, events, m, id) && Enters(w, events, n, id))
    ensures !(Leaves(w, events, m, id) && Leaves(w, events, n, id))
  {
    hide Run, Inv;
    LaterTablesAdvance(w, events, m, m + 1);
    LaterTablesAdvance(w, events, m + 1, n);
    LaterTablesAdvance(w, events, n, n + 1);
    var a, b, c, d := Then(w, events, m), Then(w, events, m + 1), Then(w, events, n), Then(w, events, n + 1);
    if id in b.jobs {
      assert JobAdvances(b.jobs[id], c.jobs[id]) && JobAdvances(c.jobs[id], d.jobs[id]);
    }
    if id in a.jobs {
      assert JobAdvances(a.jobs[id], b.jobs[id]);
    }
  }

  /** Once an invocation has left running, its job and its attempt never change again. */
  lemma SettledForever(w: World, events: seq<Event>, id: string)
    requires WorldOk(w) && id in w.db.jobs && PhaseOf(w.db.jobs[id]).Settled?
    ensures var db := Run(w, events).db;
      && id in db.jobs && db.jobs[id] == w.db.jobs[id]
      && AttemptsOf(db, id) == AttemptsOf(w.db, id)
      && (forall a | AttemptFor(w.db, a, id) :: a in db.attempts && db.attempts[a] == w.db.attempts[a])
  {
    hide Run, Inv, JobOk, Paired;
    RunKeepsWorld(w, events);
    var db := Run(w, events).db;
    assert JobAdvances(w.db.jobs[id], db.jobs[id]);
    JobRows(w.db, id);
    JobRows(db, id);
    var a := SomeAttempt(w.db, id);
    SettledAttemptIsFrozen(w.db, db, a, id);
    OnlyAttempt(w.db, a, id);
    OnlyAttempt(db, a, id);
  }

  lemma OnlyAttempt(db: Db, a: string, k: string)
    requires Inv(db) && AttemptFor(db, a, k)
    ensures AttemptsOf(db, k) == {a}
    ensures forall b | AttemptFor(db, b, k) :: b == a
  {
    hide JobsOk, AttemptsOk, AllDistinct;
    forall x | x in AttemptsOf(db, k) || AttemptFor(db, x, k) ensures x == a {
      assert AttemptFor(db, x, k);
      SameAttempt(db, a, x, k);
    }
  }

  lemma SettledAttemptIsFrozen(db: Db, next: Db, a: string, k: string)
    requires Inv(db) && Advances(db, next) && k in db.jobs && PhaseOf(db.jobs[k]).Settled? && AttemptFor(db, a, k)
    ensures a in next.attempts && next.attempts[a] == db.attempts[a]
  {
    hide Inv, JobOk, AttemptOk, FirstAttemptOnly, JobAdvances;
    StartedRows(db, k, a);
    assert AttemptAdvances(db.attempts[a], next.attempts[a]);
  }

  /** A settled invocation ignores every lease, old or forged: nothing changes and nothing is acknowledged. */
  lemma SettledIgnoresLeases(db: Db, op: Op, now: Time)
    requires ArgumentsOk(op) && (op.Heartbeat? || op.Complete? || op.Fail?)
    requires op.lease.jobId in db.jobs && PhaseOf(db.jobs[op.lease.jobId]).Settled?
    ensures || Step(db, op, now) == Ok(Effect(db, Acknowledged(false), NothingWritten))
            || (op.Heartbeat? && Step(db, op, now) == Raised(BadValue))
  {
    hide ArgumentsOk, OwningAttempt, JobOk;
  }

  // ----- One lease -----

  /** No two claims of one invocation are ever both answered with a lease, unless they drew the same attempt id. */
  lemma OneLeasePerInvocation(w: World, c: nat, d: nat)
    requires WorldOk(w) && c in w.calls && d in w.calls
    requires w.calls[c].progress.Done? && w.calls[c].progress.verdict.Returned? && w.calls[c].progress.verdict.answer.Leased?
    requires w.calls[d].progress.Done? && w.calls[d].progress.verdict.Returned? && w.calls[d].progress.verdict.answer.Leased?
    requires w.calls[c].progress.verdict.answer.lease.jobId == w.calls[d].progress.verdict.answer.lease.jobId
    ensures w.calls[c].op.Claim? && w.calls[d].op.Claim?
    ensures w.calls[c].op.attemptId == w.calls[d].op.attemptId && w.calls[c].op.token == w.calls[d].op.token
    ensures (forall x, y | x in w.calls && y in w.calls && x != y && w.calls[x].op.Claim? && w.calls[y].op.Claim? ::
               w.calls[x].op.attemptId != w.calls[y].op.attemptId) ==> c == d
  {
    hide Inv, Carries;
    assert CallOk(w.db, w.calls[c]) && CallOk(w.db, w.calls[d]);
    CarriersAgree(w.db, w.calls[c].progress.verdict.answer.lease, w.calls[d].progress.verdict.answer.lease);
  }

  lemma CarriersAgree(db: Db, l: Lease, m: Lease)
    requires Inv(db) && Carries(db, l) && Carries(db, m) && l.jobId == m.jobId
    ensures l.attemptId == m.attemptId && l.token == m.token && l.epoch == m.epoch && l.worker == m.worker
  {
    hide JobsOk, AttemptsOk, AllDistinct;
    SameAttempt(db, l.attemptId, m.attemptId, l.jobId);
  }

  // ----- One settlement -----

  /** How an invocation stopped running. */
  datatype Settlement =
    | BySuccess(at: Time, result: Option<string>)
    | ByFailure(at: Time, error: string, terminal: bool)
    | ByExpiry(at: Time, terminal: bool)

  /** The settlement the durable rows record. */
  function SettlementOf(j: Job, a: Attempt): Option<Settlement> {
    if a.finishedAt.None? then None
    else match a.status
      case AttemptSucceeded => Some(BySuccess(a.finishedAt.value, a.resultRef))
      case AttemptFailed => if a.error.Some? then Some(ByFailure(a.finishedAt.value, a.error.value, j.status.Failed?)) else None
      case AttemptExpired => Some(ByExpiry(a.finishedAt.value, j.status.Failed?))
      case _ => None
  }

  /** The settlement of one invocation that a finished call has acknowledged, if any. */
  function Acknowledges(c: Call, id: string): Option<Settlement> {
    if !c.progress.Done? || !c.progress.verdict.Returned? then None
    else match c.progress.receipt
      case ExpectSuccess(at) =>
        if c.op.Complete? && c.op.lease.jobId == id && c.progress.verdict.answer == Acknowledged(true)
        then Some(BySuccess(at, c.op.result)) else None
      case ExpectFailure(at, _, status) =>
        if c.op.Fail? && c.op.lease.jobId == id && c.progress.verdict.answer == Acknowledged(true)
        then Some(ByFailure(at, StoredError(c.op.error), status.Failed?)) else None
      case ExpectSweep(s, at) =>
        if (c.progress.verdict.answer.Recovered? || c.progress.verdict.answer.NoLease?)
           && (id in s.requeued || id in s.exhausted)
        then Some(ByExpiry(at, id !in s.requeued)) else None
      case _ => None
  }

  /** Every acknowledgement ever given, directly or through read-back, names the one durable settlement. */
  lemma AcknowledgementsNameTheSettlement(w: World, c: nat, id: string)
    requires WorldOk(w) && c in w.calls && Acknowledges(w.calls[c], id).Some?
    ensures id in w.db.jobs && PhaseOf(w.db.jobs[id]).Settled?
    ensures exists a :: AttemptFor(w.db, a, id) && SettlementOf(w.db.jobs[id], w.db.attempts[a]) == Acknowledges(w.calls[c], id)
  {
    hide Inv, JobOk, AttemptOk, History, StoredError, LeaseBinds, CurrentAttemptOk;
    var call := w.calls[c];
    assert CallOk(w.db, call);
    if call.progress.receipt.ExpectSweep? {
      assert SweptRow(w.db, w.db, id, call.progress.receipt.at, id in call.progress.receipt.summary.requeued);
      var a := SweptAttempt(w.db, id);
      assert AttemptFor(w.db, a, id);
    } else {
      assert AttemptFor(w.db, call.op.lease.attemptId, id);
      CarriedIsStarted(w.db, call.op.lease);
    }
  }

  lemma SweptAttempt(db: Db, id: string) returns (a: string)
    requires Inv(db) && id in db.jobs && db.jobs[id].lastError.Some?
    ensures AttemptFor(db, a, id) && History(db, id) == [db.attempts[a]] && db.jobs[id].attemptsStarted == 1
  {
    hide Inv, JobOk, History;
    JobRows(db, id);
    a := SomeAttempt(db, id);
    HistoryOnValid(db, id);
  }

  /** Any two acknowledgements of one invocation agree in kind, time, result and error. */
  lemma OneSettlementPerInvocation(w: World, c: nat, d: nat, id: string)
    requires WorldOk(w) && c in w.calls && d in w.calls
    requires Acknowledges(w.calls[c], id).Some? && Acknowledges(w.calls[d], id).Some?
    ensures Acknowledges(w.calls[c], id) == Acknowledges(w.calls[d], id)
  {
    hide WorldOk, Acknowledges, SettlementOf, Inv;
    AcknowledgementsNameTheSettlement(w, c, id);
    AcknowledgementsNameTheSettlement(w, d, id);
    var a :| AttemptFor(w.db, a, id) && SettlementOf(w.db.jobs[id], w.db.attempts[a]) == Acknowledges(w.calls[c], id);
    var b :| AttemptFor(w.db, b, id) && SettlementOf(w.db.jobs[id], w.db.attempts[b]) == Acknowledges(w.calls[d], id);
    assert Inv(w.db) by { WorldHasInv(w); }
    OnlyAttempt(w.db, a, id);
  }

  lemma WorldHasInv(w: World)
    requires WorldOk(w)
    ensures Inv(w.db)
  {
    hide Inv, CallOk;
  }

  // ----- Quarantine -----

  /** A poisoned store stays poisoned, and no later call through it touches the tables. */
  lemma {:induction false} PoisonIsForever(w: World, events: seq<Event>, s: nat)
    requires WorldOk(w) && s in w.stores && w.stores[s].poisoned
    ensures s in Run(w, events).stores && Run(w, events).stores[s].poisoned
    ensures forall c, op, now, script | c !in Run(w, events).calls && ArgumentsOk(op) ::
      var next := After(Run(w, events), Calls(c, s, op, now, script));
      next.db == Run(w, events).db && next.calls[c].progress == Ended(Quarantined)
    decreases |events|
  {
    hide Inv, ArgumentsOk, Step, ReadBack, CallOk, GiveUp, Undo, FinishCommit, NeedsNoReading, WorldOk;
    if events != [] {
      var front := events[..|events| - 1];
      PoisonIsForever(w, front, s);
      RunKeepsWorld(w, front);
    }
  }
}
