/** The store object: flags, one connection and its transaction, proved against the step functions and the call protocol. */
module InvocationStore {
  import opened Common
  import opened SortKeys
  import opened InvocationText
  import opened InvocationRows
  import opened InvocationSteps
  import opened InvocationInvariant
  import opened InvocationReadBack
  import opened InvocationWorld

  /** The committed tables every store of one database file shares. */
  class Database {
    var committed: Db

    constructor ()
      ensures committed == EMPTY_DB
    {
      committed := EMPTY_DB;
    }
  }

  lemma {:induction false} FaultEndsTheLoop(db: Db, ids: seq<string>, now: Time, n: nat)
    requires forall id | id in ids :: id in db.jobs
    requires n <= |ids| && FenceAll(db, ids[..n], now).Raised?
    ensures FenceAll(db, ids, now) == FenceAll(db, ids[..n], now)
    decreases |ids|
  {
    if n < |ids| {
      var front := ids[..|ids| - 1];
      assert front[..n] == ids[..n];
      FaultEndsTheLoop(db, front, now, n);
    } else {
      assert ids[..n] == ids;
    }
  }

  lemma FenceNone(db: Db, now: Time)
    ensures FenceAll(db, [], now) == Ok((db, Summary([], [])))
  {
  }

  /** One turn of the recovery loop, and what a fault in it means for the whole loop. */
  lemma FenceAllTurn(db: Db, ids: seq<string>, now: Time, n: nat, mid: Db, s: Summary)
    requires forall id | id in ids :: id in db.jobs
    requires n < |ids| && FenceAll(db, ids[..n], now) == Ok((mid, s))
    ensures ids[n] in mid.jobs
    ensures var j, one := mid.jobs[ids[n]], FenceOne(mid, ids[n], now);
      if one.Raised? then FenceAll(db, ids, now) == Raised(one.fault)
      else FenceAll(db, ids[..n + 1], now) == Ok((one.value,
             if j.attemptsStarted >= j.maxAttempts then s.(exhausted := s.exhausted + [ids[n]])
             else s.(requeued := s.requeued + [ids[n]])))
  {
    hide FenceOne;
    assert ids[..n + 1][..n] == ids[..n];
    if FenceOne(mid, ids[n], now).Raised? {
      FaultEndsTheLoop(db, ids, now, n + 1);
    }
  }

  lemma {:induction false} ScanFaultEndsTheLoop(j: Job, rows: seq<Attempt>, n: nat)
    requires n <= |rows| && ScanRows(j, rows[..n]).Raised?
    ensures ScanRows(j, rows) == ScanRows(j, rows[..n])
    decreases |rows|
  {
    if n < |rows| {
      var front := rows[..|rows| - 1];
      assert front[..n] == rows[..n];
      ScanFaultEndsTheLoop(j, front, n);
    } else {
      assert rows[..n] == rows;
    }
  }

  class Store {
    const database: Database
    var poisoned: bool
    var closed: bool
    var connectionClosed: bool
    var transactionOpen: bool

    /** The tables as this connection's transaction sees and edits them. */
    var jobs: map<string, Job>
    var attempts: map<string, Attempt>

    constructor (database: Database)
      ensures this.database == database && FlagsNow() == FRESH_STORE
    {
      this.database := database;
      poisoned, closed, connectionClosed, transactionOpen := false, false, false, false;
      jobs, attempts := map[], map[];
    }

    ghost function FlagsNow(): Flags
      reads this
    {
      Flags(poisoned, closed, connectionClosed, transactionOpen)
    }

    ghost function View(): Db
      reads this`jobs, this`attempts
    {
      Db(jobs, attempts)
    }

    // ----- Transaction bodies: the SQL statements in the order they run -----

    method EnqueueInTransaction(s: JobSpec, now: Time) returns (r: Outcome<Effect>)
      modifies this`jobs, this`attempts
      ensures r == EnqueueStep(old(View()), s, now)
      ensures r.Ok? ==> View() == r.value.db
    {
      var rows := Colliding(Db(jobs, attempts), s);
      if rows != {} {
        if |rows| != 1 {
          return Raised(Conflict);
        }
        var row := jobs[Only(rows)];
        if !JobOk(row) {
          return Raised(Integrity);
        }
        if !ExistingMatches(row, s) {
          return Raised(Conflict);
        }
        return Ok(Effect(Db(jobs, attempts), Enqueued(row), ExpectJob));
      }
      jobs := jobs[s.id := NewJob(s, now)];
      var row := jobs[s.id];
      if !JobOk(row) {
        return Raised(Integrity);
      }
      r := Ok(Effect(Db(jobs, attempts), Enqueued(row), ExpectJob));
    }

    /** `_recover_expired_in_transaction`: fence the selected owners one after the other. */
    method RecoverExpiredInTransaction(now: Time, target: Option<string>, limit: Option<nat>) returns (r: Outcome<Summary>)
      modifies this`jobs, this`attempts
      ensures match Sweep(old(View()), now, target, limit)
              case Ok((db, s)) => r == Ok(s) && View() == db
              case Raised(fault) => r == Raised(fault)
    {
      hide JobOk, OwningAttempt, AfterFailure, AfterExpiry, ExpiredRows, IsExpired, FenceAll;
      var rows := ExpiredRows(Db(jobs, attempts), now, target, limit);
      var requeued, exhausted := [], [];
      var i := 0;
      ghost var start := View();
      assert FenceAll(start, rows[..0], now) == Ok((start, Summary([], []))) by { FenceNone(start, now); }
      while i < |rows|
        invariant 0 <= i <= |rows|
        invariant forall id | id in rows :: id in start.jobs
        invariant FenceAll(start, rows[..i], now) == Ok((View(), Summary(requeued, exhausted)))
      {
        FenceAllTurn(start, rows, now, i, View(), Summary(requeued, exhausted));
        var id := rows[i];
        var j := jobs[id];
        if !JobOk(j) || !j.status.Running? {
          return Raised(Integrity);
        }
        var owning := OwningAttempt(Db(jobs, attempts), j, None);
        if owning.Raised? {
          return Raised(owning.fault);
        }
        attempts := attempts[owning.value := AfterExpiry(attempts[owning.value], now)];
        jobs := jobs[id := AfterFailure(j, now, now, EXPIRY_REASON)];
        if j.attemptsStarted >= j.maxAttempts {
          exhausted := exhausted + [id];
        } else {
          requeued := requeued + [id];
        }
        i := i + 1;
      }
      assert rows[..i] == rows;
      r := Ok(Summary(requeued, exhausted));
    }

    method ClaimInTransaction(op: Op, now: Time) returns (r: Outcome<Effect>)
      requires op.Claim?
      modifies this`jobs, this`attempts
      ensures r == ClaimStep(old(View()), op, now)
      ensures r.Ok? ==> View() == r.value.db
    {
      var deadline := Deadline(now, op.length);
      if deadline.None? {
        return Raised(BadValue);
      }
      var recovery := RecoverExpiredInTransaction(now, op.target,
                                                  if op.target.Some? then None else Some(CLAIM_SWEEP_LIMIT));
      if recovery.Raised? {
        return Raised(recovery.fault);
      }
      var candidate := SelectCandidate(Db(jobs, attempts), now, op.target);
      if candidate.Raised? {
        return Raised(candidate.fault);
      }
      if candidate.value.None? {
        return Ok(Effect(Db(jobs, attempts), NoLease,
                         if Count(recovery.value) > 0 then ExpectSweep(recovery.value, now) else NothingWritten));
      }
      var id := candidate.value.value;
      var again := SelectCandidate(Db(jobs, attempts), now, Some(id));
      if again.Raised? {
        return Raised(again.fault);
      }
      if again.value != Some(id) {
        return Raised(Integrity);
      }
      if TokenInUse(Db(jobs, attempts), op.token) || op.attemptId in attempts {
        return Raised(Internal);
      }
      var j := jobs[id];
      jobs := jobs[id := ClaimedJob(j, op.worker, op.token, now, deadline.value)];
      attempts := attempts[op.attemptId := FirstAttempt(j, op.worker, op.attemptId, op.token, now, deadline.value)];
      var lease := NewLease(j, op.worker, op.attemptId, op.token, now, deadline.value);
      r := Ok(Effect(Db(jobs, attempts), Leased(lease), ExpectLease(lease)));
    }

    method HeartbeatInTransaction(l: Lease, length: int, now: Time) returns (r: Outcome<Effect>)
      modifies this`jobs, this`attempts
      ensures r == HeartbeatStep(old(View()), l, length, now)
      ensures r.Ok? ==> View() == r.value.db
    {
      var proposed := Deadline(now, length);
      if proposed.None? {
        return Raised(BadValue);
      }
      var owned := Owned(Db(jobs, attempts), l, now);
      if owned.Raised? {
        return Raised(owned.fault);
      }
      if owned.value.None? {
        return Ok(Effect(Db(jobs, attempts), Acknowledged(false), NothingWritten));
      }
      var a, j := owned.value.value, jobs[l.jobId];
      if j.expiresAt.None? {
        return Raised(Integrity);
      }
      var deadline := Later(j.expiresAt.value, proposed.value);
      jobs := jobs[l.jobId := j.(heartbeatAt := Some(now), expiresAt := Some(deadline), updatedAt := now)];
      attempts := attempts[a := attempts[a].(heartbeatAt := now, expiresAt := deadline)];
      r := Ok(Effect(Db(jobs, attempts), Acknowledged(true), ExpectBeat(now, deadline)));
    }

    method CompleteInTransaction(l: Lease, result: Option<string>, now: Time) returns (r: Outcome<Effect>)
      modifies this`jobs, this`attempts
      ensures r == CompleteStep(old(View()), l, result, now)
      ensures r.Ok? ==> View() == r.value.db
    {
      var owned := Owned(Db(jobs, attempts), l, now);
      if owned.Raised? {
        return Raised(owned.fault);
      }
      if owned.value.None? {
        return Ok(Effect(Db(jobs, attempts), Acknowledged(false), NothingWritten));
      }
      var a := owned.value.value;
      jobs := jobs[l.jobId := ClearLease(jobs[l.jobId]).(
                status := Succeeded, resultRef := result, updatedAt := now, finishedAt := Some(now))];
      attempts := attempts[a := attempts[a].(status := AttemptSucceeded, finishedAt := Some(now), resultRef := result)];
      r := Ok(Effect(Db(jobs, attempts), Acknowledged(true), ExpectSuccess(now)));
    }

    method FailInTransaction(l: Lease, error: string, retryAt: Option<Time>, now: Time) returns (r: Outcome<Effect>)
      modifies this`jobs, this`attempts
      ensures r == FailStep(old(View()), l, error, retryAt, now)
      ensures r.Ok? ==> View() == r.value.db
    {
      var retry := Later(now, if retryAt.Some? then retryAt.value else now);
      var owned := Owned(Db(jobs, attempts), l, now);
      if owned.Raised? {
        return Raised(owned.fault);
      }
      if owned.value.None? {
        return Ok(Effect(Db(jobs, attempts), Acknowledged(false), NothingWritten));
      }
      var a, stored := owned.value.value, StoredError(error);
      attempts := attempts[a := attempts[a].(status := AttemptFailed, finishedAt := Some(now), error := Some(stored))];
      jobs := jobs[l.jobId := AfterFailure(jobs[l.jobId], now, retry, stored)];
      r := Ok(Effect(Db(jobs, attempts), Acknowledged(true), ExpectFailure(now, retry, jobs[l.jobId].status)));
    }

    method RunBody(op: Op, now: Time) returns (r: Outcome<Effect>)
      requires ArgumentsOk(op)
      modifies this`jobs, this`attempts
      ensures r == Step(old(View()), op, now)
      ensures r.Ok? ==> View() == r.value.db
    {
      match op
      case Enqueue(s) => r := EnqueueInTransaction(s, now);
      case Claim(_, _, _, _, _) => r := ClaimInTransaction(op, now);
      case Heartbeat(l, length) => r := HeartbeatInTransaction(l, length, now);
      case Complete(l, result) => r := CompleteInTransaction(l, result, now);
      case Fail(l, error, retryAt) => r := FailInTransaction(l, error, retryAt, now);
      case Recover(limit) =>
        var swept := RecoverExpiredInTransaction(now, None, Some(limit));
        if swept.Raised? {
          return Raised(swept.fault);
        }
        r := Ok(Effect(Db(jobs, attempts), Recovered(swept.value), ExpectSweep(swept.value, now)));
    }

    // ----- The transaction boundary -----

    /** `_poison_store`. */
    method PoisonStore(close: Ack) returns (signal: bool)
      modifies this`poisoned, this`closed, this`connectionClosed, this`transactionOpen
      ensures FlagsNow() == Poison(old(FlagsNow()), close)
      ensures signal == CloseSignals(old(FlagsNow()), close)
    {
      poisoned, closed := true, true;
      signal := false;
      if !connectionClosed {
        match close
        case Acked =>
          connectionClosed := true;
          transactionOpen := false;
        case Refused(control) =>
          signal := control;
      }
    }

    /** Quarantine the store and report an outcome nobody can reconcile. */
    method Abandon(control: bool, close: Ack) returns (p: Progress)
      modifies this`poisoned, this`closed, this`connectionClosed, this`transactionOpen
      ensures Turn(FlagsNow(), database.committed, p) == GiveUp(old(FlagsNow()), database.committed, control, close)
    {
      var signal := PoisonStore(close);
      p := Ended(if control || signal then Signalled(true) else Ambiguous);
    }

    /** ROLLBACK, then the error the caller sees. */
    method Revert(control: bool, s: Script, otherwise: Verdict) returns (p: Progress)
      modifies this`poisoned, this`closed, this`connectionClosed, this`transactionOpen
      ensures Turn(FlagsNow(), database.committed, p) == Undo(old(FlagsNow()), database.committed, control, s, otherwise)
    {
      match s.rollback
      case Refused(c) =>
        transactionOpen := true;
        p := Abandon(control || c, s.close);
      case Acked =>
        transactionOpen := false;
        p := Ended(if control then Signalled(false) else otherwise);
    }

    /** COMMIT: publish the transaction's tables, or find out what the failure left behind. */
    method Commit(e: Effect, s: Script) returns (p: Progress)
      requires View() == e.db
      modifies this`poisoned, this`closed, this`connectionClosed, this`transactionOpen, database
      ensures Turn(FlagsNow(), database.committed, p) == FinishCommit(old(FlagsNow()), old(database.committed), e, s)
    {
      match s.commit
      case Committed =>
        database.committed := Db(jobs, attempts);
        transactionOpen := false;
        p := Done(Returned(e.answer), e.receipt);
      case CommitRefused(control, state, durable) =>
        match state
        case SaysOpen => p := Revert(control, s, RolledBack);
        case SaysClosed =>
          if durable {
            database.committed := Db(jobs, attempts);
          }
          transactionOpen := false;
          p := Pending(e.answer, e.receipt, control);
        case Unreadable(c) =>
          if durable {
            database.committed := Db(jobs, attempts);
          }
          transactionOpen := !durable;
          p := Abandon(control || c, s.close);
    }

    /** One public call up to the end of its write transaction. */
    method Perform(op: Op, now: Time, s: Script) returns (p: Progress)
      requires ArgumentsOk(op)
      modifies this, database
      ensures Turn(FlagsNow(), database.committed, p) == Transact(old(FlagsNow()), old(database.committed), op, now, s)
    {
      hide Undo, GiveUp, FinishCommit, Step, ArgumentsOk;
      if poisoned {
        return Ended(Quarantined);
      }
      if closed {
        return Ended(StoreClosed);
      }
      match s.begin
      case BeginRefused(control, SaysOpen) => p := Revert(control, s, RolledBack);
      case BeginRefused(control, SaysClosed) => p := Ended(if control then Signalled(false) else RolledBack);
      case BeginRefused(control, Unreadable(c)) =>
        transactionOpen := true;
        p := Abandon(control || c, s.close);
      case Begun =>
        jobs, attempts := database.committed.jobs, database.committed.attempts;
        match s.body {
          case BodyInterrupted(control) => p := Revert(control, s, RolledBack);
          case BodyRuns =>
            var body := RunBody(op, now);
            match body
            case Raised(fault) => p := Revert(false, s, PublicFault(fault));
            case Ok(e) => p := Commit(e, s);
        }
    }

    // ----- Reading -----

    /** `recovery_snapshot_for_task`: one pass over the attempt history with its running variables. */
    method RecoverySnapshot(sessionId: string, taskId: string) returns (r: Outcome<Observation>)
      ensures r == SnapshotOf(database.committed, sessionId, taskId)
    {
      hide JobOk, AttemptOk, SnapshotOk, History;
      var rows := TaskRows(database.committed, sessionId, taskId);
      if rows == {} {
        return Ok(NoJob);
      }
      if |rows| != 1 {
        return Raised(Integrity);
      }
      var j := database.committed.jobs[Only(rows)];
      if !JobOk(j) {
        return Raised(Integrity);
      }
      var history := History(database.committed, j.id);
      var count, epoch: int, finishedAt: Option<Time>, current: Option<Attempt> := 0, 0, None, None;
      var i := 0;
      while i < |history|
        invariant 0 <= i <= |history|
        invariant ScanRows(j, history[..i]) == Ok(Scan(count, epoch, finishedAt, current))
      {
        var a := history[i];
        assert history[..i + 1][..i] == history[..i];
        count := count + 1;
        if count > HISTORY_LIMIT || !AttemptOk(a) || a.jobId != j.id || a.startedAt < j.createdAt
           || a.number != count || a.epoch <= epoch
           || (finishedAt.Some? && a.startedAt < finishedAt.value)
           || (a.number < j.attemptsStarted && a.status !in {AttemptFailed, AttemptExpired})
           || a.number > j.attemptsStarted {
          ScanFaultEndsTheLoop(j, history, i + 1);
          return Raised(Integrity);
        }
        epoch, finishedAt := a.epoch, a.finishedAt;
        if a.number == j.attemptsStarted {
          current := Some(a);
        }
        i := i + 1;
      }
      assert history[..i] == history;
      if !SnapshotOk(j, current, count) {
        return Raised(Integrity);
      }
      r := Ok(Observation(j, current));
    }

    /** The second half of a call whose COMMIT ended its transaction with an error. */
    method Settle(op: Op, pending: Progress, read: ReadFate, close: Ack) returns (p: Progress)
      requires pending.Pending?
      modifies this`poisoned, this`closed, this`connectionClosed, this`transactionOpen
      ensures (FlagsNow(), p) == Reconcile(old(FlagsNow()), database.committed, op, pending, read, close)
    {
      hide ReadBack, NeedsNoReading;
      var found: Option<Answer>, control := None, pending.control;
      if NeedsNoReading(pending.receipt) {
        found := Some(pending.answer);
      } else if !poisoned && !closed {
        match read
        case ReadWorks =>
          found := ReadBack(database.committed, op, pending.answer, pending.receipt);
        case ReadFails(c, poisons) =>
          control := control || c;
          if poisons {
            var signal := PoisonStore(close);
            control := control || signal;
          }
      }
      if found.Some? {
        return if pending.control then Ended(Signalled(false)) else Done(Returned(found.value), pending.receipt);
      }
      if control {
        var _ := PoisonStore(close);
        return Ended(Signalled(true));
      }
      p := Ended(Ambiguous);
    }

    method CloseConnection(close: Ack)
      modifies this`closed, this`connectionClosed, this`transactionOpen
      ensures FlagsNow() == CloseStore(old(FlagsNow()), close)
    {
      closed := true;
      if !connectionClosed && close.Acked? {
        connectionClosed, transactionOpen := true, false;
      }
    }
  }
}
