/** Any number of stores over one database, with a driver that may fail at BEGIN, COMMIT, ROLLBACK, read and close.

    A call runs one write transaction. When COMMIT reports an error after the transaction ended, the call stays
    pending until it reads back; every other store, and every other call on the same store, may act in between. */
module InvocationWorld {
  import opened Common
  import opened InvocationText
  import opened InvocationRows
  import opened InvocationSteps
  import opened InvocationInvariant
  import opened InvocationReadBack

  // ----- One store and its driver -----

  /** `control` marks a failure delivered as a control signal (interrupt, exit, cancellation). */
  datatype Ack = Acked | Refused(control: bool)

  /** What asking the connection for its transaction state says. */
  datatype Inspection = SaysOpen | SaysClosed | Unreadable(control: bool)

  datatype BeginFate = Begun | BeginRefused(control: bool, state: Inspection)

  datatype BodyFate = BodyRuns | BodyInterrupted(control: bool)

  /** `durable`: whether the transaction nevertheless reached the disk; ignored while it is still open. */
  datatype CommitFate = Committed | CommitRefused(control: bool, state: Inspection, durable: bool)

  datatype ReadFate = ReadWorks | ReadFails(control: bool, poisons: bool)

  /** Everything the driver does during one write transaction. */
  datatype Script = Script(begin: BeginFate, body: BodyFate, commit: CommitFate, rollback: Ack, close: Ack)

  datatype Flags = Flags(poisoned: bool, closed: bool, connectionClosed: bool, transactionOpen: bool)

  const FRESH_STORE := Flags(false, false, false, false)

  predicate Usable(f: Flags) {
    !f.poisoned && !f.closed
  }

  /** `_poison_store`: quarantine for good; closing the connection abandons whatever it had open. */
  function Poison(f: Flags, close: Ack): Flags {
    if f.connectionClosed || close.Refused? then f.(poisoned := true, closed := true)
    else Flags(true, true, true, false)
  }

  predicate CloseSignals(f: Flags, close: Ack) {
    !f.connectionClosed && close.Refused? && close.control
  }

  // ----- One call -----

  datatype Verdict =
    | Returned(answer: Answer)
    | Faulted(fault: Fault)
    | RolledBack
    | Ambiguous
    | Signalled(ambiguous: bool)
    | Quarantined
    | StoreClosed
    | Rejected

  datatype Progress =
    | Done(verdict: Verdict, receipt: Receipt)
    | Pending(answer: Answer, receipt: Receipt, control: bool)

  datatype Turn = Turn(flags: Flags, db: Db, progress: Progress)

  function Ended(v: Verdict): Progress {
    Done(v, NothingWritten)
  }

  /** An outcome that can never be reconciled: the store is poisoned before the caller hears of it. */
  function GiveUp(f: Flags, db: Db, control: bool, close: Ack): Turn {
    Turn(Poison(f, close), db, Ended(if control || CloseSignals(f, close) then Signalled(true) else Ambiguous))
  }

  /** Roll back an open transaction and report `otherwise`, or give up if the rollback fails. */
  function Undo(f: Flags, db: Db, control: bool, s: Script, otherwise: Verdict): Turn {
    match s.rollback
    case Refused(c) => GiveUp(f.(transactionOpen := true), db, control || c, s.close)
    case Acked => Turn(f.(transactionOpen := false), db, Ended(if control then Signalled(false) else otherwise))
  }

  /** The public error for a fault raised inside the transaction body. */
  function PublicFault(fault: Fault): Verdict {
    if fault.Internal? then RolledBack else Faulted(fault)
  }

  function FinishCommit(f: Flags, db: Db, e: Effect, s: Script): Turn {
    match s.commit
    case Committed => Turn(f.(transactionOpen := false), e.db, Done(Returned(e.answer), e.receipt))
    case CommitRefused(control, state, durable) =>
      match state
      case SaysOpen => Undo(f, db, control, s, RolledBack)
      case SaysClosed =>
        Turn(f.(transactionOpen := false), if durable then e.db else db, Pending(e.answer, e.receipt, control))
      case Unreadable(c) =>
        GiveUp(f.(transactionOpen := !durable), if durable then e.db else db, control || c, s.close)
  }

  /** One public call up to the end of its write transaction. */
  function Transact(f: Flags, db: Db, op: Op, now: Time, s: Script): Turn
    requires ArgumentsOk(op)
  {
    if f.poisoned then Turn(f, db, Ended(Quarantined))
    else if f.closed then Turn(f, db, Ended(StoreClosed))
    else match s.begin
      case BeginRefused(control, SaysOpen) => Undo(f, db, control, s, RolledBack)
      case BeginRefused(control, SaysClosed) =>
        Turn(f, db, Ended(if control then Signalled(false) else RolledBack))
      case BeginRefused(control, Unreadable(c)) =>
        GiveUp(f.(transactionOpen := true), db, control || c, s.close)
      case Begun =>
        match s.body
        case BodyInterrupted(control) => Undo(f, db, control, s, RolledBack)
        case BodyRuns =>
          match Step(db, op, now)
          case Raised(fault) => Undo(f, db, false, s, PublicFault(fault))
          case Ok(e) => FinishCommit(f, db, e, s)
  }

  /** Receipts that are settled without reading the database. */
  predicate NeedsNoReading(r: Receipt) {
    r.NothingWritten? || (r.ExpectSweep? && Count(r.summary) == 0)
  }

  /** The read-back of a call whose COMMIT ended its transaction with an error. */
  function Reconcile(f: Flags, db: Db, op: Op, p: Progress, read: ReadFate, close: Ack): (Flags, Progress)
    requires p.Pending?
  {
    var works := Usable(f) && read.ReadWorks?;
    var breaks := Usable(f) && read.ReadFails? && !NeedsNoReading(p.receipt);
    var f1 := if breaks && read.poisons then Poison(f, close) else f;
    var found := if NeedsNoReading(p.receipt) then Some(p.answer)
                 else if works then ReadBack(db, op, p.answer, p.receipt) else None;
    match found
    case Some(answer) => (f1, if p.control then Ended(Signalled(false)) else Done(Returned(answer), p.receipt))
    case None =>
      if p.control || (breaks && (read.control || (read.poisons && CloseSignals(f, close))))
      then (Poison(f1, close), Ended(Signalled(true)))
      else (f1, Ended(Ambiguous))
  }

  // ----- All stores and all calls -----

  datatype Call = Call(store: nat, op: Op, now: Time, progress: Progress)

  datatype World = World(db: Db, stores: map<nat, Flags>, calls: map<nat, Call>)

  const EMPTY_WORLD := World(EMPTY_DB, map[], map[])

  datatype Event =
    | Opens(store: nat)
    | Closes(store: nat, close: Ack)
    | Calls(call: nat, store: nat, op: Op, now: Time, script: Script)
    | ReadsBack(call: nat, read: ReadFate, close: Ack)

  function CloseStore(f: Flags, close: Ack): Flags {
    if f.connectionClosed || close.Refused? then f.(closed := true)
    else f.(closed := true, connectionClosed := true, transactionOpen := false)
  }

  /** The world after one event; events that name unknown stores or used call numbers change nothing. */
  function After(w: World, e: Event): World {
    match e
    case Opens(s) => if s in w.stores then w else w.(stores := w.stores[s := FRESH_STORE])
    case Closes(s, close) =>
      if s !in w.stores then w else w.(stores := w.stores[s := CloseStore(w.stores[s], close)])
    case Calls(c, s, op, now, script) =>
      if c in w.calls || s !in w.stores then w
      else if !ArgumentsOk(op) then w.(calls := w.calls[c := Call(s, op, now, Ended(Rejected))])
      else
        var t := Transact(w.stores[s], w.db, op, now, script);
        World(t.db, w.stores[s := t.flags], w.calls[c := Call(s, op, now, t.progress)])
    case ReadsBack(c, read, close) =>
      if c !in w.calls || !w.calls[c].progress.Pending? || w.calls[c].store !in w.stores then w
      else
        var call := w.calls[c];
        var (f, p) := Reconcile(w.stores[call.store], w.db, call.op, call.progress, read, close);
        w.(stores := w.stores[call.store := f], calls := w.calls[c := call.(progress := p)])
  }

  function Run(w: World, events: seq<Event>): World {
    if events == [] then w else After(Run(w, events[..|events| - 1]), events[|events| - 1])
  }

  // ----- What an acknowledgement says about the tables -----

  predicate Carries(db: Db, l: Lease) {
    Bound(db, l) && db.attempts[l.attemptId].tokenDigest == Sha256(l.token)
  }

  /** The lease's attempt has been beaten at least at that time, up to at least that deadline. */
  predicate BeatenTo(db: Db, l: Lease, at: Time, deadline: Time) {
    Carries(db, l) && at <= db.attempts[l.attemptId].heartbeatAt && deadline <= db.attempts[l.attemptId].expiresAt
  }

  /** The tables bear out what the caller was told. */
  ghost predicate Agrees(db: Db, op: Op, answer: Answer, receipt: Receipt) {
    match answer
    case Enqueued(j) =>
      op.Enqueue? && Collides(j, op.spec) && ExistingMatches(j, op.spec)
      && j.id in db.jobs && JobAdvances(j, db.jobs[j.id])
    case Leased(l) =>
      op.Claim? && l.attemptId == op.attemptId && l.token == op.token && l.worker == op.worker
      && BeatenTo(db, l, l.claimedAt, l.expiresAt)
    case NoLease =>
      op.Claim? && (receipt.ExpectSweep? ==> SweepMatches(db, db, receipt.summary, receipt.at))
    case Acknowledged(ok) =>
      if !ok then receipt.NothingWritten? else
      (match receipt
       case ExpectBeat(at, deadline) => op.Heartbeat? && BeatenTo(db, op.lease, at, deadline)
       case ExpectSuccess(at) =>
         op.Complete? && Carries(db, op.lease)
         && SuccessConfirmed(db.jobs[op.lease.jobId], db.attempts[op.lease.attemptId], at, op.result)
       case ExpectFailure(at, retry, status) =>
         op.Fail? && Carries(db, op.lease) && status in {Queued, Failed}
         && FailureConfirmed(db.jobs[op.lease.jobId], db.attempts[op.lease.attemptId], at, retry, status,
                             StoredError(op.error))
       case _ => false)
    case Recovered(s) =>
      op.Recover? && receipt.ExpectSweep? && receipt.summary == s && SweepMatches(db, db, s, receipt.at)
  }

  /** How the answer and the receipt of one step fit its operation and its clock reading. */
  predicate Fits(op: Op, now: Time, answer: Answer, receipt: Receipt) {
    match op
    case Enqueue(_) => answer.Enqueued? && receipt.ExpectJob?
    case Claim(worker, _, _, attemptId, token) =>
      if answer.Leased? then
        && receipt == ExpectLease(answer.lease) && answer.lease.attemptId == attemptId
        && answer.lease.token == token && answer.lease.worker == worker
        && answer.lease.claimedAt == now && answer.lease.expiresAt == now + op.length
      else answer.NoLease? && (receipt.NothingWritten? || (receipt.ExpectSweep? && receipt.at == now))
    case Heartbeat(_, length) =>
      && answer == Acknowledged(receipt.ExpectBeat?) && (receipt.ExpectBeat? || receipt.NothingWritten?)
      && (receipt.ExpectBeat? ==> receipt.at == now && now + length <= receipt.deadline)
    case Complete(_, _) =>
      && answer == Acknowledged(receipt.ExpectSuccess?) && (receipt.ExpectSuccess? || receipt.NothingWritten?)
      && (receipt.ExpectSuccess? ==> receipt.at == now)
    case Fail(_, _, _) =>
      && answer == Acknowledged(receipt.ExpectFailure?) && (receipt.ExpectFailure? || receipt.NothingWritten?)
      && (receipt.ExpectFailure? ==> receipt.at == now && receipt.status in {Queued, Failed})
    case Recover(_) => receipt.ExpectSweep? && answer == Recovered(receipt.summary) && receipt.at == now
  }

  lemma StepFits(db: Db, op: Op, now: Time)
    requires ArgumentsOk(op)
    ensures var r := Step(db, op, now); r.Ok? ==> Fits(op, now, r.value.answer, r.value.receipt)
  {
    hide ArgumentsOk, Sweep, SelectCandidate, Owned, StoredError, JobOk, ExistingMatches, Put;
  }

  /** Whatever read-back answers, the tables it read bear out. */
  lemma ReadBackAgrees(db: Db, op: Op, now: Time, answer: Answer, receipt: Receipt)
    requires Inv(db) && Fits(op, now, answer, receipt)
    ensures var found := ReadBack(db, op, answer, receipt);
      found.Some? ==> Agrees(db, op, found.value, receipt) && Fits(op, now, found.value, receipt)
  {
    hide Inv, LeaseSnapshot, SweptRow, JobOk, StoredError, LeaseBinds;
    match receipt
    case ExpectLease(l) => LeaseSnapshotOnValid(db, l);
    case ExpectBeat(_, _) => LeaseSnapshotOnValid(db, op.lease);
    case ExpectSuccess(_) => LeaseSnapshotOnValid(db, op.lease);
    case ExpectFailure(_, _, _) => LeaseSnapshotOnValid(db, op.lease);
    case ExpectJob =>
      var rows := Colliding(db, op.spec);
      if |rows| == 1 {
        assert Only(rows) in rows;
        JobRows(db, Only(rows));
      }
    case _ =>
  }

  // ----- Acknowledgements stay true -----

  lemma CarriesPersists(db: Db, next: Db, l: Lease)
    requires Inv(db) && Inv(next) && Advances(db, next) && Carries(db, l)
    ensures Carries(next, l)
    ensures PhaseOf(db.jobs[l.jobId]).Settled? ==>
      next.jobs[l.jobId] == db.jobs[l.jobId] && next.attempts[l.attemptId] == db.attempts[l.attemptId]
    ensures db.attempts[l.attemptId].heartbeatAt <= next.attempts[l.attemptId].heartbeatAt
    ensures db.attempts[l.attemptId].expiresAt <= next.attempts[l.attemptId].expiresAt
  {
    hide AllDistinct, OneAttemptEach, JobOk, ErrorOk, Acceptable;
    assert JobAdvances(db.jobs[l.jobId], next.jobs[l.jobId]);
    assert AttemptAdvances(db.attempts[l.attemptId], next.attempts[l.attemptId]);
    StartedRows(db, l.jobId, l.attemptId);
    StartedRows(next, l.jobId, l.attemptId);
  }

  lemma SweptRowPersists(db: Db, next: Db, id: string, at: Time, requeued: bool)
    requires Inv(db) && Inv(next) && Advances(db, next) && SweptRow(db, db, id, at, requeued)
    ensures SweptRow(next, next, id, at, requeued)
  {
    hide Inv, History, JobOk, AttemptOk, CurrentAttemptOk, FirstAttemptOnly;
    JobRows(db, id);
    assert JobAdvances(db.jobs[id], next.jobs[id]);
    var a := SomeAttempt(db, id);
    assert AttemptAdvances(db.attempts[a], next.attempts[a]);
    StartedRows(db, id, a);
    HistoryOnValid(db, id);
    HistoryOnValid(next, id);
    assert AttemptFor(next, a, id) && History(db, id) == [db.attempts[a]] && History(next, id) == [next.attempts[a]];
  }

  lemma SomeAttempt(db: Db, k: string) returns (a: string)
    requires Inv(db) && k in db.jobs && db.jobs[k].attemptsStarted == 1
    ensures AttemptFor(db, a, k)
  {
    hide JobsOk, AttemptsOk, AllDistinct;
    a :| AttemptFor(db, a, k);
  }

  lemma AgreesPersists(db: Db, next: Db, op: Op, answer: Answer, receipt: Receipt)
    requires Inv(db) && Inv(next) && Advances(db, next) && Agrees(db, op, answer, receipt)
    ensures Agrees(next, op, answer, receipt)
  {
    hide Inv, SweptRow, JobOk, Carries, StoredError, ExistingMatches, Collides;
    match answer
    case Enqueued(j) =>
      EnqueuedPersists(db, next, j);
    case Leased(l) => CarriesPersists(db, next, l);
    case NoLease =>
      if receipt.ExpectSweep? {
        SweepPersists(db, next, receipt.summary, receipt.at);
      }
    case Recovered(s) => SweepPersists(db, next, s, receipt.at);
    case Acknowledged(ok) =>
      if ok {
        CarriesPersists(db, next, op.lease);
        if receipt.ExpectFailure? || receipt.ExpectSuccess? {
          assert PhaseOf(db.jobs[op.lease.jobId]).Settled? by { CarriedIsStarted(db, op.lease); }
        }
      }
  }

  lemma CarriedIsStarted(db: Db, l: Lease)
    requires Inv(db) && Carries(db, l)
    ensures l.jobId in db.jobs && l.attemptId in db.attempts && db.jobs[l.jobId].attemptsStarted == 1
  {
    hide AllDistinct, OneAttemptEach, JobsOk, Paired, LeaseBinds;
  }

  lemma EnqueuedPersists(db: Db, next: Db, j: Job)
    requires Advances(db, next) && j.id in db.jobs && JobAdvances(j, db.jobs[j.id])
    ensures j.id in next.jobs && JobAdvances(j, next.jobs[j.id])
  {
    assert JobAdvances(db.jobs[j.id], next.jobs[j.id]);
  }

  lemma SweepPersists(db: Db, next: Db, s: Summary, at: Time)
    requires Inv(db) && Inv(next) && Advances(db, next) && SweepMatches(db, db, s, at)
    ensures SweepMatches(next, next, s, at)
  {
    hide Inv, SweptRow, Advances;
    forall id | id in s.requeued ensures SweptRow(next, next, id, at, true) {
      SweptRowPersists(db, next, id, at, true);
    }
    forall id | id in s.exhausted ensures SweptRow(next, next, id, at, id in s.requeued) {
      SweptRowPersists(db, next, id, at, id in s.requeued);
    }
  }

  // ----- Every reachable world -----

  ghost predicate CallOk(db: Db, c: Call) {
    match c.progress
    case Done(Returned(answer), receipt) =>
      ArgumentsOk(c.op) && Agrees(db, c.op, answer, receipt) && Fits(c.op, c.now, answer, receipt)
    case Done(_, _) => true
    case Pending(answer, receipt, _) => ArgumentsOk(c.op) && Fits(c.op, c.now, answer, receipt)
  }

  /** A transaction is left open only on a store that is already quarantined. */
  predicate FlagsOk(f: Flags) {
    (f.transactionOpen ==> f.poisoned) && (f.poisoned ==> f.closed)
  }

  ghost predicate WorldOk(w: World) {
    && Inv(w.db)
    && (forall c | c in w.calls :: CallOk(w.db, w.calls[c]))
    && (forall s | s in w.stores :: FlagsOk(w.stores[s]))
  }

  /** What one transaction may leave behind, given the step its body would take: the tables unchanged or one whole step
      ahead, and a verdict that fits. */
  predicate TurnFits(f: Flags, db: Db, step: Outcome<Effect>, t: Turn) {
    && FlagsOk(t.flags)
    && (t.db == db || (step.Ok? && t.db == step.value.db))
    && (match t.progress
        case Done(Returned(answer), receipt) => step == Ok(Effect(t.db, answer, receipt))
        case Done(Faulted(fault), _) => t.db == db && step == Raised(fault)
        case Done(Ambiguous, _) => t.flags.poisoned
        case Done(Signalled(ambiguous), _) => if ambiguous then t.flags.poisoned else t.db == db
        case Done(_, _) => t.db == db
        case Pending(answer, receipt, _) =>
          && Usable(t.flags) && !t.flags.transactionOpen
          && step.Ok? && answer == step.value.answer && receipt == step.value.receipt)
    && (f.poisoned ==> t.flags == f && t.progress == Ended(Quarantined))
  }

  lemma GivingUpFits(f: Flags, g: Flags, db: Db, step: Outcome<Effect>, after: Db, control: bool, close: Ack)
    requires !f.poisoned && (after == db || (step.Ok? && after == step.value.db))
    ensures TurnFits(f, db, step, GiveUp(g, after, control, close))
  {
  }

  lemma UndoingFits(f: Flags, db: Db, step: Outcome<Effect>, control: bool, s: Script, otherwise: Verdict)
    requires Usable(f) && FlagsOk(f)
    requires otherwise.RolledBack? || (otherwise.Faulted? && step == Raised(otherwise.fault))
    ensures TurnFits(f, db, step, Undo(f, db, control, s, otherwise))
  {
    hide GiveUp;
    match s.rollback
    case Refused(c) => GivingUpFits(f, f.(transactionOpen := true), db, step, db, control || c, s.close);
    case Acked =>
  }

  lemma FinishingFits(f: Flags, db: Db, e: Effect, s: Script)
    requires Usable(f) && FlagsOk(f)
    ensures TurnFits(f, db, Ok(e), FinishCommit(f, db, e, s))
  {
    hide GiveUp, Undo;
    match s.commit
    case Committed =>
    case CommitRefused(control, SaysOpen, _) => UndoingFits(f, db, Ok(e), control, s, RolledBack);
    case CommitRefused(_, SaysClosed, _) =>
    case CommitRefused(control, Unreadable(c), durable) =>
      GivingUpFits(f, f.(transactionOpen := !durable), db, Ok(e), if durable then e.db else db, control || c, s.close);
  }

  /** The tables after a call's transaction: unchanged, or one whole step. */
  lemma TransactOutcome(f: Flags, db: Db, op: Op, now: Time, s: Script)
    requires ArgumentsOk(op) && FlagsOk(f)
    ensures TurnFits(f, db, Step(db, op, now), Transact(f, db, op, now, s))
  {
    hide Step, GiveUp, Undo, FinishCommit;
    var step := Step(db, op, now);
    if Usable(f) {
      match s.begin
      case BeginRefused(control, SaysOpen) => UndoingFits(f, db, step, control, s, RolledBack);
      case BeginRefused(_, SaysClosed) =>
      case BeginRefused(control, Unreadable(c)) =>
        GivingUpFits(f, f.(transactionOpen := true), db, step, db, control || c, s.close);
      case Begun =>
        match s.body
        case BodyInterrupted(control) => UndoingFits(f, db, step, control, s, RolledBack);
        case BodyRuns =>
          match step
          case Raised(fault) => UndoingFits(f, db, step, false, s, PublicFault(fault));
          case Ok(e) => FinishingFits(f, db, e, s);
    }
  }

  lemma TransactKeepsWorld(f: Flags, db: Db, op: Op, now: Time, s: Script)
    requires ArgumentsOk(op) && FlagsOk(f) && Inv(db)
    ensures var t := Transact(f, db, op, now, s);
      && Inv(t.db) && Advances(db, t.db) && FlagsOk(t.flags)
      && CallOk(t.db, Call(0, op, now, t.progress))
  {
    hide Inv, Step, Transact, Advances, Agrees, Fits, ReadBack;
    TransactOutcome(f, db, op, now, s);
    StepKeepsInv(db, op, now);
    StandingStill(db);
    StepFits(db, op, now);
    DurableStepIsConfirmed(db, op, now);
    var t := Transact(f, db, op, now, s);
    if Step(db, op, now).Ok? {
      var e := Step(db, op, now).value;
      ReadBackAgrees(e.db, op, now, e.answer, e.receipt);
    }
  }

  lemma ReconcileOutcome(f: Flags, db: Db, op: Op, now: Time, p: Progress, read: ReadFate, close: Ack)
    requires Inv(db) && p.Pending? && Fits(op, now, p.answer, p.receipt) && FlagsOk(f)
    ensures var (f1, q) := Reconcile(f, db, op, p, read, close);
      && FlagsOk(f1) && q.Done? && (f.poisoned ==> f1.poisoned)
      && (q.verdict.Returned? || q.verdict in {Ambiguous, Signalled(true), Signalled(false)})
      && (q.verdict.Returned? ==>
            && Agrees(db, op, q.verdict.answer, q.receipt) && Fits(op, now, q.verdict.answer, q.receipt)
            && ReadBack(db, op, q.verdict.answer, q.receipt) == Some(q.verdict.answer))
      && (q.verdict == Signalled(true) ==> f1.poisoned)
  {
    hide Inv, ReadBack, Agrees, Fits;
    ReadBackAgrees(db, op, now, p.answer, p.receipt);
    ReadBackRepeats(db, op, p.answer, p.receipt);
    if NeedsNoReading(p.receipt) {
      NothingReadIsConfirmed(db, op, p.answer, p.receipt);
    }
  }

  /** Reading back what was read back confirms it. */
  lemma ReadBackRepeats(db: Db, op: Op, answer: Answer, receipt: Receipt)
    ensures var found := ReadBack(db, op, answer, receipt);
      found.Some? ==> ReadBack(db, op, found.value, receipt) == found
  {
    hide LeaseSnapshot, SweepMatches, JobOk, ExistingMatches;
  }

  lemma NothingReadIsConfirmed(db: Db, op: Op, answer: Answer, receipt: Receipt)
    requires NeedsNoReading(receipt)
    ensures ReadBack(db, op, answer, receipt) == Some(answer)
  {
  }

  lemma AfterKeepsWorld(w: World, e: Event)
    requires WorldOk(w)
    ensures WorldOk(After(w, e)) && Advances(w.db, After(w, e).db)
  {
    hide Inv, Advances, CallOk, Transact, Reconcile, ArgumentsOk;
    StandingStill(w.db);
    match e
    case Opens(_) =>
    case Closes(_, _) =>
    case Calls(c, s, op, now, script) =>
      if c !in w.calls && s in w.stores {
        if ArgumentsOk(op) {
          TransactKeepsWorld(w.stores[s], w.db, op, now, script);
          var t := Transact(w.stores[s], w.db, op, now, script);
          StoreNumberIsIrrelevant(t.db, Call(0, op, now, t.progress), Call(s, op, now, t.progress));
          forall k | k in w.calls ensures CallOk(t.db, w.calls[k]) {
            CallPersists(w.db, t.db, w.calls[k]);
          }
        } else {
          RejectedIsOk(w.db, Call(s, op, now, Ended(Rejected)));
        }
      }
    case ReadsBack(c, read, close) =>
      if c in w.calls && w.calls[c].progress.Pending? && w.calls[c].store in w.stores {
        var call := w.calls[c];
        PendingFits(w.db, call);
        ReconcileOutcome(w.stores[call.store], w.db, call.op, call.now, call.progress, read, close);
        ReconciledIsOk(w.db, call, Reconcile(w.stores[call.store], w.db, call.op, call.progress, read, close).1);
      }
  }

  lemma StoreNumberIsIrrelevant(db: Db, c: Call, d: Call)
    requires CallOk(db, c) && c.op == d.op && c.now == d.now && c.progress == d.progress
    ensures CallOk(db, d)
  {
  }

  lemma RejectedIsOk(db: Db, c: Call)
    requires c.progress == Ended(Rejected)
    ensures CallOk(db, c)
  {
  }

  lemma PendingFits(db: Db, c: Call)
    requires CallOk(db, c) && c.progress.Pending?
    ensures ArgumentsOk(c.op) && Fits(c.op, c.now, c.progress.answer, c.progress.receipt)
  {
  }

  lemma ReconciledIsOk(db: Db, c: Call, q: Progress)
    requires q.Done?
    requires q.verdict.Returned? ==>
      && ArgumentsOk(c.op)
      && Agrees(db, c.op, q.verdict.answer, q.receipt) && Fits(c.op, c.now, q.verdict.answer, q.receipt)
    ensures CallOk(db, c.(progress := q))
  {
  }

  lemma CallPersists(db: Db, next: Db, c: Call)
    requires Inv(db) && Inv(next) && Advances(db, next) && CallOk(db, c)
    ensures CallOk(next, c)
  {
    hide Inv, Advances, Agrees, Fits;
    match c.progress
    case Done(Returned(answer), receipt) => AgreesPersists(db, next, c.op, answer, receipt);
    case _ =>
  }

  /** Whatever the stores, clocks, drivers and interleaving do: the rows stay valid, rows only advance, and every
      acknowledgement already given stays true. */
  lemma {:induction false} RunKeepsWorld(w: World, events: seq<Event>)
    requires WorldOk(w)
    ensures WorldOk(Run(w, events)) && Advances(w.db, Run(w, events).db)
    decreases |events|
  {
    hide WorldOk, Advances, After;
    if events == [] {
      StandingStill(w.db);
    } else {
      var front := events[..|events| - 1];
      RunKeepsWorld(w, front);
      AfterKeepsWorld(Run(w, front), events[|events| - 1]);
      AdvancesIsTransitive(w.db, Run(w, front).db, Run(w, events).db);
    }
  }
}
