/** What every call is told, script by script: the verdict of its transaction and of its read-back in every reachable world. */
module InvocationVerdicts {
  import opened Common
  import opened InvocationText
  import opened InvocationRows
  import opened InvocationSteps
  import opened InvocationInvariant
  import opened InvocationReadBack
  import opened InvocationWorld
  import opened InvocationTheorems

  // ----- How a transaction goes -----

  /** BEGIN succeeded and nothing interrupted the body. */
  predicate BodyEnds(s: Script) {
    s.begin.Begun? && s.body.BodyRuns?
  }

  predicate CommitFails(s: Script, step: Outcome<Effect>) {
    BodyEnds(s) && step.Ok? && s.commit.CommitRefused?
  }

  /** The transaction is known to be open: its body did not come to its COMMIT, or COMMIT left it open. */
  predicate LeftOpen(s: Script, step: Outcome<Effect>) {
    || (s.begin.BeginRefused? && s.begin.state.SaysOpen?)
    || (s.begin.Begun? && s.body.BodyInterrupted?)
    || (BodyEnds(s) && step.Raised?)
    || (CommitFails(s, step) && s.commit.state.SaysOpen?)
  }

  /** The connection does not say whether the transaction is open. */
  predicate StateUnknown(s: Script, step: Outcome<Effect>) {
    || (s.begin.BeginRefused? && s.begin.state.Unreadable?)
    || (CommitFails(s, step) && s.commit.state.Unreadable?)
  }

  predicate NeverBegun(s: Script) {
    s.begin.BeginRefused? && s.begin.state.SaysClosed?
  }

  /** Nothing more can be found out about the transaction. */
  predicate OutOfReach(s: Script, step: Outcome<Effect>) {
    StateUnknown(s, step) || (LeftOpen(s, step) && s.rollback.Refused?)
  }

  /** The transaction was undone, or never was. */
  predicate Undone(s: Script, step: Outcome<Effect>) {
    NeverBegun(s) || (LeftOpen(s, step) && s.rollback.Acked?)
  }

  /** A control signal broke into BEGIN, the body or COMMIT. */
  predicate Interrupted(s: Script, step: Outcome<Effect>) {
    || (s.begin.BeginRefused? && s.begin.control)
    || (s.begin.Begun? && s.body.BodyInterrupted? && s.body.control)
    || (CommitFails(s, step) && s.commit.control)
  }

  /** A control signal broke into looking at the connection, rolling it back or closing it. */
  predicate InterruptedAfter(f: Flags, s: Script, step: Outcome<Effect>) {
    || (s.begin.BeginRefused? && s.begin.state == Unreadable(true))
    || (CommitFails(s, step) && s.commit.state == Unreadable(true))
    || (LeftOpen(s, step) && s.rollback == Refused(true))
    || (!f.connectionClosed && s.close == Refused(true))
  }

  /** The faults a caller is told by name. */
  predicate IsNamed(step: Outcome<Effect>) {
    step.Raised? && step.fault in {Conflict, Integrity, ClockRegression, BadValue}
  }

  /** The transaction reached the disk. */
  predicate Reaches(s: Script, step: Outcome<Effect>) {
    && BodyEnds(s) && step.Ok?
    && (s.commit.Committed? || (!s.commit.state.SaysOpen? && s.commit.durable))
  }

  // ----- The verdicts -----

  /** The verdict of a call on a usable store, exactly. */
  ghost predicate EndsExactly(f: Flags, s: Script, step: Outcome<Effect>, p: Progress) {
    && (p.Done? && p.verdict.Returned? <==> BodyEnds(s) && step.Ok? && s.commit.Committed?)
    && (p.Done? && p.verdict.Returned? ==> p.verdict.answer == step.value.answer && p.receipt == step.value.receipt)
    && (p.Pending? <==> CommitFails(s, step) && s.commit.state.SaysClosed?)
    && (p.Pending? ==> p == Pending(step.value.answer, step.value.receipt, s.commit.control))
    && (p.Done? && p.verdict.Faulted? <==> BodyEnds(s) && IsNamed(step) && s.rollback.Acked?)
    && (p.Done? && p.verdict.Faulted? ==> p.verdict.fault == step.fault)
    && (p == Ended(RolledBack) <==>
          Undone(s, step) && !Interrupted(s, step) && !(BodyEnds(s) && IsNamed(step)))
    && (p == Ended(Signalled(false)) <==> Undone(s, step) && Interrupted(s, step))
    && (p == Ended(Ambiguous) <==> OutOfReach(s, step) && !Interrupted(s, step) && !InterruptedAfter(f, s, step))
    && (p == Ended(Signalled(true)) <==> OutOfReach(s, step) && (Interrupted(s, step) || InterruptedAfter(f, s, step)))
  }

  /** The store afterwards: quarantined exactly when the transaction is out of reach. */
  ghost predicate LeavesStore(f: Flags, s: Script, step: Outcome<Effect>, g: Flags) {
    if OutOfReach(s, step) then
      && g.poisoned && g.closed
      && (g.connectionClosed <==> f.connectionClosed || s.close.Acked?)
      && (g.transactionOpen <==> (f.connectionClosed || s.close.Refused?) && !Reaches(s, step))
    else g == f
  }

  ghost predicate TurnIsExact(f: Flags, db: Db, s: Script, step: Outcome<Effect>, t: Turn) {
    EndsExactly(f, s, step, t.progress) && LeavesStore(f, s, step, t.flags) && t.db == (if Reaches(s, step) then step.value.db else db)
  }

  lemma RefusedBegin(f: Flags, db: Db, op: Op, now: Time, s: Script)
    requires ArgumentsOk(op) && Usable(f) && FlagsOk(f) && s.begin.BeginRefused?
    ensures TurnIsExact(f, db, s, Step(db, op, now), Transact(f, db, op, now, s))
  {
    hide Step, ArgumentsOk;
  }

  lemma InterruptedBody(f: Flags, db: Db, op: Op, now: Time, s: Script)
    requires ArgumentsOk(op) && Usable(f) && FlagsOk(f) && s.begin.Begun? && s.body.BodyInterrupted?
    ensures TurnIsExact(f, db, s, Step(db, op, now), Transact(f, db, op, now, s))
  {
    hide Step, ArgumentsOk;
  }

  lemma RaisedStep(f: Flags, db: Db, op: Op, now: Time, s: Script)
    requires ArgumentsOk(op) && Usable(f) && FlagsOk(f) && BodyEnds(s) && Step(db, op, now).Raised?
    ensures TurnIsExact(f, db, s, Step(db, op, now), Transact(f, db, op, now, s))
  {
    hide Step, ArgumentsOk;
    var fault := Step(db, op, now).fault;
    assert fault in {Conflict, Integrity, ClockRegression, BadValue} <==> !fault.Internal?;
  }

  lemma FinishedStep(f: Flags, db: Db, op: Op, now: Time, s: Script)
    requires ArgumentsOk(op) && Usable(f) && FlagsOk(f) && BodyEnds(s) && Step(db, op, now).Ok?
    ensures TurnIsExact(f, db, s, Step(db, op, now), Transact(f, db, op, now, s))
  {
    hide Step, ArgumentsOk;
  }

  lemma TransactEndsExactly(f: Flags, db: Db, op: Op, now: Time, s: Script)
    requires ArgumentsOk(op) && Usable(f) && FlagsOk(f)
    ensures TurnIsExact(f, db, s, Step(db, op, now), Transact(f, db, op, now, s))
  {
    hide Step, ArgumentsOk, TurnIsExact, Transact;
    if s.begin.BeginRefused? {
      RefusedBegin(f, db, op, now, s);
    } else if s.body.BodyInterrupted? {
      InterruptedBody(f, db, op, now, s);
    } else if Step(db, op, now).Raised? {
      RaisedStep(f, db, op, now, s);
    } else {
      FinishedStep(f, db, op, now, s);
    }
  }

  /** In every reachable world, for every operation and every way the driver can go: the verdict of a call on a usable store, the
      tables, the store and everything else afterwards. */
  lemma CallsEndExactly(events: seq<Event>, c: nat, s: nat, op: Op, now: Time, script: Script)
    ensures var w := Reached(events); var next := After(w, Calls(c, s, op, now, script));
      c !in w.calls && s in w.stores && Usable(w.stores[s]) && ArgumentsOk(op) ==>
        var step := Step(w.db, op, now);
        && c in next.calls && s in next.stores
        && next.calls[c].store == s && next.calls[c].op == op && next.calls[c].now == now
        && EndsExactly(w.stores[s], script, step, next.calls[c].progress)
        && LeavesStore(w.stores[s], script, step, next.stores[s])
        && next.db == (if Reaches(script, step) then step.value.db else w.db)
        && next.calls - {c} == w.calls && next.stores - {s} == w.stores - {s}
  {
    hide Run, Inv, Step, Transact, ArgumentsOk, CallOk, EndsExactly, LeavesStore;
    var w := Reached(events);
    ReachedIsOk(events);
    if c !in w.calls && s in w.stores && Usable(w.stores[s]) && ArgumentsOk(op) {
      TransactEndsExactly(w.stores[s], w.db, op, now, script);
      assert FlagsOk(w.stores[s]);
    }
  }

  // ----- Reading back at once -----

  /** The step answers without anything to look for: a stale lease, or nothing fenced and nothing to claim. */
  predicate NothingToFind(db: Db, e: Effect) {
    e.answer == Acknowledged(false) || ((e.answer.NoLease? || e.answer.Recovered?) && e.db == db)
  }

  lemma NeedsNoReadingExactly(db: Db, op: Op, now: Time)
    requires Inv(db) && ArgumentsOk(op) && Step(db, op, now).Ok?
    ensures NeedsNoReading(Step(db, op, now).value.receipt) <==> NothingToFind(db, Step(db, op, now).value)
  {
    hide Inv, Acceptable, SpecOk, LeaseOk, Sweep, SelectCandidate, ClaimRow, Owned, StoredError, JobOk, ExistingMatches, Put;
    match op
    case Claim(_, target, _, _, _) =>
      SweepNotConfirmed(db, now, target, ClaimSweepLimit(op));
      SweepFencing(db, now, target, ClaimSweepLimit(op));
    case Recover(limit) =>
      var most: Option<nat> := Some(limit);
      SweepNotConfirmed(db, now, None, most);
      SweepFencing(db, now, None, most);
    case _ =>
  }

  /** A sweep that counts anything changes the tables. */
  lemma SweepFencing(db: Db, now: Time, target: Option<string>, limit: Option<nat>)
    requires Inv(db)
    ensures var r := Sweep(db, now, target, limit); r.Ok? && Count(r.value.1) > 0 ==> r.value.0 != db
  {
    hide Inv, Sweep, SweepMatches;
    SweepNotConfirmed(db, now, target, limit);
    SweepIsConfirmed(db, now, target, limit);
  }

  /** A control signal reaches the caller while the outcome is unknown. */
  predicate SignalledReading(f: Flags, s: Script, read: ReadFate, close: Ack) {
    || (s.commit.CommitRefused? && s.commit.control)
    || (read.ReadFails? && (read.control || (read.poisons && !f.connectionClosed && close == Refused(true))))
  }

  /** The verdict of reading back at once, for a commit whose transaction had ended. */
  ghost predicate ReadsExactly(f: Flags, db: Db, s: Script, e: Effect, read: ReadFate, close: Ack, p: Progress)
    requires s.commit.CommitRefused?
  {
    var known := NothingToFind(db, e) || (read.ReadWorks? && (s.commit.durable || e.db == db));
    && (p == Done(Returned(e.answer), e.receipt) <==> known && !s.commit.control)
    && (p == Ended(Signalled(false)) <==> known && s.commit.control)
    && (p == Ended(Ambiguous) <==> !known && !SignalledReading(f, s, read, close))
    && (p == Ended(Signalled(true)) <==> !known && SignalledReading(f, s, read, close))
  }

  lemma ReconcilesExactly(f: Flags, db: Db, mid: Db, op: Op, s: Script, e: Effect, read: ReadFate, close: Ack)
    requires s.commit.CommitRefused? && Usable(f) && mid == if s.commit.durable then e.db else db
    requires NeedsNoReading(e.receipt) <==> NothingToFind(db, e)
    requires ReadBack(e.db, op, e.answer, e.receipt) == Some(e.answer)
    requires ReadBack(db, op, e.answer, e.receipt).Some? ==> e.db == db
    ensures var (g, q) := Reconcile(f, mid, op, Pending(e.answer, e.receipt, s.commit.control), read, close);
      && ReadsExactly(f, db, s, e, read, close, q)
      && (g.poisoned <==> q == Ended(Signalled(true)) || (read.ReadFails? && read.poisons && !NothingToFind(db, e)))
  {
    hide NothingToFind, ReadBack, NeedsNoReading;
  }

  /** Reading back right after such a commit, in every reachable world: the step's own answer exactly when the step became
      durable, had nothing to change or had nothing to find; otherwise the caller learns that the outcome is unknown. */
  lemma ReadBacksEndExactly(events: seq<Event>, c: nat, s: nat, op: Op, now: Time, script: Script, read: ReadFate, close: Ack)
    requires script.commit.CommitRefused?
    ensures var w := Reached(events); var mid := After(w, Calls(c, s, op, now, script)); var next := After(mid, ReadsBack(c, read, close));
      c !in w.calls && s in w.stores && Usable(w.stores[s]) && ArgumentsOk(op) ==>
        var step := Step(w.db, op, now);
        CommitFails(script, step) && script.commit.state.SaysClosed? ==>
          && next.db == mid.db && c in next.calls && s in next.stores
          && ReadsExactly(w.stores[s], w.db, script, step.value, read, close, next.calls[c].progress)
          && (next.stores[s].poisoned <==>
                || next.calls[c].progress == Ended(Signalled(true))
                || (read.ReadFails? && read.poisons && !NothingToFind(w.db, step.value)))
  {
    hide Run, Inv, Step, Transact, ArgumentsOk, CallOk, EndsExactly, LeavesStore, NothingToFind, ReadBack, NeedsNoReading,
         ReadsExactly, Reconcile;
    var w := Reached(events);
    var mid := After(w, Calls(c, s, op, now, script));
    CallsEndExactly(events, c, s, op, now, script);
    ReachedIsOk(events);
    if c !in w.calls && s in w.stores && Usable(w.stores[s]) && ArgumentsOk(op) {
      var step := Step(w.db, op, now);
      if CommitFails(script, step) && script.commit.state.SaysClosed? {
        var e := step.value;
        ClosedCommit(w.stores[s], script, step, mid.calls[c].progress, mid.stores[s]);
        NeedsNoReadingExactly(w.db, op, now);
        DurableStepIsConfirmed(w.db, op, now);
        LostStepIsNotConfirmed(w.db, op, now);
        ReconcilesExactly(w.stores[s], w.db, mid.db, op, script, e, read, close);
      }
    }
  }

  lemma ClosedCommit(f: Flags, s: Script, step: Outcome<Effect>, p: Progress, g: Flags)
    requires EndsExactly(f, s, step, p) && LeavesStore(f, s, step, g)
    requires CommitFails(s, step) && s.commit.state.SaysClosed?
    ensures p == Pending(step.value.answer, step.value.receipt, s.commit.control) && g == f
  {
  }

  /** A store that was closed or quarantined while a commit of its was pending reads nothing back. */
  lemma UnusableStoresReadNothing(events: seq<Event>, c: nat, read: ReadFate, close: Ack)
    ensures var w := Reached(events); var next := After(w, ReadsBack(c, read, close));
      c in w.calls && w.calls[c].progress.Pending? && w.calls[c].store in w.stores && !Usable(w.stores[w.calls[c].store]) ==>
        var p := w.calls[c].progress; var q := next.calls[c].progress;
        && next.db == w.db
        && (q == Done(Returned(p.answer), p.receipt) <==> NeedsNoReading(p.receipt) && !p.control)
        && (q == Ended(Signalled(false)) <==> NeedsNoReading(p.receipt) && p.control)
        && (q == Ended(Ambiguous) <==> !NeedsNoReading(p.receipt) && !p.control)
        && (q == Ended(Signalled(true)) <==> !NeedsNoReading(p.receipt) && p.control)
  {
    hide Run, NeedsNoReading, ReadBack;
  }

  // ----- Stores that refuse -----

  /** A store that is not usable, and a call with bad arguments, touch nothing. */
  lemma RefusalsTouchNothing(events: seq<Event>, c: nat, s: nat, op: Op, now: Time, script: Script)
    ensures var w := Reached(events); var next := After(w, Calls(c, s, op, now, script));
      c !in w.calls && s in w.stores && !(Usable(w.stores[s]) && ArgumentsOk(op)) ==>
        && next.db == w.db && next.stores == w.stores && c in next.calls
        && next.calls[c].progress ==
             Ended(if !ArgumentsOk(op) then Rejected else if w.stores[s].poisoned then Quarantined else StoreClosed)
  {
    hide Run, Step, ArgumentsOk;
    var w := Reached(events);
    if s in w.stores {
      assert w.stores[s := w.stores[s]] == w.stores;
    }
  }

  /** Opening gives a usable store; closing marks it closed, whatever the driver says, and with the connection ends its transaction. */
  lemma StoresOpenAndClose(events: seq<Event>, s: nat, close: Ack)
    ensures var w := Reached(events);
      && (s !in w.stores ==>
            && After(w, Opens(s)) == World(w.db, w.stores[s := After(w, Opens(s)).stores[s]], w.calls)
            && Usable(After(w, Opens(s)).stores[s]) && !After(w, Opens(s)).stores[s].connectionClosed)
      && (s in w.stores ==>
            var f, next := w.stores[s], After(w, Closes(s, close));
            && next == World(w.db, w.stores[s := next.stores[s]], w.calls) && var g := next.stores[s];
            && g.closed && g.poisoned == f.poisoned && (g.connectionClosed <==> f.connectionClosed || close.Acked?)
            && (g.transactionOpen <==> f.transactionOpen && (f.connectionClosed || close.Refused?)))
  {
    hide Run;
  }

  /** A closed store stays closed, through any further events. */
  lemma {:induction false} ClosedStoresStayClosed(w: World, events: seq<Event>, s: nat)
    requires s in w.stores && w.stores[s].closed
    ensures s in Run(w, events).stores && Run(w, events).stores[s].closed
    decreases |events|
  {
    hide Transact, Reconcile, ArgumentsOk;
    if events != [] {
      var front, e := events[..|events| - 1], events[|events| - 1];
      ClosedStoresStayClosed(w, front, s);
      EventKeepsClosed(Run(w, front), e, s);
    }
  }

  lemma EventKeepsClosed(w: World, e: Event, s: nat)
    requires s in w.stores && w.stores[s].closed
    ensures s in After(w, e).stores && After(w, e).stores[s].closed
  {
    hide Step, ReadBack, ArgumentsOk;
  }
}
