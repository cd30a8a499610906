/** Keep-alive in the whole world: driver faults, pending commits and read-backs included. */
module InvocationKeepAlive {
  import opened Common
  import opened InvocationText
  import opened InvocationRows
  import opened InvocationSteps
  import opened InvocationInvariant
  import opened InvocationReadBack
  import opened InvocationWorld
  import opened InvocationFencing
  import opened InvocationSelection
  import opened InvocationTheorems

  /** A beat's call returns true if it returns at all, now or after reading back; it is never answered false or faulted. */
  predicate BeatsTrue(c: Call) {
    match c.progress
    case Done(Returned(answer), _) => answer == Acknowledged(true)
    case Done(Faulted(_), _) => false
    case Done(_, _) => true
    case Pending(answer, _, _) => answer == Acknowledged(true)
  }

  /** The event comes no earlier than the clock so far and strictly within a length of the last answered beat; it is a beat or
      does not present the lease's token. */
  predicate InTime(e: Event, l: Lease, length: int, last: Time, clock: Time) {
    e.Calls? ==>
      && clock <= e.now < last + length
      && (e.op == Heartbeat(l, length) || Foreign(e.op, l))
      && (e.op == Heartbeat(l, length) ==> e.now + length <= MAX_TIME)
  }

  /** The time of the last beat that was answered at once. */
  function NextBeat(w: World, e: Event, l: Lease, length: int, last: Time): Time {
    if e.Calls? && e.op == Heartbeat(l, length) && e.call !in w.calls && HasReturned(After(w, e), e.call) then e.now else last
  }

  function NextClock(e: Event, clock: Time): Time {
    if e.Calls? then e.now else clock
  }

  function LastBeat(w: World, l: Lease, length: int, start: Time, events: seq<Event>): Time
    decreases |events|
  {
    if events == [] then start else
    var front := events[..|events| - 1];
    NextBeat(Run(w, front), events[|events| - 1], l, length, LastBeat(w, l, length, start, front))
  }

  function LatestClock(start: Time, events: seq<Event>): Time
    decreases |events|
  {
    if events == [] then start else NextClock(events[|events| - 1], LatestClock(start, events[..|events| - 1]))
  }

  /** A run on a clock that never goes back, in which answered beats follow each other at gaps shorter than the lease. */
  predicate KeptAliveThrough(w: World, l: Lease, length: int, start: Time, events: seq<Event>)
    decreases |events|
  {
    events == [] || (
      var front := events[..|events| - 1];
      && KeptAliveThrough(w, l, length, start, front)
      && InTime(events[|events| - 1], l, length, LastBeat(w, l, length, start, front), LatestClock(start, front)))
  }

  /** The job still has a deadline, and no earlier one. */
  predicate DeadlineStays(db: Db, next: Db, l: Lease) {
    && l.jobId in db.jobs && l.jobId in next.jobs && db.jobs[l.jobId].expiresAt.Some? && next.jobs[l.jobId].expiresAt.Some?
    && db.jobs[l.jobId].expiresAt.value <= next.jobs[l.jobId].expiresAt.value
  }

  ghost predicate BeatsSinceAreTrue(w: World, next: World, l: Lease, length: int) {
    forall c | c in next.calls && c !in w.calls && next.calls[c].op == Heartbeat(l, length) :: BeatsTrue(next.calls[c])
  }

  lemma HeldLonger(db: Db, l: Lease, length: int, last: Time, clock: Time, earlier: Time, later: Time)
    requires Held(db, l, length, last, clock) && earlier <= last && clock <= later
    ensures Held(db, l, length, earlier, later)
  {
    hide Carries;
  }

  lemma HeldIsNotExpired(db: Db, l: Lease, length: int, last: Time, clock: Time, now: Time)
    requires Held(db, l, length, last, clock) && now < last + length
    ensures l.jobId in db.jobs && !IsExpired(db.jobs[l.jobId], now, None)
    ensures Carries(db, l) && db.jobs[l.jobId].status.Running?
  {
  }

  lemma SameRowsAreHeld(db: Db, next: Db, l: Lease, length: int, last: Time, clock: Time)
    requires Held(db, l, length, last, clock)
    requires l.jobId in next.jobs && next.jobs[l.jobId] == db.jobs[l.jobId]
    requires l.attemptId in next.attempts && next.attempts[l.attemptId] == db.attempts[l.attemptId]
    ensures Held(next, l, length, last, clock)
  {
  }

  /** One step of the holder or of anybody else. */
  lemma StepKeepsHeld(db: Db, op: Op, now: Time, l: Lease, length: int, last: Time, clock: Time)
    requires Inv(db) && ArgumentsOk(op) && LeaseOk(l) && 0 < length && Held(db, l, length, last, clock)
    requires last <= clock && InTime(Calls(0, 0, op, now, SMOOTH), l, length, last, clock)
    ensures var r := Step(db, op, now);
      && (r.Ok? ==> Held(r.value.db, l, length, last, now) && DeadlineStays(db, r.value.db, l))
      && (op == Heartbeat(l, length) ==> r.Ok? && r.value.answer == Acknowledged(true) && Held(r.value.db, l, length, now, now))
  {
    hide Inv, Step, Carries, Held, ArgumentsOk, LeaseOk;
    HeldLonger(db, l, length, last, clock, last, now);
    HeldHasDeadline(db, l, length, last, now);
    if op == Heartbeat(l, length) {
      BeatIsAcknowledged(db, l, length, last, clock, now);
      var next := Step(db, op, now).value.db;
      HeldLonger(next, l, length, now, now, last, now);
      HeldHasDeadline(next, l, length, now, now);
    } else if Step(db, op, now).Ok? {
      HeldIsNotExpired(db, l, length, last, clock, now);
      ForeignLeavesAlone(db, op, now, l);
      SameRowsAreHeld(db, Step(db, op, now).value.db, l, length, last, now);
    }
  }

  /** What a driver does when nothing fails. */
  const SMOOTH := Script(Begun, BodyRuns, Committed, Acked, Acked)

  predicate IsSmooth(s: Script) {
    s.begin.Begun? && s.body.BodyRuns? && s.commit.Committed?
  }

  /** One transaction through any driver, by the holder or by anybody else. */
  lemma TransactKeepsHeld(f: Flags, db: Db, op: Op, now: Time, s: Script, l: Lease, length: int, last: Time, clock: Time)
    requires Inv(db) && FlagsOk(f) && ArgumentsOk(op) && LeaseOk(l) && 0 < length && Held(db, l, length, last, clock)
    requires last <= clock && InTime(Calls(0, 0, op, now, s), l, length, last, clock)
    ensures var t := Transact(f, db, op, now, s);
      && Held(t.db, l, length, last, now) && DeadlineStays(db, t.db, l)
      && (op == Heartbeat(l, length) && t.progress.Done? && t.progress.verdict.Returned? ==> Held(t.db, l, length, now, now))
    ensures op == Heartbeat(l, length) ==> BeatsTrue(Call(0, op, now, Transact(f, db, op, now, s).progress))
  {
    hide Inv, Step, Transact, Held, ArgumentsOk, LeaseOk, Foreign;
    TransactOutcome(f, db, op, now, s);
    HeldLonger(db, l, length, last, clock, last, now);
    HeldHasDeadline(db, l, length, last, now);
    StepKeepsHeld(db, op, now, l, length, last, clock);
  }

  /** Without a fault a beat in time returns true. */
  lemma SmoothBeatReturnsTrue(f: Flags, db: Db, now: Time, s: Script, l: Lease, length: int, last: Time, clock: Time)
    requires Inv(db) && LeaseOk(l) && 0 < length && Held(db, l, length, last, clock)
    requires last <= clock && InTime(Calls(0, 0, Heartbeat(l, length), now, s), l, length, last, clock)
    requires Usable(f) && IsSmooth(s)
    ensures ArgumentsOk(Heartbeat(l, length))
    ensures var p := Transact(f, db, Heartbeat(l, length), now, s).progress;
      p.Done? && p.verdict == Returned(Acknowledged(true))
  {
    hide Inv, Step, Held, ArgumentsOk, LeaseOk;
    HeartbeatArguments(l, length);
    StepKeepsHeld(db, Heartbeat(l, length), now, l, length, last, clock);
  }

  lemma HeldHasDeadline(db: Db, l: Lease, length: int, last: Time, clock: Time)
    requires Held(db, l, length, last, clock)
    ensures l.jobId in db.jobs && db.jobs[l.jobId].expiresAt.Some? && last + length <= db.jobs[l.jobId].expiresAt.value
  {
  }

  /** Reading back never turns a beat's answer around. */
  lemma ReconcileKeepsBeats(f: Flags, db: Db, c: Call, read: ReadFate, close: Ack)
    requires Inv(db) && FlagsOk(f) && c.op.Heartbeat? && c.progress.Pending? && BeatsTrue(c)
    requires Fits(c.op, c.now, c.progress.answer, c.progress.receipt)
    ensures BeatsTrue(c.(progress := Reconcile(f, db, c.op, c.progress, read, close).1))
  {
    hide Inv, LeaseSnapshot, SweepMatches, Poison;
    ReconcileOutcome(f, db, c.op, c.now, c.progress, read, close);
  }

  /** Every event of such a run keeps the lease held, its deadline from shrinking and its beats true. */
  lemma EventKeepsHeld(w: World, e: Event, l: Lease, length: int, last: Time, clock: Time)
    requires WorldOk(w) && LeaseOk(l) && 0 < length && last <= clock && Held(w.db, l, length, last, clock)
    requires InTime(e, l, length, last, clock)
    ensures var next := After(w, e);
      && Held(next.db, l, length, NextBeat(w, e, l, length, last), NextClock(e, clock))
      && NextBeat(w, e, l, length, last) <= NextClock(e, clock)
      && DeadlineStays(w.db, next.db, l)
      && BeatsSinceAreTrue(w, next, l, length)
      && (forall c | c in w.calls :: c in next.calls && next.calls[c].op == w.calls[c].op)
      && (forall c | c in w.calls && w.calls[c].op == Heartbeat(l, length) && BeatsTrue(w.calls[c]) :: BeatsTrue(next.calls[c]))
  {
    hide Inv, Held, Transact, Reconcile, ArgumentsOk, LeaseOk, Foreign, BeatsTrue, CallOk;
    HeldHasDeadline(w.db, l, length, last, clock);
    HeldLonger(w.db, l, length, last, clock, last, NextClock(e, clock));
    match e
    case Calls(c, s, op, now, script) =>
      if c !in w.calls && s in w.stores {
        if ArgumentsOk(op) {
          StoreFlagsOk(w, s);
          TransactKeepsHeld(w.stores[s], w.db, op, now, script, l, length, last, clock);
          var t := Transact(w.stores[s], w.db, op, now, script);
          StoreIsIrrelevant(Call(0, op, now, t.progress), Call(s, op, now, t.progress));
        } else {
          RejectedBeat(Call(s, op, now, Ended(Rejected)));
        }
      }
    case ReadsBack(c, read, close) =>
      if c in w.calls && w.calls[c].progress.Pending? && w.calls[c].store in w.stores {
        var call := w.calls[c];
        if call.op == Heartbeat(l, length) && BeatsTrue(call) {
          PendingFits(w.db, call);
          ReconcileKeepsBeats(w.stores[call.store], w.db, call, read, close);
        }
      }
    case _ =>
  }

  lemma StoreFlagsOk(w: World, s: nat)
    requires WorldOk(w) && s in w.stores
    ensures FlagsOk(w.stores[s])
  {
    hide Inv, CallOk;
  }

  lemma StoreIsIrrelevant(c: Call, d: Call)
    requires c.progress == d.progress
    ensures BeatsTrue(c) == BeatsTrue(d)
  {
  }

  lemma RejectedBeat(c: Call)
    requires c.progress == Ended(Rejected)
    ensures BeatsTrue(c)
  {
  }

  /** From any valid world that holds the lease: it stays held through every such run. */
  lemma {:induction false} HeldThrough(w: World, l: Lease, length: int, start: Time, events: seq<Event>)
    requires WorldOk(w) && LeaseOk(l) && 0 < length && Held(w.db, l, length, start, start)
    requires KeptAliveThrough(w, l, length, start, events)
    ensures var next := Run(w, events);
      && Held(next.db, l, length, LastBeat(w, l, length, start, events), LatestClock(start, events))
      && LastBeat(w, l, length, start, events) <= LatestClock(start, events)
      && DeadlineStays(w.db, next.db, l)
      && BeatsSinceAreTrue(w, next, l, length) && (forall c | c in w.calls :: c in next.calls)
    decreases |events|
  {
    hide WorldOk, Held, After, InTime, NextBeat, NextClock, LeaseOk, BeatsTrue;
    if events == [] {
      HeldHasDeadline(w.db, l, length, start, start);
    } else {
      var front, e := events[..|events| - 1], events[|events| - 1];
      HeldThrough(w, l, length, start, front);
      RunKeepsWorld(w, front);
      EventKeepsHeld(Run(w, front), e, l, length, LastBeat(w, l, length, start, front), LatestClock(start, front));
    }
  }

  // ----- From the moment a lease is handed out -----

  predicate WasGranted(w: World, c: nat, l: Lease) {
    HasReturned(w, c) && w.calls[c].op.Claim? && w.calls[c].progress.verdict.answer == Leased(l)
  }

  /** A lease seen running just as it was claimed is held for its full length. */
  lemma SeenLeaseIsHeld(db: Db, op: Op, now: Time, l: Lease)
    requires Inv(db) && op.Claim? && ArgumentsOk(op) && Fits(op, now, Leased(l), ExpectLease(l))
    requires ReadBack(db, op, Leased(l), ExpectLease(l)) == Some(Leased(l))
    ensures 0 < op.length && l.claimedAt == now && LeaseOk(l) && Held(db, l, op.length, now, now)
  {
    hide Inv, LeaseSnapshot, JobOk, AttemptOk, Acceptable, WorkOk;
    LeaseSnapshotOnValid(db, l);
    StartedRows(db, l.jobId, l.attemptId);
    CarriedRows(db, l);
  }

  lemma CarriedRows(db: Db, l: Lease)
    requires Inv(db) && Carries(db, l)
    ensures var j, a := db.jobs[l.jobId], db.attempts[l.attemptId];
      && Acceptable(j.id, MAX_IDENTITY_BYTES) && WorkOk(j.work) && Acceptable(a.id, MAX_IDENTITY_BYTES)
      && j.attemptsStarted == j.epoch == 1 && 1 <= j.maxAttempts <= MAX_SQLITE_INTEGER && a.heartbeatAt < a.expiresAt
  {
    hide AllDistinct, OneAttemptEach, Acceptable, WorkOk, ErrorOk;
    assert JobOk(db.jobs[l.jobId]) && FirstAttemptOnly(db.jobs[l.jobId]);
    assert Paired(db.jobs[l.jobId], db.attempts[l.attemptId]);
  }

  /** The grant of a lease, straight from its COMMIT or through read-back, in any reachable world. */
  lemma GrantIsHeld(past: seq<Event>, e: Event, c: nat, l: Lease)
    requires var w := Reached(past); !HasReturned(w, c) && WasGranted(After(w, e), c, l)
    ensures var next := After(Reached(past), e); var length := next.calls[c].op.length;
      WorldOk(next) && 0 < length && LeaseOk(l) && Held(next.db, l, length, l.claimedAt, l.claimedAt)
  {
    hide Run, Inv, ReadBack, ArgumentsOk, Agrees, After, LeaseOk, Held;
    var w := Reached(past);
    var next := After(w, e);
    ReachedIsOk(past);
    AfterKeepsWorld(w, e);
    ReturnsAreDurable(past, e, c);
    GrantFits(next, c, l);
    SeenLeaseIsHeld(next.db, next.calls[c].op, next.calls[c].now, l);
  }

  lemma GrantFits(w: World, c: nat, l: Lease)
    requires WorldOk(w) && WasGranted(w, c, l)
    ensures var call := w.calls[c];
      && Inv(w.db) && ArgumentsOk(call.op) && call.progress.receipt == ExpectLease(l)
      && Fits(call.op, call.now, Leased(l), ExpectLease(l))
  {
    hide Inv, ArgumentsOk, Agrees;
    assert CallOk(w.db, w.calls[c]);
  }

  /** The lease is bound to its running rows. */
  ghost predicate IsAlive(db: Db, l: Lease) {
    Carries(db, l) && db.jobs[l.jobId].status.Running? && db.jobs[l.jobId].expiresAt.Some?
  }

  /** Keep-alive in the whole world. From the event that grants a lease on, in every run on a clock that never goes back and in
      which answered beats follow each other at gaps strictly shorter than the lease, whatever the other stores do and however
      every driver fails: nobody fences the lease, its deadline never shrinks, and every beat that returns returns true. */
  lemma LeasesLiveThroughFaults(past: seq<Event>, e: Event, c: nat, l: Lease, future: seq<Event>)
    ensures var w := Reached(past); var granted := After(w, e);
      !HasReturned(w, c) && WasGranted(granted, c, l) ==>
        var length := granted.calls[c].op.length;
        KeptAliveThrough(granted, l, length, l.claimedAt, future) ==>
          var next := Run(granted, future);
          && IsAlive(granted.db, l) && IsAlive(next.db, l)
          && LastBeat(granted, l, length, l.claimedAt, future) + length <= next.db.jobs[l.jobId].expiresAt.value
          && DeadlineStays(granted.db, next.db, l)
          && BeatsSinceAreTrue(granted, next, l, length)
  {
    hide WorldOk, Run, After, LeaseOk, KeptAliveThrough, LastBeat, LatestClock, BeatsSinceAreTrue;
    var w := Reached(past);
    var granted := After(w, e);
    if !HasReturned(w, c) && WasGranted(granted, c, l) {
      GrantIsHeld(past, e, c, l);
      var length := granted.calls[c].op.length;
      if KeptAliveThrough(granted, l, length, l.claimedAt, future) {
        HeldThrough(granted, l, length, l.claimedAt, future);
      }
    }
  }

  /** And a beat in time through a usable store whose driver does not fail returns true. */
  lemma FaultlessBeatsReturnTrue(past: seq<Event>, e: Event, c: nat, l: Lease, future: seq<Event>, beat: Event)
    requires beat.Calls? && IsSmooth(beat.script)
    ensures var w := Reached(past); var granted := After(w, e);
      !HasReturned(w, c) && WasGranted(granted, c, l) ==>
        var length := granted.calls[c].op.length;
        KeptAliveThrough(granted, l, length, l.claimedAt, future + [beat]) && beat.op == Heartbeat(l, length) ==>
          var here := Run(granted, future);
          beat.call !in here.calls && beat.store in here.stores && Usable(here.stores[beat.store]) ==>
            EndsAs(After(here, beat), beat.call, Returned(Acknowledged(true)))
  {
    hide WorldOk, Run, LeaseOk, LastBeat, LatestClock, BeatsSinceAreTrue, Held, Transact, ArgumentsOk, After, InTime;
    var w := Reached(past);
    var granted := After(w, e);
    assert (future + [beat])[..|future + [beat]| - 1] == future;
    if !HasReturned(w, c) && WasGranted(granted, c, l) {
      GrantIsHeld(past, e, c, l);
      var length := granted.calls[c].op.length;
      if KeptAliveThrough(granted, l, length, l.claimedAt, future + [beat]) && beat.op == Heartbeat(l, length) {
        HeldThrough(granted, l, length, l.claimedAt, future);
        RunKeepsWorld(granted, future);
        SmoothBeatEnds(Run(granted, future), beat, l, length, LastBeat(granted, l, length, l.claimedAt, future),
                       LatestClock(l.claimedAt, future));
      }
    }
  }

  lemma SmoothBeatEnds(w: World, beat: Event, l: Lease, length: int, last: Time, clock: Time)
    requires WorldOk(w) && LeaseOk(l) && 0 < length && Held(w.db, l, length, last, clock) && last <= clock
    requires beat.Calls? && beat.op == Heartbeat(l, length) && IsSmooth(beat.script) && InTime(beat, l, length, last, clock)
    ensures beat.call !in w.calls && beat.store in w.stores && Usable(w.stores[beat.store]) ==>
      EndsAs(After(w, beat), beat.call, Returned(Acknowledged(true)))
  {
    hide WorldOk, LeaseOk, Held, Transact, ArgumentsOk;
    WorldHasInv(w);
    if beat.store in w.stores && Usable(w.stores[beat.store]) {
      SmoothBeatReturnsTrue(w.stores[beat.store], w.db, beat.now, beat.script, l, length, last, clock);
    }
  }
}
