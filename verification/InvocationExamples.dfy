/** Where the invocation store does more than one might expect: the exact conditions, and concrete runs that show it. */
module InvocationExamples {
  import opened Common
  import opened InvocationText
  import opened InvocationRows
  import opened InvocationSteps
  import opened InvocationInvariant
  import opened InvocationReadBack
  import opened InvocationWorld
  import opened InvocationFencing
  import opened InvocationSelection
  import opened InvocationTheorems
  import opened InvocationKeepAlive
  import SortKeys

  // ----- The exact conditions -----

  predicate Acts(r: Outcome<Effect>) {
    r.Ok? && r.value.answer == Acknowledged(true)
  }

  /** While nobody has fenced a lease, whether it can act depends on the present clock reading alone: exactly from its rows'
      last update up to its deadline, whatever was read before. An expired lease therefore acts again when the clock goes back. */
  lemma UnfencedLeaseActsExactlyWhen(events: seq<Event>, op: Op, now: Time)
    ensures var db := Reached(events).db;
      ArgumentsOk(op) && (op.Heartbeat? || op.Complete? || op.Fail?)
      && Carries(db, op.lease) && db.jobs[op.lease.jobId].status.Running? && db.jobs[op.lease.jobId].expiresAt.Some? ==>
        var j := db.jobs[op.lease.jobId];
        Acts(Step(db, op, now)) <==>
          j.updatedAt <= now < j.expiresAt.value && (op.Heartbeat? ==> Deadline(now, op.length).Some?)
  {
    hide WorldOk, Run, Inv, ArgumentsOk, JobOk, Bound, StoredError;
    var db := Reached(events).db;
    ReachedIsOk(events);
    if ArgumentsOk(op) && (op.Heartbeat? || op.Complete? || op.Fail?) && Carries(db, op.lease) {
      CarriedIsStarted(db, op.lease);
      OwnedOnValid(db, op.lease, now);
      var j := db.jobs[op.lease.jobId];
      if j.status.Running? && j.expiresAt.Some? && now < j.expiresAt.value {
        CarrierHolds(db, op.lease, now);
      }
    }
  }

  /** Enqueue answers with a row under another invocation id exactly when one other row collides and matches in everything
      that is compared. */
  lemma EnqueueAnswersOtherIdExactlyWhen(events: seq<Event>, s: JobSpec, now: Time)
    ensures SpecOk(s) ==>
      var db := Reached(events).db; var r := EnqueueStep(db, s, now);
      r.Ok? && r.value.answer.Enqueued? && r.value.answer.job.id != s.id <==>
        exists k :: k != s.id && Colliding(db, s) == {k} && ExistingMatches(db.jobs[k], s)
  {
    hide WorldOk, Run, Inv, SpecOk, ExistingMatches, Collides, JobOk;
    var db := Reached(events).db;
    ReachedIsOk(events);
    if SpecOk(s) {
      if Colliding(db, s) == {} {
        EnqueueAddsOneWaitingJob(db, s, now, now);
      } else if |Colliding(db, s)| == 1 {
        var k := Only(Colliding(db, s));
        assert k in Colliding(db, s);
        JobRows(db, k);
        assert forall m :: Colliding(db, s) == {m} ==> m == k;
      } else {
        assert forall m :: Colliding(db, s) != {m};
      }
    }
  }

  // ----- One store whose driver never fails -----

  lemma SmoothCall(w: World, c: nat, s: nat, op: Op, now: Time)
    requires c !in w.calls && s in w.stores && w.stores[s] == FRESH_STORE && ArgumentsOk(op) && Step(w.db, op, now).Ok?
    ensures var e := Step(w.db, op, now).value;
      After(w, Calls(c, s, op, now, SMOOTH)) ==
        World(e.db, w.stores, w.calls[c := Call(s, op, now, Done(Returned(e.answer), e.receipt))])
  {
    hide Step, ArgumentsOk;
    assert w.stores[s := FRESH_STORE] == w.stores;
  }

  const A_WORK := Work("s", "p", "t", "a", "k", Sha256("x"))
  const A_SPEC := JobSpec("j", A_WORK, 0, 1, None)
  const A_RETRY := JobSpec("z", A_WORK, 0, 1, None)
  const A_JOB := NewJob(A_SPEC, 10)
  const A_CLAIM := Claim("w", None, 5, "b", "v")
  const A_LEASE := Lease("j", A_WORK, "b", 1, 1, 1, "w", "v", 10, 15)

  lemma OneLetter(s: string, n: nat)
    requires |s| == 1 && 'a' <= s[0] <= 'z' && n >= 1
    ensures Acceptable(s, n)
  {
    assert s[0] in s && !IsSpace(s[0]);
    assert Utf8Length(s[1..]) == 0;
  }

  lemma ExampleIsAcceptable()
    ensures SpecOk(A_SPEC) && SpecOk(A_RETRY) && ArgumentsOk(A_CLAIM) && LeaseOk(A_LEASE)
    ensures ArgumentsOk(Enqueue(A_SPEC)) && ArgumentsOk(Enqueue(A_RETRY)) && ArgumentsOk(Heartbeat(A_LEASE, 5))
    ensures ArgumentsOk(Complete(A_LEASE, None))
  {
    hide Acceptable;
    OneLetter("j", MAX_IDENTITY_BYTES);
    OneLetter("z", MAX_IDENTITY_BYTES);
    OneLetter("s", MAX_IDENTITY_BYTES);
    OneLetter("p", MAX_IDENTITY_BYTES);
    OneLetter("t", MAX_IDENTITY_BYTES);
    OneLetter("a", MAX_IDENTITY_BYTES);
    OneLetter("k", MAX_IDENTITY_BYTES);
    OneLetter("w", MAX_IDENTITY_BYTES);
    OneLetter("b", MAX_IDENTITY_BYTES);
    OneLetter("v", MAX_IDENTITY_BYTES);
  }

  const AT_ENQUEUE: seq<Event> := [Opens(0), Calls(0, 0, Enqueue(A_SPEC), 10, SMOOTH)]

  lemma RunOne(events: seq<Event>, e: Event)
    ensures Reached(events + [e]) == After(Reached(events), e)
  {
    assert (events + [e])[..|events + [e]| - 1] == events;
  }

  lemma EnqueueExample()
    ensures var w := Reached(AT_ENQUEUE);
      && w.db == A_DB && w.stores == map[0 := FRESH_STORE] && w.calls.Keys == {0}
  {
    hide SpecOk, ArgumentsOk, JobOk, WorkOk;
    ExampleIsAcceptable();
    RunOne([], Opens(0));
    RunOne([Opens(0)], Calls(0, 0, Enqueue(A_SPEC), 10, SMOOTH));
    assert [] + [Opens(0)] == [Opens(0)] && [Opens(0)] + [Calls(0, 0, Enqueue(A_SPEC), 10, SMOOTH)] == AT_ENQUEUE;
    ReachedIsOk([Opens(0)]);
    assert Colliding(EMPTY_DB, A_SPEC) == {};
    EnqueueAddsOneWaitingJob(EMPTY_DB, A_SPEC, 10, 10);
    SmoothCall(Reached([Opens(0)]), 0, 0, Enqueue(A_SPEC), 10);
  }

  /** A retry of an enqueue under a fresh invocation id is answered with the first row, under the first id. */
  lemma RetryUnderAnotherId()
    ensures EndsAs(Reached(AT_ENQUEUE + [Calls(1, 0, Enqueue(A_RETRY), 11, SMOOTH)]), 1, Returned(Enqueued(A_JOB)))
    ensures A_JOB.id == "j" && A_RETRY.id == "z"
  {
    hide SpecOk, ArgumentsOk, WorkOk, Run;
    ExampleIsAcceptable();
    EnqueueExample();
    ReachedIsOk(AT_ENQUEUE);
    var w := Reached(AT_ENQUEUE);
    JobRows(w.db, "j");
    assert Colliding(w.db, A_RETRY) == {"j"};
    SmoothCall(w, 1, 0, Enqueue(A_RETRY), 11);
    RunOne(AT_ENQUEUE, Calls(1, 0, Enqueue(A_RETRY), 11, SMOOTH));
  }

  const AT_CLAIM: seq<Event> := AT_ENQUEUE + [Calls(1, 0, A_CLAIM, 10, SMOOTH)]

  const A_DB := Db(map["j" := A_JOB], map[])
  const A_CLAIMED_DB :=
    Db(map["j" := ClaimedJob(A_JOB, "w", "v", 10, 15)], map["b" := FirstAttempt(A_JOB, "w", "b", "v", 10, 15)])

  lemma OneCandidate()
    ensures CandidateKeys(A_DB, 10, None) == {ClaimKey(A_JOB, "j")}
  {
    assert IsCandidate(A_JOB, 10, None);
    forall key ensures key in CandidateKeys(A_DB, 10, None) <==> key == ClaimKey(A_JOB, "j") {
      if key == ClaimKey(A_JOB, "j") {
        assert "j" in A_DB.jobs && A_DB.jobs["j"] == A_JOB;
      }
    }
  }

  lemma NothingExpired(limit: Option<nat>)
    ensures ExpiredRows(A_DB, 10, None, limit) == []
  {
    forall id ensures id !in ExpiredRows(A_DB, 10, None, limit) {
      assert id in A_DB.jobs ==> !IsExpired(A_DB.jobs[id], 10, None);
    }
    EmptyOrNot(ExpiredRows(A_DB, 10, None, limit));
  }

  lemma EmptyOrNot(ids: seq<string>)
    ensures ids == [] || exists id :: id in ids
  {
    if ids != [] {
      assert ids[0] in ids;
    }
  }

  lemma SweepOfNothing(swept: Db)
    requires Fenced(A_DB, swept, [], 10)
    ensures swept == A_DB && !TokenInUse(swept, "v")
  {
    assert swept.jobs == A_DB.jobs && swept.attempts == A_DB.attempts;
  }

  lemma ClaimedExample()
    ensures ClaimOf(A_DB, "j", A_CLAIM, 10, 15) == Effect(A_CLAIMED_DB, Leased(A_LEASE), ExpectLease(A_LEASE))
  {
  }

  /** A claim with one candidate that the sweep left alone. */
  lemma ClaimWithOneCandidate(db: Db, op: Op, now: Time, swept: Db, summary: Summary, r: Outcome<Effect>, id: string)
    requires op.Claim? && ClaimExplained(db, op, now, swept, summary, r)
    requires id in db.jobs && CandidateKeys(db, now, op.target) == {ClaimKey(db.jobs[id], id)}
    requires Deadline(now, op.length).Some? && db.jobs[id].updatedAt <= now
    requires !TokenInUse(swept, op.token) && op.attemptId !in swept.attempts
    ensures id in swept.jobs && r == Ok(ClaimOf(swept, id, op, now, Deadline(now, op.length).value))
  {
    hide ClaimOf, TokenInUse, CandidateKeys, IsCandidate, SortKeys.Precedes;
    var keys := CandidateKeys(db, now, op.target);
    assert SortKeys.Least(keys) in keys;
  }

  lemma ClaimStepExample()
    requires Inv(A_DB) && ArgumentsOk(A_CLAIM)
    ensures Step(A_DB, A_CLAIM, 10) == Ok(Effect(A_CLAIMED_DB, Leased(A_LEASE), ExpectLease(A_LEASE)))
  {
    hide ArgumentsOk, SortKeys.Precedes, JobOk, Inv, ClaimStep, Sweep, ExpiredRows, CandidateKeys, IsCandidate, Advances,
         SplitByBudget, Bound, AfterFailure, AfterExpiry, ClaimExplained, ClaimOf, Fenced, TokenInUse, ClaimKey, ClaimedJob,
         FirstAttempt, Put, SortKeys.Least, LeaseBinds;
    OneCandidate();
    NothingExpired(Some(CLAIM_SWEEP_LIMIT));
    ClaimOnValid(A_DB, A_CLAIM, 10);
    SweepKeepsInv(A_DB, 10, None, Some(CLAIM_SWEEP_LIMIT));
    var swept := Sweep(A_DB, 10, None, Some(CLAIM_SWEEP_LIMIT)).value;
    SweepOfNothing(swept.0);
    ClaimWithOneCandidate(A_DB, A_CLAIM, 10, swept.0, swept.1, ClaimStep(A_DB, A_CLAIM, 10), "j");
    ClaimedExample();
  }

  lemma ClaimExample()
    ensures var w := Reached(AT_CLAIM);
      && w.db == A_CLAIMED_DB && w.stores == map[0 := FRESH_STORE] && w.calls.Keys == {0, 1}
      && EndsAs(w, 1, Returned(Leased(A_LEASE)))
  {
    hide SpecOk, ArgumentsOk, Run, Inv, Step;
    ExampleIsAcceptable();
    EnqueueExample();
    ReachedIsOk(AT_ENQUEUE);
    ClaimStepExample();
    SmoothCall(Reached(AT_ENQUEUE), 1, 0, A_CLAIM, 10);
    RunOne(AT_ENQUEUE, Calls(1, 0, A_CLAIM, 10, SMOOTH));
  }

  lemma ClaimedRows()
    ensures Carries(A_CLAIMED_DB, A_LEASE) && A_CLAIMED_DB.jobs["j"].status.Running?
    ensures A_CLAIMED_DB.jobs["j"].updatedAt == 10 && A_CLAIMED_DB.jobs["j"].expiresAt == Some(15)
  {
  }

  const AT_LATE_BEAT: seq<Event> := AT_CLAIM + [Calls(2, 0, Heartbeat(A_LEASE, 5), 20, SMOOTH)]

  /** A lease refused as expired at one reading is accepted at the next, earlier one: nobody fenced it in between. */
  lemma ExpiredLeaseActsAgain()
    ensures EndsAs(Reached(AT_LATE_BEAT), 2, Returned(Acknowledged(false)))
    ensures EndsAs(Reached(AT_LATE_BEAT + [Calls(3, 0, Complete(A_LEASE, None), 12, SMOOTH)]), 3, Returned(Acknowledged(true)))
  {
    hide SpecOk, ArgumentsOk, Run, Carries, Inv, LeaseOk, Owned, ClaimedJob;
    ExampleIsAcceptable();
    ClaimExample();
    ClaimedRows();
    ReachedIsOk(AT_CLAIM);
    var w := Reached(AT_CLAIM);
    OwnedOnValid(w.db, A_LEASE, 20);
    SmoothCall(w, 2, 0, Heartbeat(A_LEASE, 5), 20);
    RunOne(AT_CLAIM, Calls(2, 0, Heartbeat(A_LEASE, 5), 20, SMOOTH));
    UnfencedLeaseActsExactlyWhen(AT_LATE_BEAT, Complete(A_LEASE, None), 12);
    SmoothCall(Reached(AT_LATE_BEAT), 3, 0, Complete(A_LEASE, None), 12);
    RunOne(AT_LATE_BEAT, Calls(3, 0, Complete(A_LEASE, None), 12, SMOOTH));
  }
}
