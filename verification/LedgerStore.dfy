/** The ledger object: its paged rebuild and its admission loop, while other writers act between any two steps. */
module LedgerStore {
  import opened Common
  import opened LedgerReplay
  import opened LedgerSystem

  const PAGE_LIMIT: nat := 1000
  const MAX_REPLAY_EVENTS: nat := 1_000_000
  const ADMISSION_ATTEMPTS: nat := 8

  predicate CarriesId(e: Event, ids: set<string>) {
    e.kind == VERSIONED && e.payload.ref.artifactId in ids
  }

  /** The ids a call has drawn are its own: no one else's version carries them. */
  predicate Unused(log: seq<Stored>, reserved: set<string>) {
    forall i | 0 <= i < |log| :: !CarriesId(log[i].event, reserved)
  }

  /** The shared event log. */
  class EventLog {
    var entries: seq<Stored>

    constructor ()
      ensures entries == []
    {
      entries := [];
    }

    /** Other ledgers and writers append anything that keeps the log well formed, replayable, and off the reserved ids. */
    method OthersAct(reserved: set<string>)
      requires LogOk(entries)
      modifies this
      ensures LogOk(entries) && old(entries) <= entries
      ensures Replay(old(entries)).Some? ==> Replay(entries).Some?
      ensures Unused(entries[|old(entries)|..], reserved)
    {
      assert entries + [] == entries;
      var more: seq<Stored> :|
        && LogOk(entries + more) && Unused(more, reserved)
        && (Replay(entries).Some? ==> Replay(entries + more).Some?);
      entries := entries + more;
    }
  }

  /** How one call of the store's append went, and whether the read-back after a failure worked. */
  datatype Fate = Fate(reports: bool, concurrency: bool, durable: bool, readsBack: bool, gap: nat)

  datatype Outcome = Recorded(item: Item) | RecordRefused | ReplayFailed | StoreFailed

  /** The ledger's fields are the fold of the first n log entries. */
  ghost predicate FoldedTo(log: seq<Stored>, st: State, n: nat) {
    n <= |log| && Replay(log[..n]).Some? && st == StateOf(Replay(log[..n]).value)
  }

  lemma {:induction false} IdsComeFromTheLog(log: seq<Stored>, id: string)
    requires Replay(log).Some? && id in Replay(log).value.ids
    ensures exists i | 0 <= i < |log| :: CarriesId(log[i].event, {id})
  {
    if log != [] {
      var front := log[..|log| - 1];
      if id in Replay(front).value.ids {
        IdsComeFromTheLog(front, id);
        var i :| 0 <= i < |front| && CarriesId(front[i].event, {id});
        assert CarriesId(log[i].event, {id});
      } else {
        assert CarriesId(log[|log| - 1].event, {id});
      }
    }
  }

  /** The stored event answers the same request (`_resolve_idempotent_version`'s comparison). */
  predicate SameRequest(e: Event, r: Request) {
    && e.actor == r.agent && e.correlation == r.correlation && e.causation == r.causation
    && e.payload.ref.taskId == r.taskId && e.payload.ref.createdBy == r.agent && e.payload.ref.name == r.name
    && e.payload.ref.mediaType == r.mediaType && e.payload.content == r.content
    && e.payload.metadata.encoded == r.metadata.encoded
    && e.payload.trigger == TriggerFor(r, e.payload.ref.version)
  }

  /** The item a recorded answer returns: a version of the requested artifact with the requested content. */
  predicate Answers(st: State, r: Request, i: Item) {
    var history := Past(st, RequestKey(r));
    && 1 <= i.ref.version <= |history| && history[i.ref.version - 1] == i
    && i.content == r.content && i.ref.name == r.name && i.ref.taskId == r.taskId && i.ref.createdBy == r.agent
    && i.ref.mediaType == r.mediaType && i.metadata.encoded == r.metadata.encoded
    && i.trigger == TriggerFor(r, i.ref.version)
  }

  function FindById(history: seq<Item>, id: string): (i: Option<nat>)
    ensures i.Some? ==> i.value < |history| && history[i.value].ref.artifactId == id
    ensures i.None? ==> forall k | 0 <= k < |history| :: history[k].ref.artifactId != id
  {
    if history == [] then None
    else if history[0].ref.artifactId == id then Some(0)
    else
      var rest := FindById(history[1..], id);
      if rest.None? then None else Some(rest.value + 1)
  }

  predicate DistinctDraws(draws: seq<Draw>) {
    forall i, j | 0 <= i < j < |draws| :: draws[i].artifactId != draws[j].artifactId
  }

  /** Some append claims a concurrency conflict that need not be there. */
  predicate ClaimsConcurrency(fates: seq<Fate>) {
    exists i | 0 <= i < |fates| :: fates[i].concurrency
  }

  function DrawnIds(draws: seq<Draw>, n: nat): set<string> {
    set i | n <= i < |draws| :: draws[i].artifactId
  }

  /** The event at an index holds the request's idempotency slot. */
  predicate HoldsSlot(log: seq<Stored>, r: Request, i: int) {
    0 <= i < |log| && log[i].event.stream == StreamOf(r) && log[i].event.key == Some(SlotOf(r))
  }

  /** The answer is the version recorded by the event that holds the request's slot and stands for the same request. */
  ghost predicate SlotAnswers(log: seq<Stored>, r: Request, item: Item) {
    exists i :: HoldsSlot(log, r, i) && IsVersion(log[i]) && KeyOf(log[i].event.payload) == RequestKey(r)
                && SameRequest(log[i].event, r) && item == ItemOf(log[i].event.payload)
  }

  /** The slot is held by an event that answers a different request. */
  ghost predicate HasChangedSlot(log: seq<Stored>, r: Request) {
    exists i :: HoldsSlot(log, r, i) && !SameRequest(log[i].event, r)
  }

  /** The slot is held by an event of another type or of another artifact whose task and name share the label. */
  ghost predicate HasForeignSlot(log: seq<Stored>, r: Request) {
    exists i :: HoldsSlot(log, r, i) && (!IsVersion(log[i]) || KeyOf(log[i].event.payload) != RequestKey(r))
  }

  class Ledger {
    const log: EventLog
    var versions: map<Key, seq<Item>>
    var usage: Usage
    var position: int
    ghost var seen: nat

    constructor (log: EventLog)
      ensures this.log == log && StateNow() == State(map[], NO_USAGE, 0) && seen == 0
    {
      this.log := log;
      versions, usage, position := map[], NO_USAGE, 0;
      seen := 0;
    }

    /** The log replays and this ledger is the fold of its first `seen` entries. */
    ghost predicate Synced()
      reads this, log
    {
      LogOk(log.entries) && Replay(log.entries).Some? && FoldedTo(log.entries, StateNow(), seen)
    }

    ghost function StateNow(): State
      reads this
    {
      State(versions, usage, position)
    }

    /** `_rebuild_under_lock`, for any page size and event cap. Other writers may append before every row it reads. */
    method Rebuild(pageLimit: nat, cap: nat, reserved: set<string>) returns (ok: bool)
      requires 1 <= pageLimit && LogOk(log.entries)
      modifies this, log
      ensures LogOk(log.entries) && old(log.entries) <= log.entries
      ensures Replay(old(log.entries)).Some? ==> Replay(log.entries).Some?
      ensures Unused(log.entries[|old(log.entries)|..], reserved)
      ensures ok ==> |old(log.entries)| <= seen <= cap && FoldedTo(log.entries, StateNow(), seen)
      ensures !ok ==> StateNow() == old(StateNow()) && seen == old(seen) && (Replay(log.entries).None? || cap < |log.entries|)
    {
      hide Folding, ReplayOne, Replay, LogOk, Unused;
      var replayed := 0;
      var candidate := EMPTY_VIEW;
      ghost var start := log.entries;
      FoldingStarts(start, reserved);
      while replayed < cap
        invariant StateNow() == old(StateNow()) && seen == old(seen) && replayed <= cap
        invariant Folding(start, log.entries, replayed, candidate, reserved)
      {
        var pageSize := if pageLimit < cap - replayed then pageLimit else cap - replayed;
        var pageCount := 0;
        while pageCount < pageSize
          invariant StateNow() == old(StateNow()) && seen == old(seen) && pageCount <= pageSize
          invariant Folding(start, log.entries, replayed + pageCount, candidate, reserved)
        {
          var row := Fetch(candidate.position, start, replayed + pageCount, candidate, reserved);
          if row.None? {
            break;
          }
          FoldingGoesOn(start, log.entries, replayed + pageCount, candidate, reserved);
          var next := ReplayOne(candidate, row.value);
          if next.None? {
            FoldingEnds(start, log.entries, replayed + pageCount, candidate, reserved);
            return false;
          }
          candidate := next.value;
          pageCount := pageCount + 1;
        }
        replayed := replayed + pageCount;
        if pageCount < pageSize {
          FoldingEnds(start, log.entries, replayed, candidate, reserved);
          versions, usage, position := candidate.versions, candidate.usage, candidate.position;
          seen := replayed;
          return true;
        }
      }
      var probe := Fetch(candidate.position, start, replayed, candidate, reserved);
      FoldingEnds(start, log.entries, replayed, candidate, reserved);
      if probe.Some? {
        return false;
      }
      versions, usage, position := candidate.versions, candidate.usage, candidate.position;
      seen := replayed;
      return true;
    }

    /** `_resolve_idempotent_version`: answer from the event that already holds the request's slot. */
    method Resolve(r: Request, history: seq<Item>, s: Stored, ghost index: nat, reserved: set<string>)
      returns (out: Outcome)
      requires Synced() && history == Past(StateNow(), RequestKey(r))
      requires index < |log.entries| && log.entries[index] == s
      modifies this, log
      ensures Synced() && old(log.entries) <= log.entries && old(seen) <= seen
      ensures Unused(log.entries[|old(log.entries)|..], reserved)
      ensures out.Recorded? ==>
        && Answers(StateNow(), r, out.item) && IsVersion(s) && KeyOf(s.event.payload) == RequestKey(r)
        && SameRequest(s.event, r) && out.item == ItemOf(s.event.payload)
      ensures out.ReplayFailed? ==>
        !IsVersion(s) || KeyOf(s.event.payload) != RequestKey(r) || MAX_REPLAY_EVENTS < |log.entries|
      ensures out.RecordRefused? ==> StateNow() == old(StateNow()) && !SameRequest(s.event, r)
      ensures !out.StoreFailed?
    {
      hide Replay, LogOk, SameRequest, TriggerFor;
      assert log.entries[|log.entries|..] == [];
      if IsVersion(s) {
        ReplayHoldsVersion(log.entries, index);
      }
      if !IsVersion(s) || !PayloadOk(s.event.payload) || KeyOf(s.event.payload) != RequestKey(r) {
        return ReplayFailed;
      }
      if !SameRequest(s.event, r) {
        return RecordRefused;
      }
      var found := FindById(history, s.event.payload.ref.artifactId);
      if found.Some? {
        FoundIsTheEvent(log.entries, seen, StateNow(), index, r, found.value);
        return Recorded(history[found.value]);
      }
      ghost var before := log.entries;
      var ok := Rebuild(PAGE_LIMIT, MAX_REPLAY_EVENTS, reserved);
      FoldPersists(before, log.entries, old(StateNow()), old(seen));
      if !ok {
        return ReplayFailed;
      }
      var again := Past(State(versions, usage, position), RequestKey(r));
      found := FindById(again, s.event.payload.ref.artifactId);
      EventIsFound(log.entries, seen, StateNow(), index, r);
      if found.Some? {
        FoundIsTheEvent(log.entries, seen, StateNow(), index, r, found.value);
        return Recorded(again[found.value]);
      }
      out := ReplayFailed;
    }

    /** `record`: the admission loop over at most eight attempts. A good request is refused only for a changed slot, for the
        ledger's limits, or because others appended before each of the eight attempts. */
    method Record(r: Request, draws: seq<Draw>, fates: seq<Fate>) returns (out: Outcome)
      requires Synced()
      requires |draws| == |fates| == ADMISSION_ATTEMPTS && DistinctDraws(draws)
      requires Unused(log.entries, DrawnIds(draws, 0))
      modifies this, log
      ensures Synced() && old(log.entries) <= log.entries && old(seen) <= seen
      ensures out.Recorded? ==> RequestOk(r) && Answers(StateNow(), r, out.item) && SlotAnswers(log.entries, r, out.item)
      ensures !RequestOk(r) ==> out.RecordRefused? && StateNow() == old(StateNow()) && log.entries == old(log.entries)
      ensures out.ReplayFailed? ==> MAX_REPLAY_EVENTS < |log.entries| || HasForeignSlot(log.entries, r)
      ensures out.RecordRefused? && RequestOk(r) ==>
        || HasChangedSlot(log.entries, r) || (exists i | 0 <= i < |draws| :: !Admitted(StateNow(), r, draws[i]))
        || ClaimsConcurrency(fates) || old(seen) + ADMISSION_ATTEMPTS <= |log.entries|
      ensures out.StoreFailed? ==> exists i | 0 <= i < |draws| :: !fates[i].reports || KnownId(log.entries, draws[i].eventId)
    {
      hide Replay, LogOk, Unused, RequestOk, Answers, SlotAnswers, HasForeignSlot, HasChangedSlot, KnownId, Admitted;
      if !RequestOk(r) {
        return RecordRefused;
      }
      var attempt := 0;
      while attempt < ADMISSION_ATTEMPTS
        invariant attempt <= ADMISSION_ATTEMPTS
        invariant Synced() && old(log.entries) <= log.entries && old(seen) <= seen
        invariant Unused(log.entries, DrawnIds(draws, attempt))
        invariant ClaimsConcurrency(fates) || old(seen) + attempt <= seen
      {
        assert DrawnIds(draws, attempt + 1) == DrawnIds(draws, attempt) - {draws[attempt].artifactId};
        var ended := Admit(r, draws[attempt], fates[attempt], attempt + 1 == ADMISSION_ATTEMPTS, DrawnIds(draws, attempt));
        if ended.Some? {
          return ended.value;
        }
        attempt := attempt + 1;
      }
      out := RecordRefused;
    }

    /** One admission attempt; none when the position had moved and the ledger was rebuilt for the next attempt. */
    method Admit(r: Request, d: Draw, fate: Fate, final: bool, reserved: set<string>) returns (ended: Option<Outcome>)
      requires Synced() && RequestOk(r)
      requires Unused(log.entries, reserved) && d.artifactId in reserved
      modifies this, log
      ensures Synced() && old(log.entries) <= log.entries && old(seen) <= seen
      ensures ended.None? ==>
        Unused(log.entries, reserved - {d.artifactId}) && !final && (fate.concurrency || old(seen) < seen)
      ensures ended.Some? && ended.value.Recorded? ==> Answers(StateNow(), r, ended.value.item) && SlotAnswers(log.entries, r, ended.value.item)
      ensures ended.Some? && ended.value.ReplayFailed? ==> MAX_REPLAY_EVENTS < |log.entries| || HasForeignSlot(log.entries, r)
      ensures ended == Some(RecordRefused) ==>
        || !Admitted(StateNow(), r, d) || HasChangedSlot(log.entries, r)
        || (final && (fate.concurrency || (seen == old(seen) && seen < |log.entries|)))
      ensures ended == Some(StoreFailed) ==> !fate.reports || KnownId(log.entries, d.eventId)
    {
      hide Replay, LogOk, Unused, RequestOk, Admitted, DraftPayload, Answers, FoldedTo, SlotIndex, SlotAnswers, Append,
           HasForeignSlot, HasChangedSlot, Weight, Plus, KnownId, IsVersion, SameSlot, StreamOf, SlotOf, ItemOf, HoldsSlot, KeyOf,
           CarriesId, SameRequest;
      var history := Past(State(versions, usage, position), RequestKey(r));
      var event := DraftEvent(history, r, d);
      Pause(reserved);
      var slot := SlotIndex(log.entries, event);
      if slot.Some? {
        var out := FromSlot(r, history, event, d, reserved);
        return Some(out);
      }
      if !Admitted(State(versions, usage, position), r, d) {
        return Some(RecordRefused);
      }
      Pause(reserved);
      var appended := Append(log.entries, event, Some(position), fate.gap);
      if fate.reports && appended.Existing? {
        var out := FromSlot(r, history, event, d, reserved);
        return Some(out);
      }
      var others := reserved - {d.artifactId};
      UnusedShrinks(log.entries, reserved, others);
      if appended.PositionChanged? {
        MovedMeansMore(log.entries, seen, StateNow(), event, fate.gap);
      }
      if appended.Inserted? && (fate.reports || fate.durable) {
        OwnAppendIsGood(log.entries, seen, StateNow(), r, d, fate.gap, reserved);
        OwnAppendUsesOneId(log.entries, appended.log, d.artifactId, reserved);
        log.entries := appended.log;
      }
      if fate.reports && appended.Inserted? {
        var out := AdoptOwn(r, history, event, d, |log.entries| - 1);
        return Some(out);
      }
      ghost var written := log.entries;
      var out := AfterRaise(r, history, event, d, fate, appended.PositionChanged?, final, others);
      if KnownId(written, d.eventId) {
        KnownIdPersists(written, log.entries, d.eventId);
      }
      ended := out;
    }

    /** The append raised: look for exactly this event, right behind the position it was written against. */
    method AfterRaise(r: Request, history: seq<Item>, event: Event, d: Draw, fate: Fate, moved: bool, final: bool,
                      others: set<string>)
      returns (ended: Option<Outcome>)
      requires Synced() && history == Past(StateNow(), RequestKey(r)) && event == DraftEvent(history, r, d)
      requires Unused(log.entries, others) && (moved ==> seen < |log.entries|)
      modifies this, log
      ensures Synced() && old(log.entries) <= log.entries && old(seen) <= seen
      ensures ended.None? ==> Unused(log.entries, others) && !final && (fate.concurrency || old(seen) < seen)
      ensures ended.Some? && ended.value.Recorded? ==> Answers(StateNow(), r, ended.value.item) && SlotAnswers(log.entries, r, ended.value.item)
      ensures ended.Some? && ended.value.ReplayFailed? ==> MAX_REPLAY_EVENTS < |log.entries|
      ensures ended == Some(RecordRefused) ==> final && (fate.concurrency || (seen == old(seen) && seen < |log.entries|))
      ensures ended == Some(StoreFailed) ==> !moved
    {
      hide Replay, LogOk, Unused, Answers, FoldedTo, SlotIndex, SlotAnswers, DraftEvent, Weight, Plus;
      Pause(others);
      var again := SlotIndex(log.entries, event);
      if fate.readsBack && again.Some?
         && log.entries[again.value].position == position + 1 && log.entries[again.value].event == event {
        var out := AdoptOwn(r, history, event, d, again.value);
        return Some(out);
      }
      if !(moved || fate.concurrency) {
        return Some(StoreFailed);
      }
      if final {
        return Some(RecordRefused);
      }
      ghost var before, st, n := log.entries, StateNow(), seen;
      var ok := Rebuild(PAGE_LIMIT, MAX_REPLAY_EVENTS, others);
      FoldPersists(before, log.entries, st, n);
      UnusedJoins(before, log.entries, others);
      ended := if ok then None else Some(ReplayFailed);
    }

    method FromSlot(r: Request, history: seq<Item>, event: Event, d: Draw, reserved: set<string>) returns (out: Outcome)
      requires Synced() && history == Past(StateNow(), RequestKey(r)) && event == DraftEvent(history, r, d)
      requires SlotIndex(log.entries, event).Some?
      modifies this, log
      ensures Synced() && old(log.entries) <= log.entries && old(seen) <= seen
      ensures out.Recorded? ==> Answers(StateNow(), r, out.item) && SlotAnswers(log.entries, r, out.item)
      ensures out.ReplayFailed? ==> MAX_REPLAY_EVENTS < |log.entries| || HasForeignSlot(log.entries, r)
      ensures out.RecordRefused? ==> HasChangedSlot(log.entries, r)
      ensures !out.StoreFailed?
    {
      hide Replay, LogOk, Unused, Answers, FoldedTo, SlotIndex, SlotAnswers, HasForeignSlot, HasChangedSlot, DraftEvent;
      SlotFound(log.entries, event, r, history, d);
      var held := SlotIndex(log.entries, event).value;
      ghost var before := log.entries;
      out := Resolve(r, history, log.entries[held], held, reserved);
      SlotPersists(before, log.entries, held, r);
    }

    /** Take over the ledger's own stored event. */
    method AdoptOwn(r: Request, history: seq<Item>, event: Event, d: Draw, at: nat) returns (out: Outcome)
      requires Synced() && history == Past(StateNow(), RequestKey(r)) && event == DraftEvent(history, r, d)
      requires at < |log.entries| && log.entries[at].event == event
      requires at == seen || log.entries[at].position == position + 1
      modifies this
      ensures Synced() && old(seen) <= seen
      ensures out.Recorded? && Answers(StateNow(), r, out.item) && SlotAnswers(log.entries, r, out.item)
    {
      hide Replay, LogOk, Answers, FoldedTo, SlotAnswers, Weight, Plus;
      OwnEntryIsNext(log.entries, seen, StateNow(), at);
      OwnEntryAdopts(log.entries, seen, StateNow(), r, d);
      versions := versions[RequestKey(r) := history + [ItemOf(event.payload)]];
      usage := Plus(usage, Weight(RequestKey(r), ItemOf(event.payload)));
      position := log.entries[at].position;
      seen := seen + 1;
      out := Recorded(ItemOf(event.payload));
    }

    /** Other writers act; this ledger stays the fold of what it has seen. */
    method Pause(reserved: set<string>)
      requires Synced()
      modifies log
      ensures Synced() && old(log.entries) <= log.entries
      ensures Unused(old(log.entries), reserved) ==> Unused(log.entries, reserved)
    {
      ghost var before := log.entries;
      log.OthersAct(reserved);
      assert log.entries[..seen] == before[..seen];
      if Unused(before, reserved) {
        UnusedJoins(before, log.entries, reserved);
      }
    }

    /** Read one row past the cursor, after whatever the others did meanwhile. */
    method Fetch(cursor: int, ghost start: seq<Stored>, ghost n: nat, ghost v: View, reserved: set<string>)
      returns (row: Option<Stored>)
      requires Folding(start, log.entries, n, v, reserved) && cursor == v.position
      modifies log
      ensures Folding(start, log.entries, n, v, reserved)
      ensures row == if n < |log.entries| then Some(log.entries[n]) else None
    {
      ghost var before := log.entries;
      log.OthersAct(reserved);
      GrowthKeepsPrefix(start, before, log.entries, n, reserved);
      row := NextAfter(cursor, n);
    }

    /** The first row whose position lies after the cursor: the next one that was not folded. */
    method NextAfter(cursor: int, ghost n: nat) returns (row: Option<Stored>)
      requires LogOk(log.entries) && n <= |log.entries| && cursor == Last(log.entries[..n])
      ensures row == if n < |log.entries| then Some(log.entries[n]) else None
    {
      var i := 0;
      while i < |log.entries| && log.entries[i].position <= cursor
        invariant i <= n
      {
        i := i + 1;
      }
      row := if i < |log.entries| then Some(log.entries[i]) else None;
    }
  }

  /** A rebuild under way: n entries of a log that has grown from `start` fold to v. */
  ghost predicate Folding(start: seq<Stored>, now: seq<Stored>, n: nat, v: View, reserved: set<string>) {
    && LogOk(now) && start <= now && Unused(now[|start|..], reserved)
    && (Replay(start).Some? ==> Replay(now).Some?)
    && n <= |now| && Replay(now[..n]) == Some(v)
  }

  lemma FoldingStarts(start: seq<Stored>, reserved: set<string>)
    requires LogOk(start)
    ensures Folding(start, start, 0, EMPTY_VIEW, reserved)
  {
  }

  lemma FoldingGoesOn(start: seq<Stored>, now: seq<Stored>, n: nat, v: View, reserved: set<string>)
    requires Folding(start, now, n, v, reserved) && n < |now|
    ensures ReplayOne(v, now[n]).Some? ==> Folding(start, now, n + 1, ReplayOne(v, now[n]).value, reserved)
    ensures ReplayOne(v, now[n]).None? ==> Replay(now).None?
  {
    hide ReplayOne, LogOk;
    assert now[..n + 1][..n] == now[..n];
    if ReplayOne(v, now[n]).None? {
      RefusalIsFinal(now, n + 1);
    }
  }

  lemma FoldingEnds(start: seq<Stored>, now: seq<Stored>, n: nat, v: View, reserved: set<string>)
    requires Folding(start, now, n, v, reserved)
    ensures LogOk(now) && start <= now && Unused(now[|start|..], reserved) && n <= |now|
    ensures Replay(start).Some? ==> Replay(now).Some?
    ensures FoldedTo(now, StateOf(v), n)
  {
  }

  // ----- Why the admission loop is right -----

  lemma ReplayHoldsVersion(log: seq<Stored>, index: nat)
    requires Replay(log).Some? && index < |log| && IsVersion(log[index])
    ensures PayloadOk(log[index].event.payload)
  {
    ReplayHoldsEveryEvent(log, index);
  }

  /** The version found by artifact id is exactly the stored event's. */
  lemma FoundIsTheEvent(log: seq<Stored>, seen: nat, st: State, index: nat, r: Request, f: nat)
    requires Replay(log).Some? && FoldedTo(log, st, seen)
    requires index < |log| && IsVersion(log[index]) && KeyOf(log[index].event.payload) == RequestKey(r)
    requires SameRequest(log[index].event, r)
    requires f < |Past(st, RequestKey(r))|
    requires Past(st, RequestKey(r))[f].ref.artifactId == log[index].event.payload.ref.artifactId
    ensures Answers(st, r, Past(st, RequestKey(r))[f]) && Past(st, RequestKey(r))[f] == ItemOf(log[index].event.payload)
  {
    hide Replay, PayloadOk, ViewOk;
    var key, v := RequestKey(r), Replay(log).value;
    ReplayShape(log);
    ReplayHoldsEveryEvent(log, index);
    HistoriesGrow(log, seen, key);
    assert Past(st, key)[f] == v.versions[key][f];
    SameIdSameVersion(v, key, f, key, log[index].event.payload.ref.version - 1);
  }

  lemma EventIsFound(log: seq<Stored>, seen: nat, st: State, index: nat, r: Request)
    requires Replay(log).Some? && FoldedTo(log, st, seen)
    requires index < seen && IsVersion(log[index]) && KeyOf(log[index].event.payload) == RequestKey(r)
    ensures FindById(Past(st, RequestKey(r)), log[index].event.payload.ref.artifactId).Some?
  {
    hide Replay, PayloadOk;
    ReplayHoldsEveryEvent(log[..seen], index);
    var history := Past(st, RequestKey(r));
    assert history[log[index].event.payload.ref.version - 1].ref.artifactId == log[index].event.payload.ref.artifactId;
  }

  lemma SlotFound(log: seq<Stored>, e: Event, r: Request, history: seq<Item>, d: Draw)
    requires e == DraftEvent(history, r, d) && SlotIndex(log, e).Some?
    ensures HoldsSlot(log, r, SlotIndex(log, e).value)
  {
  }

  lemma SlotPersists(log: seq<Stored>, next: seq<Stored>, i: nat, r: Request)
    requires log <= next && HoldsSlot(log, r, i)
    ensures HoldsSlot(next, r, i) && next[i] == log[i]
    ensures IsVersion(log[i]) && KeyOf(log[i].event.payload) == RequestKey(r) && SameRequest(log[i].event, r) ==>
      SlotAnswers(next, r, ItemOf(log[i].event.payload))
    ensures !IsVersion(log[i]) || KeyOf(log[i].event.payload) != RequestKey(r) ==> HasForeignSlot(next, r)
    ensures !SameRequest(log[i].event, r) ==> HasChangedSlot(next, r)
  {
    assert next[i] == log[i];
  }

  lemma OwnAppendIsGood(log: seq<Stored>, seen: nat, st: State, r: Request, d: Draw, gap: nat, reserved: set<string>)
    requires LogOk(log) && Replay(log).Some? && FoldedTo(log, st, seen)
    requires Admitted(st, r, d) && Unused(log, reserved) && d.artifactId in reserved
    requires Append(log, DraftEvent(Past(st, RequestKey(r)), r, d), Some(st.position), gap).Inserted?
    ensures seen == |log|
    ensures var next := Append(log, DraftEvent(Past(st, RequestKey(r)), r, d), Some(st.position), gap).log;
      && LogOk(next) && Replay(next).Some? && FoldedTo(next, st, seen) && log <= next && |next| == |log| + 1
      && next[|log|].event.payload.ref.artifactId == d.artifactId
  {
    hide Replay, LogOk, Admitted;
    var e := DraftEvent(Past(st, RequestKey(r)), r, d);
    ReplayPosition(log[..seen]);
    SamePositionSameLog(log, seen);
    if d.artifactId in Replay(log).value.ids {
      IdsComeFromTheLog(log, d.artifactId);
    }
    OwnAppendReplays(log, Replay(log).value, r, d, gap);
    AppendKeepsLog(log, e, Some(st.position), gap);
    assert Append(log, e, Some(st.position), gap).log[..seen] == log[..seen];
  }

  lemma KnownIdPersists(log: seq<Stored>, next: seq<Stored>, id: string)
    requires log <= next && KnownId(log, id)
    ensures KnownId(next, id)
  {
    var i :| 0 <= i < |log| && log[i].event.id == id;
    assert next[i] == log[i];
  }

  lemma UnusedShrinks(log: seq<Stored>, reserved: set<string>, fewer: set<string>)
    requires Unused(log, reserved) && fewer <= reserved
    ensures Unused(log, fewer)
  {
  }

  lemma OwnAppendUsesOneId(log: seq<Stored>, next: seq<Stored>, id: string, reserved: set<string>)
    requires Unused(log, reserved) && log <= next && |next| == |log| + 1
    requires next[|log|].event.payload.ref.artifactId == id
    ensures Unused(next, reserved - {id})
  {
  }

  /** The ledger's own event behind the folded prefix is the ledger's next fold step. */
  lemma OwnEntryAdopts(log: seq<Stored>, seen: nat, st: State, r: Request, d: Draw)
    requires Replay(log).Some? && FoldedTo(log, st, seen)
    requires seen < |log| && log[seen].event == DraftEvent(Past(st, RequestKey(r)), r, d)
    ensures var next := Adopt(st, log[seen].event.payload, log[seen].position);
      && FoldedTo(log, next, seen + 1) && Answers(next, r, ItemOf(log[seen].event.payload))
    ensures SlotAnswers(log, r, ItemOf(log[seen].event.payload))
  {
    hide Acceptable, Weight, Plus, Replay, IsVersion;
    DraftIsVersion(Past(st, RequestKey(r)), r, d);
    assert IsVersion(log[seen]) by { VersionByKind(log[seen]); }
    VersionExtends(log, seen);
  }

  /** The event found at the position it was written for is the first entry not folded yet. */
  lemma OwnEntryIsNext(log: seq<Stored>, seen: nat, st: State, at: nat)
    requires LogOk(log) && FoldedTo(log, st, seen) && at < |log|
    requires at == seen || log[at].position == st.position + 1
    ensures at == seen
  {
    hide Replay;
    ReplayPosition(log[..seen]);
    PositionNamesTheEntry(log, seen, at);
  }

  lemma VersionByKind(s: Stored)
    requires s.event.kind == VERSIONED
    ensures IsVersion(s)
  {
  }

  /** The compare-and-set fails only when others have appended behind what the ledger has folded. */
  lemma MovedMeansMore(log: seq<Stored>, seen: nat, st: State, event: Event, gap: nat)
    requires LogOk(log) && FoldedTo(log, st, seen) && Append(log, event, Some(st.position), gap).PositionChanged?
    ensures seen < |log|
  {
    hide Replay;
    ReplayPosition(log[..seen]);
    assert log[..|log|] == log;
  }

  /** Positions are whole numbers in strict order: the entry one past the last folded position is the next entry. */
  lemma PositionNamesTheEntry(log: seq<Stored>, n: nat, at: nat)
    requires LogOk(log) && n <= |log| && at < |log|
    requires at == n || log[at].position == Last(log[..n]) + 1
    ensures at == n
  {
    var previous := if n > 0 then log[n - 1].position else 0;
    var following := if n < |log| then log[n].position else previous + 1;
    assert Last(log[..n]) == previous < following;
  }

  lemma FoldPersists(log: seq<Stored>, next: seq<Stored>, st: State, n: nat)
    requires FoldedTo(log, st, n) && log <= next
    ensures FoldedTo(next, st, n) && n <= |log|
  {
    assert next[..n] == log[..n];
  }

  lemma UnusedJoins(log: seq<Stored>, next: seq<Stored>, reserved: set<string>)
    requires log <= next && Unused(log, reserved) && Unused(next[|log|..], reserved)
    ensures Unused(next, reserved)
  {
    forall i | 0 <= i < |next| ensures !CarriesId(next[i].event, reserved) {
      if i >= |log| {
        assert next[i] == next[|log|..][i - |log|];
      }
    }
  }

  lemma GrowthKeepsPrefix(start: seq<Stored>, before: seq<Stored>, now: seq<Stored>, n: nat, reserved: set<string>)
    requires start <= before <= now && n <= |before|
    requires Unused(before[|start|..], reserved) && Unused(now[|before|..], reserved)
    ensures now[..n] == before[..n] && start <= now && Unused(now[|start|..], reserved)
    ensures Replay(before[..n]).Some? ==> Last(now[..n]) == Replay(before[..n]).value.position
  {
    forall i | 0 <= i < |now[|start|..]| ensures !CarriesId(now[|start|..][i].event, reserved) {
      if |start| + i < |before| {
        assert now[|start|..][i] == before[|start|..][i];
      } else {
        assert now[|start|..][i] == now[|before|..][|start| + i - |before|];
      }
    }
    if Replay(before[..n]).Some? {
      ReplayPosition(before[..n]);
    }
  }

  // ----- What other writers may do -----

  /** An action of somebody else: it draws none of the reserved ids. */
  predicate Elsewhere(a: Action, reserved: set<string>) {
    a.Submit? ==> a.draw.artifactId !in reserved
  }

  lemma ElsewhereAppendsOthers(s: System, a: Action, reserved: set<string>)
    requires SystemOk(s) && Enabled(s, a) && Elsewhere(a, reserved)
    ensures s.log <= Act(s, a).log && Unused(Act(s, a).log[|s.log|..], reserved)
  {
    hide SystemOk, Admitted, RequestOk, SlotIndex, DraftPayload, Adopt, Replay;
    ActKeepsSystem(s, a);
    if a.Submit? {
      DraftCarriesItsId(Past(s.ledgers[a.ledger].state, RequestKey(a.request)), a.request, a.draw, reserved);
    }
  }

  lemma DraftCarriesItsId(history: seq<Item>, r: Request, d: Draw, ids: set<string>)
    ensures CarriesId(DraftEvent(history, r, d), ids) <==> d.artifactId in ids
  {
  }

  /** Any run of the other ledgers and writers does to the log what `OthersAct` allows between two steps of this ledger. */
  lemma {:induction false} ElsewhereMeetsTheRely(s: System, actions: seq<Action>, reserved: set<string>)
    requires SystemOk(s) && Valid(s, actions)
    requires forall i | 0 <= i < |actions| :: Elsewhere(actions[i], reserved)
    ensures var next := Run(s, actions).log;
      LogOk(next) && s.log <= next && Replay(next).Some? && Unused(next[|s.log|..], reserved)
    decreases |actions|
  {
    hide LedgerOk, Act, Enabled, Unused, Elsewhere, LogOk, Replay;
    if actions == [] {
      NothingUsed(s.log, reserved);
    } else {
      var mid := Act(s, actions[0]);
      ActKeepsSystem(s, actions[0]);
      ElsewhereAppendsOthers(s, actions[0], reserved);
      forall i | 0 <= i < |actions[1..]| ensures Elsewhere(actions[1..][i], reserved) {
        assert actions[1..][i] == actions[i + 1];
      }
      ElsewhereMeetsTheRely(mid, actions[1..], reserved);
      UnusedChains(s.log, mid.log, Run(s, actions).log, reserved);
    }
  }

  lemma NothingUsed(log: seq<Stored>, reserved: set<string>)
    ensures Unused(log[|log|..], reserved)
  {
  }

  lemma UnusedChains(log: seq<Stored>, mid: seq<Stored>, next: seq<Stored>, reserved: set<string>)
    requires log <= mid <= next && Unused(mid[|log|..], reserved) && Unused(next[|mid|..], reserved)
    ensures Unused(next[|log|..], reserved)
  {
    assert mid[|log|..] <= next[|log|..] && next[|log|..][|mid[|log|..]|..] == next[|mid|..];
    UnusedJoins(mid[|log|..], next[|log|..], reserved);
  }
}
