/** Any number of ledgers and other writers over one event log, one atomic action at a time. */
module LedgerSystem {
  import opened Common
  import opened LedgerReplay
  import Text = InvocationText

  // ----- The event store's append -----

  datatype Appended = Inserted(log: seq<Stored>) | Existing(stored: Stored) | PositionChanged | Duplicate

  function SlotIndex(log: seq<Stored>, e: Event): (i: Option<nat>)
    ensures i.Some? ==> i.value < |log| && SameSlot(log[i.value].event, e)
    ensures i.None? ==> forall k | 0 <= k < |log| :: !SameSlot(log[k].event, e)
  {
    if log == [] then None
    else if SameSlot(log[|log| - 1].event, e) then Some(|log| - 1)
    else SlotIndex(log[..|log| - 1], e)
  }

  predicate KnownId(log: seq<Stored>, id: string) {
    exists i | 0 <= i < |log| :: log[i].event.id == id
  }

  /** `_append_in_transaction` with compare-and-set on the global position; `gap` skips positions. */
  function Append(log: seq<Stored>, e: Event, expected: Option<int>, gap: nat): (r: Appended)
    ensures r.Inserted? ==> SlotIndex(log, e).None? && |r.log| == |log| + 1 && log <= r.log && r.log[|log|].event == e
    ensures r.Duplicate? ==> KnownId(log, e.id)
    ensures r.Existing? <==> SlotIndex(log, e).Some?
    ensures r.Existing? ==> r.stored == log[SlotIndex(log, e).value]
  {
    var slot := SlotIndex(log, e);
    if slot.Some? then Existing(log[slot.value])
    else if expected.Some? && expected.value != Last(log) then PositionChanged
    else if KnownId(log, e.id) then Duplicate
    else Inserted(log + [Stored(e, Last(log) + 1 + gap)])
  }

  lemma {:induction false} LastIsGreatest(log: seq<Stored>)
    requires LogOk(log)
    ensures Last(log) >= 0 && forall i | 0 <= i < |log| :: log[i].position <= Last(log)
  {
  }

  lemma AppendKeepsLog(log: seq<Stored>, e: Event, expected: Option<int>, gap: nat)
    requires LogOk(log) && Append(log, e, expected, gap).Inserted?
    ensures LogOk(Append(log, e, expected, gap).log)
  {
    LastIsGreatest(log);
    var next := Append(log, e, expected, gap).log;
    forall i, j | 0 <= i < j < |next|
      ensures next[i].position < next[j].position && next[i].event.id != next[j].event.id
      ensures !SameSlot(next[i].event, next[j].event)
    {
      if j == |log| {
        assert next[i] == log[i];
      }
    }
  }

  // ----- Record requests -----

  datatype Request = Request(
    session: string, taskId: string, agent: string, name: string, content: string, mediaType: string,
    metadata: Metadata, correlation: Option<string>, causation: Option<string>, trigger: Option<string>)

  /** Identifiers and time drawn afresh for one admission attempt. */
  datatype Draw = Draw(artifactId: string, eventId: string, createdAt: int)

  predicate OptionOk(s: Option<string>) {
    s.Some? ==> TextOk(s.value, MAX_IDENTIFIER_LENGTH)
  }

  /** The input checks `record` makes before it looks at the log. */
  predicate RequestOk(r: Request) {
    && TextOk(r.session, MAX_IDENTIFIER_LENGTH) && TextOk(r.taskId, MAX_IDENTIFIER_LENGTH)
    && TextOk(r.agent, MAX_IDENTIFIER_LENGTH) && OptionOk(r.correlation) && OptionOk(r.causation)
    && TextOk(r.name, MAX_IDENTIFIER_LENGTH) && Text.Utf8Length(r.content) <= MAX_CONTENT_BYTES
    && TextOk(r.mediaType, MAX_MEDIA_TYPE_LENGTH)
    && Text.Utf8Length(r.metadata.encoded) <= MAX_METADATA_BYTES && r.metadata.nodes <= MAX_METADATA_NODES
    && OptionOk(r.trigger)
  }

  function RequestKey(r: Request): Key {
    (r.session, r.name)
  }

  function StreamOf(r: Request): string {
    "session:" + r.session
  }

  function SlotOf(r: Request): SlotKey {
    ArtifactSlot(r.taskId + ":" + r.name, Sha256(r.content))
  }

  function TriggerFor(r: Request, version: int): string {
    if r.trigger.Some? then r.trigger.value else if version == 1 then "create" else "revise"
  }

  function DraftPayload(history: seq<Item>, r: Request, d: Draw): Payload {
    var version := |history| + 1;
    Payload(r.session, r.taskId,
            Ref(d.artifactId, r.name, version, r.mediaType, Uri(r.session, r.name, version), Sha256(r.content),
                r.agent, r.taskId, Parent(version)),
            r.content, r.metadata, d.createdAt, TriggerFor(r, version))
  }

  function DraftEvent(history: seq<Item>, r: Request, d: Draw): Event {
    Event(StreamOf(r), VERSIONED, r.agent, d.eventId, r.correlation, r.causation, Some(SlotOf(r)),
          DraftPayload(history, r, d))
  }

  /** The ledger fields; replay's id set is not kept. */
  datatype State = State(versions: map<Key, seq<Item>>, usage: Usage, position: int)

  function StateOf(v: View): State {
    State(v.versions, v.usage, v.position)
  }

  function Past(st: State, key: Key): seq<Item> {
    if key in st.versions then st.versions[key] else []
  }

  /** The admission checks: the drafted payload decodes and the ledger stays within its limits. */
  predicate Admitted(st: State, r: Request, d: Draw) {
    var p := DraftPayload(Past(st, RequestKey(r)), r, d);
    && PayloadOk(p)
    && WithinLimits(Plus(st.usage, Weight(KeyOf(p), ItemOf(p))))
  }

  /** The state after the ledger's own event was stored at a position. */
  function Adopt(st: State, p: Payload, position: int): State {
    State(st.versions[KeyOf(p) := Past(st, KeyOf(p)) + [ItemOf(p)]], Plus(st.usage, Weight(KeyOf(p), ItemOf(p))), position)
  }

  // ----- The log stays replayable -----

  /** Compare-and-set on the position means: the writer had folded the whole log. */
  lemma SamePositionSameLog(log: seq<Stored>, n: nat)
    requires LogOk(log) && n <= |log| && Last(log[..n]) == Last(log)
    ensures n == |log| && log[..n] == log
  {
    var previous := if n > 0 then log[n - 1].position else 0;
    assert Last(log[..n]) == previous;
  }

  /** An admitted event appended by a ledger that is up to date keeps the log replayable and the ledger equal to replay. */
  lemma OwnAppendReplays(log: seq<Stored>, v: View, r: Request, d: Draw, gap: nat)
    requires Replay(log) == Some(v) && LogOk(log)
    requires Admitted(StateOf(v), r, d) && d.artifactId !in v.ids
    requires Append(log, DraftEvent(Past(StateOf(v), RequestKey(r)), r, d), Some(v.position), gap).Inserted?
    ensures var e := DraftEvent(Past(StateOf(v), RequestKey(r)), r, d);
            var next := Append(log, e, Some(v.position), gap).log;
      && Replay(next).Some?
      && StateOf(Replay(next).value) == Adopt(StateOf(v), e.payload, Last(next))
  {
    hide PayloadOk, WithinLimits, Weight, Plus;
    var e := DraftEvent(Past(StateOf(v), RequestKey(r)), r, d);
    var next := Append(log, e, Some(v.position), gap).log;
    assert next[..|next| - 1] == log;
  }

  /** Events of other types never disturb replay. */
  lemma ForeignAppendReplays(log: seq<Stored>, e: Event, gap: nat)
    requires Replay(log).Some? && e.kind != VERSIONED && Append(log, e, None, gap).Inserted?
    ensures Replay(Append(log, e, None, gap).log).Some?
  {
    ReplayPosition(log);
    var next := Append(log, e, None, gap).log;
    assert next[..|next| - 1] == log;
  }

  // ----- The system -----

  /** An append that reached the log and that its ledger has not yet acknowledged to itself. */
  datatype Pending = Pending(payload: Payload)

  /** One ledger: its state, how much of the log it has folded, and its unacknowledged append. */
  datatype Ledger = Ledger(state: State, seen: nat, pending: Option<Pending>)

  datatype System = System(log: seq<Stored>, ledgers: map<nat, Ledger>)

  datatype Action =
    | Write(event: Event, gap: nat)
    | Start(ledger: nat, upTo: nat)
    | Rebuild(ledger: nat, upTo: nat)
    | Submit(ledger: nat, request: Request, draw: Draw, gap: nat)
    | Acknowledge(ledger: nat)
    | Abandon(ledger: nat)

  /** Artifact ids are drawn at random and never repeat. */
  predicate FreshDraw(s: System, d: Draw) {
    Replay(s.log).Some? ==> d.artifactId !in Replay(s.log).value.ids
  }

  predicate Enabled(s: System, a: Action) {
    match a
    case Write(e, _) => e.kind != VERSIONED
    case Start(l, n) => l !in s.ledgers && n <= |s.log| && Replay(s.log[..n]).Some?
    case Rebuild(l, n) =>
      && l in s.ledgers && s.ledgers[l].pending.None?
      && s.ledgers[l].seen <= n <= |s.log| && Replay(s.log[..n]).Some?
    case Submit(l, _, d, _) => l in s.ledgers && s.ledgers[l].pending.None? && FreshDraw(s, d)
    case Acknowledge(l) => l in s.ledgers && s.ledgers[l].pending.Some? && s.ledgers[l].seen < |s.log|
    case Abandon(l) => l in s.ledgers
  }

  function Act(s: System, a: Action): System
    requires Enabled(s, a)
  {
    match a
    case Write(e, gap) =>
      var r := Append(s.log, e, None, gap);
      if r.Inserted? then s.(log := r.log) else s
    case Start(l, n) => s.(ledgers := s.ledgers[l := Ledger(StateOf(Replay(s.log[..n]).value), n, None)])
    case Rebuild(l, n) => s.(ledgers := s.ledgers[l := Ledger(StateOf(Replay(s.log[..n]).value), n, None)])
    case Submit(l, r, d, gap) =>
      var g := s.ledgers[l];
      var e := DraftEvent(Past(g.state, RequestKey(r)), r, d);
      if !RequestOk(r) || !Admitted(g.state, r, d) then s else
      var appended := Append(s.log, e, Some(g.state.position), gap);
      if !appended.Inserted? then s
      else System(appended.log, s.ledgers[l := g.(pending := Some(Pending(e.payload)))])
    case Acknowledge(l) =>
      var g := s.ledgers[l];
      s.(ledgers := s.ledgers[l := Ledger(Adopt(g.state, g.pending.value.payload, s.log[g.seen].position), g.seen + 1, None)])
    case Abandon(l) => s.(ledgers := s.ledgers[l := s.ledgers[l].(pending := None)])
  }

  /** The ledger equals the fold of the log prefix it has seen; its unacknowledged append is the very next entry. */
  ghost predicate LedgerOk(log: seq<Stored>, g: Ledger) {
    && g.seen <= |log|
    && Replay(log[..g.seen]).Some?
    && g.state == StateOf(Replay(log[..g.seen]).value)
    && (g.pending.Some? ==>
          && g.seen < |log| && IsVersion(log[g.seen])
          && log[g.seen].event.payload == g.pending.value.payload)
  }

  ghost predicate SystemOk(s: System) {
    && LogOk(s.log) && Replay(s.log).Some?
    && forall l | l in s.ledgers :: LedgerOk(s.log, s.ledgers[l])
  }

  lemma LedgerSurvivesGrowth(log: seq<Stored>, next: seq<Stored>, g: Ledger)
    requires LedgerOk(log, g) && log <= next
    ensures LedgerOk(next, g)
  {
    assert next[..g.seen] == log[..g.seen];
  }

  lemma AcknowledgeKeeps(log: seq<Stored>, g: Ledger)
    requires LedgerOk(log, g) && g.pending.Some? && Replay(log).Some?
    ensures g.seen < |log|
    ensures LedgerOk(log, Ledger(Adopt(g.state, g.pending.value.payload, log[g.seen].position), g.seen + 1, None))
  {
    hide Weight, Plus, Acceptable, Replay, IsVersion;
    VersionExtends(log, g.seen);
  }

  lemma SubmitKeeps(s: System, l: nat, r: Request, d: Draw, gap: nat)
    requires SystemOk(s) && Enabled(s, Submit(l, r, d, gap))
    ensures var next := Act(s, Submit(l, r, d, gap)); SystemOk(next) && s.log <= next.log
  {
    hide PayloadOk, WithinLimits, Weight, Plus, RequestOk, LogOk, DraftEvent;
    var g := s.ledgers[l];
    var next := Act(s, Submit(l, r, d, gap));
    if next != s {
      var e := DraftEvent(Past(g.state, RequestKey(r)), r, d);
      ReplayPosition(s.log[..g.seen]);
      SamePositionSameLog(s.log, g.seen);
      OwnAppendReplays(s.log, Replay(s.log).value, r, d, gap);
      AppendKeepsLog(s.log, e, Some(g.state.position), gap);
      DraftIsVersion(Past(g.state, RequestKey(r)), r, d);
      forall k | k in next.ledgers ensures LedgerOk(next.log, next.ledgers[k]) {
        LedgerSurvivesGrowth(s.log, next.log, s.ledgers[k]);
      }
    }
  }

  lemma DraftIsVersion(history: seq<Item>, r: Request, d: Draw)
    ensures DraftEvent(history, r, d).kind == VERSIONED
  {
  }

  /** Each action of each participant keeps the log replayable and every ledger equal to the fold of a log prefix. */
  lemma ActKeepsSystem(s: System, a: Action)
    requires SystemOk(s) && Enabled(s, a)
    ensures SystemOk(Act(s, a)) && s.log <= Act(s, a).log
    ensures forall l | l in s.ledgers ::
      && l in Act(s, a).ledgers && s.ledgers[l].seen <= Act(s, a).ledgers[l].seen
      && s.ledgers[l].state.position <= Act(s, a).ledgers[l].state.position
  {
    hide LedgerOk, LogOk, Admitted, DraftEvent, RequestOk, Adopt;
    match a
    case Write(e, gap) =>
      var r := Append(s.log, e, None, gap);
      if r.Inserted? {
        ForeignAppendReplays(s.log, e, gap);
        AppendKeepsLog(s.log, e, None, gap);
        forall l | l in s.ledgers ensures LedgerOk(r.log, s.ledgers[l]) {
          LedgerSurvivesGrowth(s.log, r.log, s.ledgers[l]);
        }
      }
    case Start(l, n) =>
      FoldIsOk(s.log, n);
    case Rebuild(l, n) =>
      FoldIsOk(s.log, n);
      PositionsAdvance(s.log, s.ledgers[l], n);
    case Submit(l, r, d, gap) =>
      SubmitKeeps(s, l, r, d, gap);
    case Acknowledge(l) =>
      AcknowledgeKeeps(s.log, s.ledgers[l]);
      AdoptAdvances(s.log, s.ledgers[l]);
    case Abandon(l) =>
      AbandonKeeps(s.log, s.ledgers[l]);
  }

  lemma FoldIsOk(log: seq<Stored>, n: nat)
    requires n <= |log| && Replay(log[..n]).Some?
    ensures LedgerOk(log, Ledger(StateOf(Replay(log[..n]).value), n, None))
  {
  }

  lemma AbandonKeeps(log: seq<Stored>, g: Ledger)
    requires LedgerOk(log, g)
    ensures LedgerOk(log, g.(pending := None))
  {
  }

  lemma PositionsAdvance(log: seq<Stored>, g: Ledger, n: nat)
    requires LogOk(log) && LedgerOk(log, g) && g.seen <= n <= |log| && Replay(log[..n]).Some?
    ensures g.state.position <= Replay(log[..n]).value.position
  {
    ReplayPosition(log[..g.seen]);
    ReplayPosition(log[..n]);
  }

  lemma AdoptAdvances(log: seq<Stored>, g: Ledger)
    requires LogOk(log) && LedgerOk(log, g) && g.pending.Some? && g.seen < |log|
    ensures g.state.position <= Adopt(g.state, g.pending.value.payload, log[g.seen].position).position
  {
    ReplayPosition(log[..g.seen]);
  }

  predicate Valid(s: System, actions: seq<Action>)
    decreases |actions|
  {
    actions == [] || (Enabled(s, actions[0]) && Valid(Act(s, actions[0]), actions[1..]))
  }

  function Run(s: System, actions: seq<Action>): System
    requires Valid(s, actions)
    decreases |actions|
  {
    if actions == [] then s else Run(Act(s, actions[0]), actions[1..])
  }

  const EMPTY_SYSTEM := System([], map[])

  /** For any number of ledgers and writers and every interleaving: the log stays replayable, every ledger is the fold of
      a log prefix, and no ledger's position ever goes back. */
  lemma {:induction false} RunKeepsSystem(s: System, actions: seq<Action>)
    requires SystemOk(s) && Valid(s, actions)
    ensures SystemOk(Run(s, actions)) && s.log <= Run(s, actions).log
    ensures forall l | l in s.ledgers ::
      && l in Run(s, actions).ledgers && s.ledgers[l].seen <= Run(s, actions).ledgers[l].seen
      && s.ledgers[l].state.position <= Run(s, actions).ledgers[l].state.position
    decreases |actions|
  {
    hide SystemOk, Act, Enabled;
    if actions != [] {
      ActKeepsSystem(s, actions[0]);
      RunKeepsSystem(Act(s, actions[0]), actions[1..]);
    }
  }

  /** From the empty log: contiguous version chains with parents, exact and bounded usage, and idempotency keys that occur
      once, in the log and in every ledger. */
  lemma ReachableLogsReplay(actions: seq<Action>)
    requires Valid(EMPTY_SYSTEM, actions)
    ensures var s := Run(EMPTY_SYSTEM, actions);
      && LogOk(s.log) && Replay(s.log).Some? && ViewOk(Replay(s.log).value)
      && forall l | l in s.ledgers ::
           && s.ledgers[l].seen <= |s.log| && Replay(s.log[..s.ledgers[l].seen]).Some?
           && s.ledgers[l].state == StateOf(Replay(s.log[..s.ledgers[l].seen]).value)
           && s.ledgers[l].state.usage == Total(s.ledgers[l].state.versions)
           && WithinLimits(s.ledgers[l].state.usage)
           && forall k | k in s.ledgers[l].state.versions :: Chain(k, s.ledgers[l].state.versions[k])
  {
    hide Total, WithinLimits, Chain, IdsOk, Run;
    assert SystemOk(EMPTY_SYSTEM);
    RunKeepsSystem(EMPTY_SYSTEM, actions);
    var s := Run(EMPTY_SYSTEM, actions);
    ReplayShape(s.log);
    forall l | l in s.ledgers ensures LedgerOk(s.log, s.ledgers[l]) && ViewOk(Replay(s.log[..s.ledgers[l].seen]).value) {
      assert LedgerOk(s.log, s.ledgers[l]);
      ReplayShape(s.log[..s.ledgers[l].seen]);
    }
  }
}
