/** What `record` answers over time: a repeated request gets its first version, which need not be the newest any more. */
module LedgerAnswers {
  import opened Common
  import opened LedgerReplay
  import opened LedgerSystem
  import opened LedgerStore
  import Text = InvocationText

  predicate VersionFor(s: Stored, key: Key) {
    IsVersion(s) && KeyOf(s.event.payload) == key
  }

  /** How many versions of an artifact a log records. */
  function CountVersions(log: seq<Stored>, key: Key): nat {
    if log == [] then 0
    else CountVersions(log[..|log| - 1], key) + if VersionFor(log[|log| - 1], key) then 1 else 0
  }

  lemma {:induction false} HistoryIsCounted(log: seq<Stored>, key: Key)
    requires Replay(log).Some?
    ensures |HistoryOf(Replay(log).value, key)| == CountVersions(log, key)
  {
    hide Acceptable, Weight, Plus;
    if log != [] {
      HistoryIsCounted(log[..|log| - 1], key);
    }
  }

  lemma {:induction false} CountGrowsByVersions(log: seq<Stored>, n: nat, key: Key)
    requires n <= |log|
    ensures CountVersions(log[..n], key) <= CountVersions(log, key)
    ensures CountVersions(log[..n], key) < CountVersions(log, key) <==> exists j :: n <= j < |log| && VersionFor(log[j], key)
    decreases |log|
  {
    if n == |log| {
      assert log[..n] == log;
    } else {
      var front := log[..|log| - 1];
      assert front[..n] == log[..n];
      CountGrowsByVersions(front, n, key);
      assert forall j | n <= j < |front| :: front[j] == log[j];
    }
  }

  /** A version's number is its place among the versions of its artifact. */
  lemma VersionIsPlace(log: seq<Stored>, i: nat)
    requires Replay(log).Some? && i < |log| && IsVersion(log[i])
    ensures log[i].event.payload.ref.version == CountVersions(log[..i + 1], KeyOf(log[i].event.payload))
  {
    hide PayloadOk, Weight, Plus, Replay;
    VersionExtends(log, i);
    HistoryIsCounted(log[..i], KeyOf(log[i].event.payload));
    assert log[..i + 1][..i] == log[..i];
  }

  /** Behind the event that holds the request's slot the log records another version of the artifact. */
  ghost predicate Superseded(log: seq<Stored>, r: Request) {
    exists i, j :: HoldsSlot(log, r, i) && i < j < |log| && VersionFor(log[j], RequestKey(r))
  }

  lemma SlotIsUnique(log: seq<Stored>, r: Request, i: int, j: int)
    requires LogOk(log) && HoldsSlot(log, r, i) && HoldsSlot(log, r, j)
    ensures i == j
  {
  }

  /** The version `record` answers with is an old one exactly when the artifact got another version behind it. */
  lemma AnswerIsOldExactlyWhen(log: seq<Stored>, r: Request, item: Item)
    requires LogOk(log) && Replay(log).Some? && SlotAnswers(log, r, item)
    ensures 1 <= item.ref.version <= |HistoryOf(Replay(log).value, RequestKey(r))|
    ensures item.ref.version < |HistoryOf(Replay(log).value, RequestKey(r))| <==> Superseded(log, r)
  {
    hide PayloadOk, Replay, LogOk;
    var key := RequestKey(r);
    var i: int :| HoldsSlot(log, r, i) && IsVersion(log[i]) && KeyOf(log[i].event.payload) == key && item == ItemOf(log[i].event.payload);
    ReplayHoldsEveryEvent(log, i);
    VersionIsPlace(log, i);
    HistoryIsCounted(log, key);
    var next := i + 1;
    CountGrowsByVersions(log, next, key);
    if Superseded(log, r) {
      var k, j :| HoldsSlot(log, r, k) && k < j < |log| && VersionFor(log[j], key);
      SlotIsUnique(log, r, i, k);
    }
  }

  /** Once superseded, always superseded: what the log holds before a call decides, but for versions appended since. */
  lemma SupersededSince(log: seq<Stored>, next: seq<Stored>, r: Request)
    requires log <= next
    ensures Superseded(next, r) <==>
      Superseded(log, r) || exists i, j :: HoldsSlot(next, r, i) && i < j && |log| <= j < |next| && VersionFor(next[j], RequestKey(r))
  {
    hide VersionFor;
    if Superseded(log, r) {
      var i, j :| HoldsSlot(log, r, i) && i < j < |log| && VersionFor(log[j], RequestKey(r));
      assert HoldsSlot(next, r, i) && next[j] == log[j];
    }
    if Superseded(next, r) {
      var i, j :| HoldsSlot(next, r, i) && i < j < |next| && VersionFor(next[j], RequestKey(r));
      if j < |log| {
        assert HoldsSlot(log, r, i) && next[j] == log[j];
      }
    }
  }

  /** Whoever asks, and however much later, the same request gets the same version. */
  lemma RepeatedRequestsAgree(log: seq<Stored>, next: seq<Stored>, r: Request, first: Item, later: Item)
    requires LogOk(next) && log <= next && SlotAnswers(log, r, first) && SlotAnswers(next, r, later)
    ensures first == later
  {
    hide LogOk, VersionFor, IsVersion;
    var i: int :| HoldsSlot(log, r, i) && IsVersion(log[i]) && first == ItemOf(log[i].event.payload);
    var k: int :| HoldsSlot(next, r, k) && IsVersion(next[k]) && later == ItemOf(next[k].event.payload);
    assert HoldsSlot(next, r, i) && next[i] == log[i];
    SlotIsUnique(next, r, i, k);
  }

  // ----- One ledger that records two texts under one name -----

  const EMPTY_STATE := State(map[], NO_USAGE, 0)

  function AfterFirst(r: Request, d: Draw): State {
    Adopt(EMPTY_STATE, DraftPayload([], r, d), 1)
  }

  function TwoTexts(r: Request, d: Draw, t: Request, e: Draw): seq<Action> {
    [Start(0, 0), Submit(0, r, d, 0), Acknowledge(0), Submit(0, t, e, 0)]
  }

  function TwoEvents(r: Request, d: Draw, t: Request, e: Draw): seq<Stored> {
    [Stored(DraftEvent([], r, d), 1), Stored(DraftEvent([ItemOf(DraftPayload([], r, d))], t, e), 2)]
  }

  lemma FirstSubmit(r: Request, d: Draw)
    requires RequestOk(r) && Admitted(EMPTY_STATE, r, d)
    ensures var t := System([], map[0 := Ledger(EMPTY_STATE, 0, None)]);
      && Enabled(t, Submit(0, r, d, 0))
      && Act(t, Submit(0, r, d, 0)) ==
         System([Stored(DraftEvent([], r, d), 1)], map[0 := Ledger(EMPTY_STATE, 0, Some(Pending(DraftPayload([], r, d))))])
  {
    hide RequestOk, Admitted, DraftPayload, StreamOf, SlotOf;
  }

  lemma SecondSubmit(r: Request, d: Draw, t: Request, e: Draw)
    requires RequestOk(t) && Admitted(AfterFirst(r, d), t, e) && RequestKey(t) == RequestKey(r)
    requires SlotOf(t) != SlotOf(r) && e.eventId != d.eventId
    ensures var log := [Stored(DraftEvent([], r, d), 1)];
      var w := System(log, map[0 := Ledger(AfterFirst(r, d), 1, None)]);
      (Enabled(w, Submit(0, t, e, 0)) ==> Act(w, Submit(0, t, e, 0)).log == TwoEvents(r, d, t, e))
  {
    hide RequestOk, Admitted, StreamOf, SlotOf, Weight, Plus, Enabled, FreshDraw;
  }

  lemma AcknowledgeFirst(r: Request, d: Draw)
    ensures var log := [Stored(DraftEvent([], r, d), 1)];
      var w := System(log, map[0 := Ledger(EMPTY_STATE, 0, Some(Pending(DraftPayload([], r, d))))]);
      && Enabled(w, Acknowledge(0))
      && Act(w, Acknowledge(0)) == System(log, map[0 := Ledger(AfterFirst(r, d), 1, None)])
  {
    hide DraftEvent, DraftPayload, Adopt;
  }

  lemma OneVersion(r: Request, d: Draw)
    requires Admitted(EMPTY_STATE, r, d)
    ensures var log := [Stored(DraftEvent([], r, d), 1)];
      Replay(log).Some? && Replay(log).value.ids == {d.artifactId}
  {
    hide WithinLimits, PayloadOk, Weight;
    var log := [Stored(DraftEvent([], r, d), 1)];
    DraftIsVersion([], r, d);
    assert log[..0] == [];
  }

  lemma RunOnce(w: System, a: Action, rest: seq<Action>)
    requires Enabled(w, a) && Valid(Act(w, a), rest)
    ensures Valid(w, [a] + rest) && Run(w, [a] + rest) == Run(Act(w, a), rest)
  {
    assert ([a] + rest)[1..] == rest;
  }

  /** One ledger records a text, then another under the same name: both versions are in the log. */
  lemma TwoTextsRun(r: Request, d: Draw, t: Request, e: Draw)
    requires RequestOk(r) && RequestOk(t) && RequestKey(t) == RequestKey(r) && SlotOf(t) != SlotOf(r)
    requires e.eventId != d.eventId && e.artifactId != d.artifactId
    requires Admitted(EMPTY_STATE, r, d) && Admitted(AfterFirst(r, d), t, e)
    ensures Valid(EMPTY_SYSTEM, TwoTexts(r, d, t, e)) && Run(EMPTY_SYSTEM, TwoTexts(r, d, t, e)).log == TwoEvents(r, d, t, e)
  {
    hide RequestOk, Admitted, DraftEvent, DraftPayload, AfterFirst, SlotOf, RequestKey, Valid, Run, Act;
    var log := [Stored(DraftEvent([], r, d), 1)];
    var w1 := System([], map[0 := Ledger(EMPTY_STATE, 0, None)]);
    var w2 := System(log, map[0 := Ledger(EMPTY_STATE, 0, Some(Pending(DraftPayload([], r, d))))]);
    var w3 := System(log, map[0 := Ledger(AfterFirst(r, d), 1, None)]);
    FirstSubmit(r, d);
    AcknowledgeFirst(r, d);
    OneVersion(r, d);
    SecondSubmit(r, d, t, e);
    StartFirst();
    RunNone(Act(w3, Submit(0, t, e, 0)));
    RunOnce(w3, Submit(0, t, e, 0), []);
    RunOnce(w2, Acknowledge(0), [Submit(0, t, e, 0)] + []);
    RunOnce(w1, Submit(0, r, d, 0), [Acknowledge(0)] + ([Submit(0, t, e, 0)] + []));
    RunOnce(EMPTY_SYSTEM, Start(0, 0), [Submit(0, r, d, 0)] + ([Acknowledge(0)] + ([Submit(0, t, e, 0)] + [])));
    assert [Start(0, 0)] + ([Submit(0, r, d, 0)] + ([Acknowledge(0)] + ([Submit(0, t, e, 0)] + []))) == TwoTexts(r, d, t, e);
  }

  lemma StartFirst()
    ensures Enabled(EMPTY_SYSTEM, Start(0, 0))
    ensures Act(EMPTY_SYSTEM, Start(0, 0)) == System([], map[0 := Ledger(EMPTY_STATE, 0, None)])
  {
  }

  lemma RunNone(w: System)
    ensures Valid(w, []) && Run(w, []) == w
  {
  }

  lemma TwoEventsOnSlot(r: Request, d: Draw, t: Request, e: Draw)
    requires RequestKey(t) == RequestKey(r) && SlotOf(t) != SlotOf(r)
    ensures var log := TwoEvents(r, d, t, e); var key := RequestKey(r);
      && |log| == 2 && HoldsSlot(log, r, 0) && !HoldsSlot(log, r, 1) && VersionFor(log[0], key) && VersionFor(log[1], key)
      && SameRequest(log[0].event, r) && log[0].event.payload == DraftPayload([], r, d)
  {
    hide StreamOf, SlotOf;
    DraftIsVersion([], r, d);
    DraftIsVersion([ItemOf(DraftPayload([], r, d))], t, e);
  }

  lemma TwoAreCounted(log: seq<Stored>, key: Key)
    requires |log| == 2 && VersionFor(log[0], key) && VersionFor(log[1], key)
    ensures CountVersions(log, key) == 2
  {
    hide VersionFor;
    assert log[..1] == [log[0]] && log[..1][..0] == [];
    assert CountVersions(log[..1], key) == 1;
  }

  /** After that run the only answer left for the first request is version 1 of 2. */
  lemma FirstTextIsAnsweredOld(r: Request, d: Draw, t: Request, e: Draw, item: Item)
    requires RequestOk(r) && RequestOk(t) && RequestKey(t) == RequestKey(r) && SlotOf(t) != SlotOf(r)
    requires e.eventId != d.eventId && e.artifactId != d.artifactId
    requires Admitted(EMPTY_STATE, r, d) && Admitted(AfterFirst(r, d), t, e)
    ensures Valid(EMPTY_SYSTEM, TwoTexts(r, d, t, e))
    ensures var log := Run(EMPTY_SYSTEM, TwoTexts(r, d, t, e)).log;
      && LogOk(log) && Replay(log).Some? && |HistoryOf(Replay(log).value, RequestKey(r))| == 2
      && SameRequest(log[0].event, r) && Superseded(log, r)
      && (SlotAnswers(log, r, item) <==> item == ItemOf(DraftPayload([], r, d)))
      && ItemOf(DraftPayload([], r, d)).ref.version == 1
  {
    hide RequestOk, Admitted, Run, Valid, SlotOf, AfterFirst, TwoEvents, HoldsSlot, VersionFor, DraftPayload, LogOk, Replay,
         SameRequest, ViewOk, WithinLimits, Total, Chain;
    TwoTextsRun(r, d, t, e);
    ReachableLogsReplay(TwoTexts(r, d, t, e));
    var log := TwoEvents(r, d, t, e);
    TwoEventsOnSlot(r, d, t, e);
    HistoryIsCounted(log, RequestKey(r));
    TwoAreCounted(log, RequestKey(r));
    FirstIsTheAnswer(log, r, item);
    DraftStartsAtOne(r, d);
  }

  lemma FirstIsTheAnswer(log: seq<Stored>, r: Request, item: Item)
    requires |log| == 2 && HoldsSlot(log, r, 0) && !HoldsSlot(log, r, 1)
    requires VersionFor(log[0], RequestKey(r)) && VersionFor(log[1], RequestKey(r)) && SameRequest(log[0].event, r)
    ensures Superseded(log, r) && (SlotAnswers(log, r, item) <==> item == ItemOf(log[0].event.payload))
  {
  }

  lemma DraftStartsAtOne(r: Request, d: Draw)
    ensures ItemOf(DraftPayload([], r, d)).ref.version == 1
  {
  }

  const A_TEXT := Request("s", "t", "a", "n", "x", "m", Metadata("{}", 1), None, None, Some("c"))
  const A_REVISION := Request("s", "t", "a", "n", "y", "m", Metadata("{}", 1), None, None, Some("c"))
  const A_DRAW := Draw("i", "j", 0)
  const ANOTHER_DRAW := Draw("k", "l", 0)

  lemma OneLetter(s: string)
    requires |s| == 1 && 'a' <= s[0] <= 'z'
    ensures TextOk(s, MAX_IDENTIFIER_LENGTH) && TextOk(s, MAX_MEDIA_TYPE_LENGTH)
    ensures Text.Utf8Length(s) == 1 && QuotedLength(s, true) == QuotedLength(s, false) == 1
  {
    assert s[0] in s && !Text.IsSpace(s[0]);
    assert s[1..] == [];
    assert Text.Utf8Length(s[1..]) == 0 && QuotedLength(s[1..], true) == QuotedLength(s[1..], false) == 0;
  }

  lemma EmptyObject()
    ensures Text.Utf8Length("{}") == 2
  {
    assert "{}"[1..] == "}" && "}"[1..] == [];
  }

  /** Such requests exist. */
  lemma TwoTextsExist()
    ensures RequestOk(A_TEXT) && RequestOk(A_REVISION) && RequestKey(A_REVISION) == RequestKey(A_TEXT)
    ensures SlotOf(A_REVISION) != SlotOf(A_TEXT)
    ensures ANOTHER_DRAW.eventId != A_DRAW.eventId && ANOTHER_DRAW.artifactId != A_DRAW.artifactId
    ensures Admitted(EMPTY_STATE, A_TEXT, A_DRAW) && Admitted(AfterFirst(A_TEXT, A_DRAW), A_REVISION, ANOTHER_DRAW)
  {
    hide TextOk, Text.Utf8Length, QuotedLength;
    OneLetter("s");
    OneLetter("t");
    OneLetter("a");
    OneLetter("n");
    OneLetter("x");
    OneLetter("y");
    OneLetter("m");
    OneLetter("c");
    OneLetter("i");
    OneLetter("k");
    EmptyObject();
  }
}
