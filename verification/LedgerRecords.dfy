/** What `record` stores and which stored event answers a repeated request, column by column. */
module LedgerRecords {
  import opened Common
  import opened LedgerReplay
  import opened LedgerSystem
  import opened LedgerStore
  import opened LedgerAnswers
  import Text = InvocationText

  // ----- What a request stores -----

  /** A version event with exactly the request's columns. */
  predicate IsRecordOf(s: Stored, r: Request, version: int, d: Draw) {
    var e := s.event; var p := e.payload;
    && e.stream == "session:" + r.session && e.kind == "artifact.versioned" && e.actor == r.agent && e.id == d.eventId
    && e.correlation == r.correlation && e.causation == r.causation
    && e.key == Some(ArtifactSlot(r.taskId + ":" + r.name, Sha256(r.content)))
    && p.session == r.session && p.taskId == r.taskId && p.content == r.content && p.metadata == r.metadata
    && p.createdAt == d.createdAt
    && p.trigger == (if r.trigger.Some? then r.trigger.value else if version == 1 then "create" else "revise")
    && p.ref.artifactId == d.artifactId && p.ref.name == r.name && p.ref.version == version && p.ref.mediaType == r.mediaType
    && p.ref.uri == Uri(r.session, r.name, version) && p.ref.digest == Sha256(r.content) && p.ref.createdBy == r.agent
    && p.ref.taskId == r.taskId && p.ref.parent == (if version == 1 then None else Some(version - 1))
  }

  lemma DraftIsRecord(history: seq<Item>, r: Request, d: Draw, position: int)
    ensures IsRecordOf(Stored(DraftEvent(history, r, d), position), r, |history| + 1, d)
  {
    hide StreamOf;
    StreamInWords(r);
  }

  lemma StreamInWords(r: Request)
    ensures StreamOf(r) == "session:" + r.session
  {
  }

  /** In every reachable system a submission adds nothing, or one event behind all others with exactly the request's columns,
      as the next version of its artifact. */
  lemma SubmissionsRecordTheRequest(actions: seq<Action>, l: nat, r: Request, d: Draw, gap: nat)
    requires Valid(EMPTY_SYSTEM, actions) && Enabled(Run(EMPTY_SYSTEM, actions), Submit(l, r, d, gap))
    ensures var s := Run(EMPTY_SYSTEM, actions); var next := Act(s, Submit(l, r, d, gap)).log;
      next == s.log
      || (|next| == |s.log| + 1 && s.log <= next && Last(s.log) < next[|s.log|].position
          && IsRecordOf(next[|s.log|], r, CountVersions(s.log, (r.session, r.name)) + 1, d))
  {
    hide Run, Valid, PayloadOk, WithinLimits, Weight, LedgerOk, IsRecordOf, RequestOk, Admitted, DraftEvent, LogOk, KnownId, StreamOf;
    var s := Run(EMPTY_SYSTEM, actions);
    ReachableSystems(actions);
    var g := s.ledgers[l];
    var next := Act(s, Submit(l, r, d, gap)).log;
    if next != s.log {
      LedgerIsFold(s, l);
      ReplayPosition(s.log[..g.seen]);
      SamePositionSameLog(s.log, g.seen);
      HistoryIsCounted(s.log, RequestKey(r));
      DraftIsRecord(Past(g.state, RequestKey(r)), r, d, next[|s.log|].position);
    }
  }

  lemma ReachableSystems(actions: seq<Action>)
    requires Valid(EMPTY_SYSTEM, actions)
    ensures SystemOk(Run(EMPTY_SYSTEM, actions))
  {
    hide Run, Valid;
    assert SystemOk(EMPTY_SYSTEM);
    RunKeepsSystem(EMPTY_SYSTEM, actions);
  }

  lemma LedgerIsFold(s: System, l: nat)
    requires SystemOk(s) && l in s.ledgers
    ensures var g := s.ledgers[l];
      g.seen <= |s.log| && Replay(s.log[..g.seen]).Some? && g.state == StateOf(Replay(s.log[..g.seen]).value)
    ensures LogOk(s.log) && Replay(s.log).Some?
  {
    assert LedgerOk(s.log, s.ledgers[l]);
  }

  // ----- Which stored event answers -----

  /** A stored version answers a repeated request exactly when recording that request as that version, with the ids and the time
      stored, would have stored this very event, metadata compared by its encoding. */
  lemma RetriesAreExact(s: Stored, r: Request)
    requires PayloadOk(s.event.payload) && IsVersion(s) && KeyOf(s.event.payload) == RequestKey(r)
    requires s.event.stream == StreamOf(r) && s.event.key == Some(SlotOf(r))
    ensures SameRequest(s.event, r) <==>
      && s.event.payload.metadata.encoded == r.metadata.encoded
      && IsRecordOf(s, r.(metadata := s.event.payload.metadata), s.event.payload.ref.version,
                    Draw(s.event.payload.ref.artifactId, s.event.id, s.event.payload.createdAt))
  {
    hide TextOk, UriLength, StreamOf;
    StreamInWords(r);
  }

  // ----- Slots -----

  lemma {:induction false} FirstColon(a: string, b: string, c: string, d: string)
    requires a + ":" + b == c + ":" + d && ':' !in a && ':' !in c
    ensures a == c && b == d
  {
    assert a == [] ==> (a + ":" + b)[0] == ':' && (a + ":" + b)[1..] == b;
    assert c == [] ==> (c + ":" + d)[0] == ':' && (c + ":" + d)[1..] == d;
    assert a != [] ==> (a + ":" + b)[0] == a[0] && a[0] in a && (a + ":" + b)[1..] == a[1..] + ":" + b;
    assert c != [] ==> (c + ":" + d)[0] == c[0] && c[0] in c && (c + ":" + d)[1..] == c[1..] + ":" + d;
    if a != [] && c != [] {
      FirstColon(a[1..], b, c[1..], d);
    }
  }

  lemma SameSuffix(a: string, b: string, c: string, d: string)
    requires a + ":" + b == c + ":" + d && b == d
    ensures a == c
  {
    var s := a + ":" + b;
    assert |a| == |c|;
    assert s[..|a|] == a && (c + ":" + d)[..|c|] == c;
  }

  lemma SamePrefix(a: string, b: string, c: string, d: string)
    requires a + ":" + b == c + ":" + d && a == c
    ensures b == d
  {
    assert (a + ":" + b)[|a| + 1..] == b && (c + ":" + d)[|c| + 1..] == d;
  }

  predicate SameSlots(r: Request, t: Request) {
    StreamOf(r) == StreamOf(t) && SlotOf(r) == SlotOf(t)
  }

  /** Two requests share an idempotency slot exactly when they agree in session, content and the label "task:name"; so, unless
      both tasks and names differ around a colon, exactly when they agree in session, task, name and content. */
  lemma SlotsByRequest(r: Request, t: Request)
    ensures SameSlots(r, t) ==> r.session == t.session && r.content == t.content
    ensures r.session == t.session && r.taskId == t.taskId && r.name == t.name && r.content == t.content ==> SameSlots(r, t)
    ensures SameSlots(r, t) && (r.taskId == t.taskId || r.name == t.name || (':' !in r.taskId && ':' !in t.taskId)) ==>
      r.taskId == t.taskId && r.name == t.name
  {
    hide StreamOf;
    StreamInWords(r);
    StreamInWords(t);
    var prefix := "session:";
    assert (prefix + r.session)[|prefix|..] == r.session && (prefix + t.session)[|prefix|..] == t.session;
    if SameSlots(r, t) {
      if r.taskId == t.taskId {
        SamePrefix(r.taskId, r.name, t.taskId, t.name);
      } else if r.name == t.name {
        SameSuffix(r.taskId, r.name, t.taskId, t.name);
      } else if ':' !in r.taskId && ':' !in t.taskId {
        FirstColon(r.taskId, r.name, t.taskId, t.name);
      }
    }
  }

  /** Two artifacts of one session whose requests share a slot: the label does not keep task and name apart. */
  lemma LabelsCollide(r: Request, t: Request)
    requires r.session == t.session && r.content == t.content
    requires r.taskId == "a" && r.name == "b:c" && t.taskId == "a:b" && t.name == "c"
    ensures SameSlots(r, t) && RequestKey(r) != RequestKey(t)
  {
    assert "a" + ":" + "b:c" == "a:b:c" && "a:b" + ":" + "c" == "a:b:c";
    assert r.name != t.name;
  }
}
