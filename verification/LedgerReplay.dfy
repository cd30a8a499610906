/** The artifact ledger's view of the event log: persisted payloads, their validation, and the replay fold. */
module LedgerReplay {
  import opened Common
  import Text = InvocationText

  const MAX_ARTIFACT_VERSIONS: int := 100_000
  const MAX_CONTENT_TOTAL: int := 256 * 1024 * 1024
  const MAX_METADATA_TOTAL: int := 64 * 1024 * 1024
  const MAX_METADATA_NODES_TOTAL: int := 1_000_000
  const MAX_STATE_TOTAL: int := 384 * 1024 * 1024
  const MAX_IDENTIFIER_LENGTH: nat := 512
  const MAX_MEDIA_TYPE_LENGTH: nat := 255
  const MAX_URI_LENGTH: nat := 4096
  const MAX_CONTENT_BYTES: nat := 16 * 1024 * 1024
  const MAX_METADATA_BYTES: nat := 1024 * 1024
  const MAX_METADATA_NODES: nat := 10_000
  const MAX_SQLITE_INTEGER: int := 0x7FFF_FFFF_FFFF_FFFF
  const DIGEST_TEXT_BYTES: nat := 71
  const VERSIONED := "artifact.versioned"

  // ----- Payloads -----

  /** A JSON object by its canonical encoding and its node count. */
  datatype Metadata = Metadata(encoded: string, nodes: nat)

  /** The canonical artifact URI by its parts: percent-encoding keeps them apart. */
  datatype Uri = Uri(session: string, name: string, version: int)

  datatype Ref = Ref(
    artifactId: string, name: string, version: int, mediaType: string, uri: Uri, digest: Digest,
    createdBy: string, taskId: string, parent: Option<int>)

  /** `createdAt` counts microseconds. */
  datatype Payload = Payload(
    session: string, taskId: string, ref: Ref, content: string, metadata: Metadata, createdAt: int, trigger: string)

  datatype Item = Item(ref: Ref, content: string, metadata: Metadata, createdAt: int, trigger: string)

  type Key = (string, string)

  predicate TextOk(s: string, maximum: nat) {
    && !Text.Blank(s) && |s| <= maximum
    && '\0' !in s && '\r' !in s && '\n' !in s
  }

  predicate Unreserved(c: char) {
    'a' <= c <= 'z' || 'A' <= c <= 'Z' || '0' <= c <= '9' || c == '_' || c == '.' || c == '-' || c == '~'
  }

  function QuotedLength(s: string, slashIsSafe: bool): nat {
    if s == [] then 0 else
      (if Unreserved(s[0]) || (slashIsSafe && s[0] == '/') then 1 else 3 * Text.Utf8Width(s[0]))
      + QuotedLength(s[1..], slashIsSafe)
  }

  function DigitCount(n: nat): nat {
    if n < 10 then 1 else 1 + DigitCount(n / 10)
  }

  function UriLength(u: Uri): nat
    requires u.version >= 1
  {
    11 + QuotedLength(u.session, false) + 1 + QuotedLength(u.name, true) + 2 + DigitCount(u.version)
  }

  function StampLength(createdAt: int): nat {
    if createdAt % 1_000_000 == 0 then 20 else 27
  }

  function Parent(version: int): Option<int> {
    if version > 1 then Some(version - 1) else None
  }

  /** `_decode_persisted_version_with_usage` accepts the payload. */
  predicate PayloadOk(p: Payload) {
    && TextOk(p.session, MAX_IDENTIFIER_LENGTH) && TextOk(p.taskId, MAX_IDENTIFIER_LENGTH)
    && Text.Utf8Length(p.content) <= MAX_CONTENT_BYTES
    && TextOk(p.trigger, MAX_IDENTIFIER_LENGTH)
    && Text.Utf8Length(p.metadata.encoded) <= MAX_METADATA_BYTES && p.metadata.nodes <= MAX_METADATA_NODES
    && TextOk(p.ref.artifactId, MAX_IDENTIFIER_LENGTH) && TextOk(p.ref.name, MAX_IDENTIFIER_LENGTH)
    && 1 <= p.ref.version <= MAX_SQLITE_INTEGER
    && TextOk(p.ref.mediaType, MAX_MEDIA_TYPE_LENGTH)
    && UriLength(p.ref.uri.(version := p.ref.version)) <= MAX_URI_LENGTH
    && TextOk(p.ref.createdBy, MAX_IDENTIFIER_LENGTH)
    && p.ref.parent == Parent(p.ref.version)
    && p.ref.taskId == p.taskId
    && p.ref.digest == Sha256(p.content)
    && p.ref.uri == Uri(p.session, p.ref.name, p.ref.version)
  }

  function KeyOf(p: Payload): Key {
    (p.session, p.ref.name)
  }

  function ItemOf(p: Payload): Item {
    Item(p.ref, p.content, p.metadata, p.createdAt, p.trigger)
  }

  // ----- Usage -----

  datatype Usage = Usage(versions: int, content: int, metadata: int, nodes: int, state: int)

  const NO_USAGE := Usage(0, 0, 0, 0, 0)

  function Plus(u: Usage, v: Usage): Usage {
    Usage(u.versions + v.versions, u.content + v.content, u.metadata + v.metadata, u.nodes + v.nodes, u.state + v.state)
  }

  /** What one version adds to the ledger's usage. */
  function Weight(key: Key, i: Item): Usage {
    var content := Text.Utf8Length(i.content);
    var metadata := Text.Utf8Length(i.metadata.encoded);
    var uri := if i.ref.uri.version >= 1 then UriLength(i.ref.uri) else 0;
    var descriptor :=
      Text.Utf8Length(key.0) + Text.Utf8Length(i.ref.artifactId) + Text.Utf8Length(i.ref.name)
      + Text.Utf8Length(i.ref.mediaType) + uri + DIGEST_TEXT_BYTES + Text.Utf8Length(i.ref.createdBy)
      + Text.Utf8Length(i.ref.taskId) + StampLength(i.createdAt) + Text.Utf8Length(i.trigger);
    Usage(1, content, metadata, i.metadata.nodes, descriptor + content + metadata)
  }

  predicate WithinLimits(u: Usage) {
    && u.versions <= MAX_ARTIFACT_VERSIONS && u.content <= MAX_CONTENT_TOTAL && u.metadata <= MAX_METADATA_TOTAL
    && u.nodes <= MAX_METADATA_NODES_TOTAL && u.state <= MAX_STATE_TOTAL
  }

  // ----- Events and the log -----

  /** Idempotency keys: the ledger's own carry "task:name" and a content digest. Different tasks and names may share a
      label, exactly as their joined texts may. */
  datatype SlotKey = ArtifactSlot(text: string, digest: Digest) | OtherSlot(text: string)

  datatype Event = Event(
    stream: string, kind: string, actor: string, id: string,
    correlation: Option<string>, causation: Option<string>, key: Option<SlotKey>, payload: Payload)

  datatype Stored = Stored(event: Event, position: int)

  predicate IsVersion(s: Stored) {
    s.event.kind == VERSIONED
  }

  function Last(log: seq<Stored>): int {
    if log == [] then 0 else log[|log| - 1].position
  }

  predicate SameSlot(x: Event, y: Event) {
    x.stream == y.stream && x.key.Some? && x.key == y.key
  }

  /** What the event table guarantees: increasing positions, unique event ids, unique keys per stream. */
  predicate LogOk(log: seq<Stored>) {
    && (forall i | 0 <= i < |log| :: 0 < log[i].position)
    && (forall i, j | 0 <= i < j < |log| ::
          && log[i].position < log[j].position
          && log[i].event.id != log[j].event.id
          && !SameSlot(log[i].event, log[j].event))
  }

  // ----- Replay -----

  datatype View = View(versions: map<Key, seq<Item>>, usage: Usage, ids: set<string>, position: int)

  const EMPTY_VIEW := View(map[], NO_USAGE, {}, 0)

  function HistoryOf(v: View, key: Key): seq<Item> {
    if key in v.versions then v.versions[key] else []
  }

  function Extend(v: View, p: Payload): View {
    v.(versions := v.versions[KeyOf(p) := HistoryOf(v, KeyOf(p)) + [ItemOf(p)]],
       usage := Plus(v.usage, Weight(KeyOf(p), ItemOf(p))),
       ids := v.ids + {p.ref.artifactId})
  }

  /** The checks replay makes on one `artifact.versioned` payload. */
  predicate Acceptable(v: View, p: Payload) {
    && PayloadOk(p)
    && p.ref.version == |HistoryOf(v, KeyOf(p))| + 1
    && p.ref.artifactId !in v.ids
    && WithinLimits(Plus(v.usage, Weight(KeyOf(p), ItemOf(p))))
  }

  /** One turn of the replay loop; none when replay is refused. */
  function ReplayOne(v: View, s: Stored): Option<View> {
    if s.position <= v.position then None
    else if !IsVersion(s) then Some(v.(position := s.position))
    else if !Acceptable(v, s.event.payload) then None
    else Some(Extend(v, s.event.payload).(position := s.position))
  }

  /** Replay of a whole log as one fold. */
  function Replay(log: seq<Stored>): Option<View> {
    if log == [] then Some(EMPTY_VIEW) else
    var before := Replay(log[..|log| - 1]);
    if before.None? then None else ReplayOne(before.value, log[|log| - 1])
  }

  lemma {:induction false} PrefixReplays(log: seq<Stored>, n: nat)
    requires n <= |log| && Replay(log).Some?
    ensures Replay(log[..n]).Some?
    ensures n < |log| ==> Replay(log[..n + 1]) == ReplayOne(Replay(log[..n]).value, log[n])
    decreases |log|
  {
    if n == |log| {
      assert log[..n] == log;
    } else if n == |log| - 1 {
      assert log[..n + 1] == log;
    } else {
      var front := log[..|log| - 1];
      PrefixReplays(front, n);
      assert front[..n] == log[..n] && front[..n + 1] == log[..n + 1];
    }
  }

  lemma {:induction false} RefusalIsFinal(log: seq<Stored>, n: nat)
    requires n <= |log| && Replay(log[..n]).None?
    ensures Replay(log).None?
    decreases |log|
  {
    if n == |log| {
      assert log[..n] == log;
    } else {
      var front := log[..|log| - 1];
      assert front[..n] == log[..n];
      RefusalIsFinal(front, n);
    }
  }

  /** The fold behind a version event: that version put behind its history. */
  lemma VersionExtends(log: seq<Stored>, n: nat)
    requires Replay(log).Some? && n < |log| && IsVersion(log[n])
    ensures Replay(log[..n]).Some? && Acceptable(Replay(log[..n]).value, log[n].event.payload)
    ensures Replay(log[..n + 1]) == Some(Extend(Replay(log[..n]).value, log[n].event.payload).(position := log[n].position))
  {
    hide Replay, Acceptable, Extend, IsVersion;
    PrefixReplays(log, n);
    PrefixReplays(log, n + 1);
  }

  lemma {:induction false} ReplayPosition(log: seq<Stored>)
    requires Replay(log).Some?
    ensures Replay(log).value.position == Last(log)
  {
    if log != [] {
      ReplayPosition(log[..|log| - 1]);
    }
  }

  /** Replay order: every replayable log has strictly increasing positive positions. */
  lemma {:induction false} ReplayOrders(log: seq<Stored>)
    requires Replay(log).Some?
    ensures forall i | 0 <= i < |log| :: 0 < log[i].position <= Last(log)
    ensures forall i, j | 0 <= i < j < |log| :: log[i].position < log[j].position
  {
    if log != [] {
      var front := log[..|log| - 1];
      ReplayOrders(front);
      ReplayPosition(front);
    }
  }

  // ----- What a replayed view looks like -----

  /** Versions per key are 1..n in order, each descending from the one before, under its own name and session. */
  predicate Chain(key: Key, history: seq<Item>) {
    forall i | 0 <= i < |history| ::
      && history[i].ref.version == i + 1
      && history[i].ref.parent == (if i == 0 then None else Some(i))
      && history[i].ref.uri == Uri(key.0, key.1, i + 1)
      && history[i].ref.digest == Sha256(history[i].content)
  }

  function HistoryWeight(key: Key, history: seq<Item>): Usage {
    if history == [] then NO_USAGE
    else Plus(HistoryWeight(key, history[..|history| - 1]), Weight(key, history[|history| - 1]))
  }

  /** The total weight over all keys: whichever key is taken out first. */
  ghost function Total(versions: map<Key, seq<Item>>): Usage
    decreases |versions|
  {
    if versions == map[] then NO_USAGE else
      var k :| k in versions;
      Plus(Total(versions - {k}), HistoryWeight(k, versions[k]))
  }

  lemma PlusSwaps(a: Usage, x: Usage, y: Usage)
    ensures Plus(Plus(a, x), y) == Plus(Plus(a, y), x)
  {
  }

  lemma {:induction false} TotalWithout(versions: map<Key, seq<Item>>, k: Key)
    requires k in versions
    ensures Total(versions) == Plus(Total(versions - {k}), HistoryWeight(k, versions[k]))
    decreases |versions|
  {
    hide HistoryWeight;
    var m :| m in versions && Total(versions) == Plus(Total(versions - {m}), HistoryWeight(m, versions[m]));
    if m != k {
      var less, other := versions - {m}, versions - {k};
      TotalWithout(less, k);
      TotalWithout(other, m);
      assert less[k] == versions[k] && other[m] == versions[m];
      assert less - {k} == other - {m};
      PlusSwaps(Total(less - {k}), HistoryWeight(k, versions[k]), HistoryWeight(m, versions[m]));
    }
  }

  lemma HistoryWeightAfterAppend(k: Key, history: seq<Item>, i: Item)
    ensures HistoryWeight(k, history + [i]) == Plus(HistoryWeight(k, history), Weight(k, i))
    ensures HistoryWeight(k, []) == NO_USAGE
  {
    hide Weight;
    assert (history + [i])[..|history|] == history;
  }

  lemma PlusIsAssociative(a: Usage, x: Usage, y: Usage)
    ensures Plus(a, Plus(x, y)) == Plus(Plus(a, x), y) && Plus(a, NO_USAGE) == a
  {
  }

  lemma TotalAfterExtend(versions: map<Key, seq<Item>>, k: Key, i: Item)
    ensures var history := if k in versions then versions[k] else [];
      Total(versions[k := history + [i]]) == Plus(Total(versions), Weight(k, i))
  {
    hide Weight, HistoryWeight, Total, Plus;
    var history := if k in versions then versions[k] else [];
    var next := versions[k := history + [i]];
    TotalWithout(next, k);
    HistoryWeightAfterAppend(k, history, i);
    PlusIsAssociative(Total(versions - {k}), HistoryWeight(k, history), Weight(k, i));
    assert next - {k} == versions - {k};
    if k in versions {
      TotalWithout(versions, k);
    } else {
      assert versions - {k} == versions;
    }
  }

  /** The artifact ids a view lists are exactly those of its versions, each used once. */
  ghost predicate IdsOk(v: View) {
    && (forall k, i | k in v.versions && 0 <= i < |v.versions[k]| :: v.versions[k][i].ref.artifactId in v.ids)
    && (forall k, i, m, j | k in v.versions && 0 <= i < |v.versions[k]| && m in v.versions && 0 <= j < |v.versions[m]|
          && v.versions[k][i].ref.artifactId == v.versions[m][j].ref.artifactId :: k == m && i == j)
  }

  ghost predicate ViewOk(v: View) {
    && (forall k | k in v.versions :: Chain(k, v.versions[k]))
    && v.usage == Total(v.versions)
    && WithinLimits(v.usage)
    && IdsOk(v)
  }

  lemma ExtendKeepsIds(v: View, p: Payload)
    requires IdsOk(v) && p.ref.artifactId !in v.ids
    ensures IdsOk(Extend(v, p))
  {
    hide Plus, Weight;
    var next, key := Extend(v, p), KeyOf(p);
    var before := HistoryOf(v, key);
    forall k, i | k in next.versions && 0 <= i < |next.versions[k]|
      ensures next.versions[k][i].ref.artifactId == p.ref.artifactId <==> (k == key && i == |before|)
      ensures !(k == key && i == |before|) ==> k in v.versions && i < |v.versions[k]| && next.versions[k][i] == v.versions[k][i]
    {
      if !(k == key && i == |before|) {
        assert v.versions[k][i].ref.artifactId in v.ids;
      }
    }
  }

  lemma ReplayOneKeepsView(v: View, s: Stored)
    requires ViewOk(v) && ReplayOne(v, s).Some?
    ensures ViewOk(ReplayOne(v, s).value)
  {
    hide Weight, Total, IdsOk, TextOk, WithinLimits;
    var p := s.event.payload;
    if IsVersion(s) {
      TotalAfterExtend(v.versions, KeyOf(p), ItemOf(p));
      ExtendKeepsIds(v, p);
      IdsIgnorePosition(Extend(v, p), s.position);
    } else {
      IdsIgnorePosition(v, s.position);
    }
  }

  lemma IdsIgnorePosition(v: View, position: int)
    requires IdsOk(v)
    ensures IdsOk(v.(position := position))
  {
  }

  /** Every replayable log folds to contiguous version chains, unique artifact ids, and a usage that is exactly the sum
      over all versions and within every limit. */
  lemma {:induction false} ReplayShape(log: seq<Stored>)
    requires Replay(log).Some?
    ensures ViewOk(Replay(log).value)
  {
    hide ViewOk, ReplayOne;
    if log == [] {
      EmptyViewIsOk();
    } else {
      ReplayShape(log[..|log| - 1]);
      ReplayOneKeepsView(Replay(log[..|log| - 1]).value, log[|log| - 1]);
    }
  }

  lemma EmptyViewIsOk()
    ensures ViewOk(EMPTY_VIEW)
  {
  }

  /** Every version event of the log is in the view, under its key and at its version. */
  lemma {:induction false} ReplayHoldsEveryEvent(log: seq<Stored>, n: nat)
    requires Replay(log).Some? && n < |log| && IsVersion(log[n])
    ensures var v, p := Replay(log).value, log[n].event.payload;
      && PayloadOk(p) && KeyOf(p) in v.versions && 1 <= p.ref.version <= |v.versions[KeyOf(p)]|
      && v.versions[KeyOf(p)][p.ref.version - 1] == ItemOf(p)
    decreases |log|
  {
    hide PayloadOk, WithinLimits, Plus, Weight;
    var front := log[..|log| - 1];
    if n < |front| {
      ReplayHoldsEveryEvent(front, n);
      PositiveVersion(log[n].event.payload);
    } else {
      PositiveVersion(log[n].event.payload);
    }
  }

  lemma PositiveVersion(p: Payload)
    requires PayloadOk(p)
    ensures p.ref.version >= 1
  {
  }

  /** Histories only grow: an earlier fold's history is the beginning of a later one's. */
  lemma {:induction false} HistoriesGrow(log: seq<Stored>, n: nat, key: Key)
    requires n <= |log| && Replay(log).Some?
    ensures Replay(log[..n]).Some?
    ensures HistoryOf(Replay(log[..n]).value, key) <= HistoryOf(Replay(log).value, key)
    decreases |log|
  {
    hide Acceptable, Weight, Plus;
    if n == |log| {
      assert log[..n] == log;
    } else {
      var front := log[..|log| - 1];
      assert front[..n] == log[..n];
      HistoriesGrow(front, n, key);
    }
  }

  /** Two versions of one view with the same artifact id are the same version. */
  lemma SameIdSameVersion(v: View, k: Key, i: nat, m: Key, j: nat)
    requires ViewOk(v) && k in v.versions && i < |v.versions[k]| && m in v.versions && j < |v.versions[m]|
    requires v.versions[k][i].ref.artifactId == v.versions[m][j].ref.artifactId
    ensures k == m && i == j
  {
    hide Chain, Total, WithinLimits;
  }
}
