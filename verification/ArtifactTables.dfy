/** Versioned artifacts over content-addressed blobs: the tables, the write step, and what every run of writes keeps. */
module ArtifactTables {
  import opened Common
  import Text = InvocationText
  import Orders

  const MAX_IDENTIFIER_LENGTH: nat := 512
  const MAX_MEDIA_TYPE_LENGTH: nat := 255
  const MAX_SQLITE_INTEGER: int := 0x7FFF_FFFF_FFFF_FFFF

  /** SHA-256 of content as a collision-free function. */
  datatype BlobDigest = BlobDigest(content: seq<bv8>)

  /** The digest of a request by the fields it covers. */
  datatype Fingerprint = Fingerprint(
    tenant: string, workspace: string, session: string, task: string, name: string, mediaType: string,
    blob: BlobDigest, size: int, metadata: string, createdBy: string)

  datatype Scope = Scope(tenant: string, workspace: string)

  datatype Group = Group(scope: Scope, session: string, name: string)

  /** `metadata` is the canonical JSON text. */
  datatype Write = Write(
    group: Group, task: string, content: seq<bv8>, createdBy: string, key: string, mediaType: string,
    metadata: string, artifactId: string)

  datatype Row = Row(
    artifactId: string, group: Group, task: string, version: int, parent: Option<int>, mediaType: string,
    blob: BlobDigest, size: int, metadata: string, createdBy: string, createdAt: int, key: string,
    fingerprint: Fingerprint)

  datatype Blob = Blob(content: seq<bv8>, size: int)

  datatype Tables = Tables(blobs: map<BlobDigest, Blob>, rows: map<string, Row>)

  const EMPTY_TABLES := Tables(map[], map[])

  /** What a reader returns: the row with its content. */
  datatype Stored = Stored(row: Row, content: seq<bv8>)

  datatype Fault = BadArgument | TooLarge | Conflict | HeadMoved | Integrity | Driver

  datatype Outcome<+T> = Ok(value: T) | Raised(fault: Fault)

  /** A store's configured limits. */
  datatype Limits = Limits(content: int, metadata: int, history: int)

  predicate TextOk(s: string, maximum: nat) {
    !Text.Blank(s) && |s| <= maximum && '\0' !in s && '\r' !in s && '\n' !in s
  }

  predicate GroupOk(g: Group) {
    && TextOk(g.scope.tenant, MAX_IDENTIFIER_LENGTH) && TextOk(g.scope.workspace, MAX_IDENTIFIER_LENGTH)
    && TextOk(g.session, MAX_IDENTIFIER_LENGTH) && TextOk(g.name, MAX_IDENTIFIER_LENGTH)
  }

  /** What constructing a write enforces. */
  predicate WriteOk(w: Write) {
    && GroupOk(w.group) && TextOk(w.task, MAX_IDENTIFIER_LENGTH) && TextOk(w.createdBy, MAX_IDENTIFIER_LENGTH)
    && TextOk(w.key, MAX_IDENTIFIER_LENGTH) && TextOk(w.artifactId, MAX_IDENTIFIER_LENGTH)
    && TextOk(w.mediaType, MAX_MEDIA_TYPE_LENGTH)
  }

  function FingerprintOf(w: Write): Fingerprint {
    Fingerprint(w.group.scope.tenant, w.group.scope.workspace, w.group.session, w.task, w.group.name, w.mediaType,
                BlobDigest(w.content), |w.content|, w.metadata, w.createdBy)
  }

  function Parent(version: int): Option<int> {
    if version > 1 then Some(version - 1) else None
  }

  /** `_row_to_artifact` accepts the joined row. */
  predicate RowOk(r: Row, b: Blob) {
    && TextOk(r.artifactId, MAX_IDENTIFIER_LENGTH) && GroupOk(r.group) && TextOk(r.task, MAX_IDENTIFIER_LENGTH)
    && TextOk(r.mediaType, MAX_MEDIA_TYPE_LENGTH) && TextOk(r.createdBy, MAX_IDENTIFIER_LENGTH)
    && TextOk(r.key, MAX_IDENTIFIER_LENGTH)
    && BlobDigest(b.content) == r.blob
    && |b.content| == r.size == b.size <= MAX_SQLITE_INTEGER
    && r.fingerprint == Fingerprint(r.group.scope.tenant, r.group.scope.workspace, r.group.session, r.task, r.group.name,
                                    r.mediaType, r.blob, r.size, r.metadata, r.createdBy)
    && 1 <= r.version <= MAX_SQLITE_INTEGER && r.parent == Parent(r.version)
  }

  /** The blob join of one row, decoded. */
  function Decode(t: Tables, r: Row): Outcome<Stored> {
    if r.blob !in t.blobs || !RowOk(r, t.blobs[r.blob]) then Raised(Integrity)
    else Ok(Stored(r, t.blobs[r.blob].content))
  }

  // ----- Writing -----

  predicate Greater(x: int, y: int) {
    x > y
  }

  function VersionsOf(t: Tables, g: Group): set<int> {
    set k | k in t.rows && t.rows[k].group == g :: t.rows[k].version
  }

  /** `COALESCE(MAX(version), 0)` over a group. */
  function HeadVersion(t: Tables, g: Group): (head: int)
    ensures VersionsOf(t, g) == {} ==> head == 0
    ensures VersionsOf(t, g) != {} ==> head in VersionsOf(t, g) && forall v | v in VersionsOf(t, g) :: v <= head
  {
    if VersionsOf(t, g) == {} then 0 else Orders.Least(Greater, VersionsOf(t, g))
  }

  predicate Collides(r: Row, w: Write) {
    r.group.scope == w.group.scope && (r.artifactId == w.artifactId || r.key == w.key)
  }

  function Colliding(t: Tables, w: Write): set<string> {
    set k | k in t.rows && Collides(t.rows[k], w)
  }

  function NewRow(w: Write, version: int, now: int): Row {
    Row(w.artifactId, w.group, w.task, version, Parent(version), w.mediaType, BlobDigest(w.content), |w.content|,
        w.metadata, w.createdBy, now, w.key, FingerprintOf(w))
  }

  /** `write` inside its transaction. */
  function WriteStep(t: Tables, w: Write, expectedHead: Option<int>, now: int, lim: Limits): Outcome<(Tables, Stored)> {
    var digest := BlobDigest(w.content);
    var rows := Colliding(t, w);
    if |w.content| > lim.content || Text.Utf8Length(w.metadata) > lim.metadata then Raised(TooLarge)
    else if rows != {} then
      if |rows| != 1 then Raised(Conflict) else
      var existing := t.rows[Only(rows)];
      if existing.key != w.key || existing.fingerprint != FingerprintOf(w) then Raised(Conflict) else
      var decoded := Decode(t, existing);
      if decoded.Raised? then Raised(decoded.fault) else Ok((t, decoded.value))
    else
      var head := HeadVersion(t, w.group);
      if expectedHead.Some? && head != expectedHead.value then Raised(HeadMoved) else
      var blobs := if digest in t.blobs then t.blobs else t.blobs[digest := Blob(w.content, |w.content|)];
      if blobs[digest] != Blob(w.content, |w.content|) then Raised(Integrity)
      // Artifact ids are unique over all scopes, and integers have 64 bits.
      else if w.artifactId in t.rows || head >= MAX_SQLITE_INTEGER || |w.content| > MAX_SQLITE_INTEGER then Raised(Driver)
      else
        var next := Tables(blobs, t.rows[w.artifactId := NewRow(w, head + 1, now)]);
        var decoded := Decode(next, next.rows[w.artifactId]);
        if decoded.Raised? then Raised(decoded.fault) else Ok((next, decoded.value))
  }

  // ----- The invariant -----

  predicate HoldsVersion(t: Tables, k: string, g: Group, v: int) {
    k in t.rows && t.rows[k].group == g && t.rows[k].version == v
  }

  ghost predicate HasVersion(t: Tables, g: Group, v: int) {
    exists k :: HoldsVersion(t, k, g, v)
  }

  ghost predicate BlobsOk(t: Tables) {
    forall d | d in t.blobs :: t.blobs[d] == Blob(d.content, |d.content|)
  }

  ghost predicate RowsOk(t: Tables) {
    forall k | k in t.rows :: t.rows[k].artifactId == k && t.rows[k].blob in t.blobs && RowOk(t.rows[k], t.blobs[t.rows[k].blob])
  }

  /** Per group: no version twice, and every version above 1 has its predecessor. */
  ghost predicate Contiguous(t: Tables) {
    && (forall k, m, g, v | HoldsVersion(t, k, g, v) && HoldsVersion(t, m, g, v) :: k == m)
    && (forall k, g, v | HoldsVersion(t, k, g, v) && v > 1 :: HasVersion(t, g, v - 1))
  }

  ghost predicate KeysUnique(t: Tables) {
    forall k, m | k in t.rows && m in t.rows && t.rows[k].group.scope == t.rows[m].group.scope
                  && t.rows[k].key == t.rows[m].key :: k == m
  }

  ghost predicate TablesOk(t: Tables) {
    BlobsOk(t) && RowsOk(t) && Contiguous(t) && KeysUnique(t)
  }

  lemma InsertKeepsContiguous(t: Tables, next: Tables, k: string, r: Row)
    requires Contiguous(t) && k !in t.rows && next.rows == t.rows[k := r]
    requires r.version == HeadVersion(t, r.group) + 1
    requires forall m | m in t.rows :: t.rows[m].version >= 1
    ensures Contiguous(next)
  {
    var head := HeadVersion(t, r.group);
    assert forall m | m in t.rows && t.rows[m].group == r.group :: t.rows[m].version in VersionsOf(t, r.group);
    forall a, b, g, v | HoldsVersion(next, a, g, v) && HoldsVersion(next, b, g, v) ensures a == b {
      assert a != k ==> HoldsVersion(t, a, g, v);
      assert b != k ==> HoldsVersion(t, b, g, v);
    }
    forall a, g, v | HoldsVersion(next, a, g, v) && v > 1 ensures HasVersion(next, g, v - 1) {
      var p: string;
      if a == k {
        assert head in VersionsOf(t, g);
        p :| p in t.rows && t.rows[p].group == g && t.rows[p].version == head;
      } else {
        assert HoldsVersion(t, a, g, v);
        p :| HoldsVersion(t, p, g, v - 1);
      }
      assert HoldsVersion(next, p, g, v - 1);
    }
  }

  lemma InsertKeepsRows(t: Tables, w: Write, version: int, now: int)
    requires BlobsOk(t) && RowsOk(t) && KeysUnique(t) && WriteOk(w) && Colliding(t, w) == {} && w.artifactId !in t.rows
    requires 1 <= version <= MAX_SQLITE_INTEGER && |w.content| <= MAX_SQLITE_INTEGER
    ensures var next := Tables(t.blobs[BlobDigest(w.content) := Blob(w.content, |w.content|)],
                               t.rows[w.artifactId := NewRow(w, version, now)]);
      BlobsOk(next) && RowsOk(next) && KeysUnique(next)
  {
    hide TextOk, GroupOk;
    forall k | k in t.rows ensures !Collides(t.rows[k], w) {
      assert k !in Colliding(t, w);
    }
  }

  /** What a successful write did: nothing but one new version behind the group's head, or nothing at all. */
  ghost predicate Written(t: Tables, w: Write, now: int, next: Tables, s: Stored) {
    && TablesOk(next)
    && (forall d | d in t.blobs :: d in next.blobs && next.blobs[d] == t.blobs[d])
    && (forall k | k in t.rows :: k in next.rows && next.rows[k] == t.rows[k])
    && s.row.artifactId in next.rows && next.rows[s.row.artifactId] == s.row
    && s.row.key == w.key && s.row.fingerprint == FingerprintOf(w) && s.content == w.content
    && (next == t || (
          && s.row == NewRow(w, HeadVersion(t, w.group) + 1, now)
          && next.rows == t.rows[w.artifactId := s.row] && w.artifactId !in t.rows
          && HeadVersion(next, w.group) == HeadVersion(t, w.group) + 1))
  }

  lemma FreshWriteKeepsTables(t: Tables, w: Write, expectedHead: Option<int>, now: int, lim: Limits)
    requires TablesOk(t) && WriteOk(w) && Colliding(t, w) == {}
    ensures var r := WriteStep(t, w, expectedHead, now, lim); r.Ok? ==> Written(t, w, now, r.value.0, r.value.1)
  {
    hide TextOk, GroupOk, Contiguous, KeysUnique, RowOk, WriteOk, HeadVersion, Collides;
    var r := WriteStep(t, w, expectedHead, now, lim);
    if r.Ok? {
      var next := r.value.0;
      var head := HeadVersion(t, w.group);
      HeadIsNatural(t, w.group);
      InsertKeepsRows(t, w, head + 1, now);
      assert t.blobs[BlobDigest(w.content) := Blob(w.content, |w.content|)] == next.blobs;
      PositiveVersions(t);
      InsertKeepsContiguous(t, next, w.artifactId, next.rows[w.artifactId]);
      VersionsAfterInsert(t, next, w.artifactId);
    }
  }

  /** A write adds at most one version behind the group's head, and alters no row and no blob. */
  lemma WriteKeepsTables(t: Tables, w: Write, expectedHead: Option<int>, now: int, lim: Limits)
    requires TablesOk(t) && WriteOk(w)
    ensures var r := WriteStep(t, w, expectedHead, now, lim); r.Ok? ==> Written(t, w, now, r.value.0, r.value.1)
  {
    hide TextOk, GroupOk, TablesOk, RowOk, WriteOk, HeadVersion, Collides;
    if Colliding(t, w) == {} {
      FreshWriteKeepsTables(t, w, expectedHead, now, lim);
    } else if |Colliding(t, w)| == 1 {
      assert Only(Colliding(t, w)) in Colliding(t, w);
      RowHasBlob(t, Only(Colliding(t, w)));
    }
  }

  lemma PositiveVersions(t: Tables)
    requires RowsOk(t)
    ensures forall k | k in t.rows :: t.rows[k].version >= 1
  {
  }

  lemma RowHasBlob(t: Tables, k: string)
    requires TablesOk(t) && k in t.rows
    ensures t.rows[k].artifactId == k && t.rows[k].blob in t.blobs && RowOk(t.rows[k], t.blobs[t.rows[k].blob])
    ensures t.rows[k].blob == t.rows[k].fingerprint.blob && t.blobs[t.rows[k].blob].content == t.rows[k].blob.content
  {
    hide TextOk, GroupOk, Contiguous, KeysUnique;
  }

  lemma HeadIsNatural(t: Tables, g: Group)
    requires RowsOk(t)
    ensures HeadVersion(t, g) >= 0
  {
  }

  lemma VersionsAfterInsert(t: Tables, next: Tables, k: string)
    requires k !in t.rows && k in next.rows && next.rows == t.rows[k := next.rows[k]]
    requires next.rows[k].version == HeadVersion(t, next.rows[k].group) + 1
    ensures HeadVersion(next, next.rows[k].group) == next.rows[k].version
  {
    var g := next.rows[k].group;
    assert next.rows[k].version in VersionsOf(next, g);
    forall v | v in VersionsOf(next, g) ensures v <= next.rows[k].version {
      var m :| m in next.rows && next.rows[m].group == g && next.rows[m].version == v;
      if m != k {
        assert v in VersionsOf(t, g);
      }
    }
  }

  /** A retry of a write that took effect returns the very same version and changes nothing, whatever head it expects and
      whatever fresh artifact id it drew. */
  lemma RetryReturnsTheSame(t: Tables, w: Write, k: string, expectedHead: Option<int>, now: int, lim: Limits)
    requires TablesOk(t) && k in t.rows
    requires t.rows[k].group.scope == w.group.scope && t.rows[k].key == w.key && t.rows[k].fingerprint == FingerprintOf(w)
    requires w.artifactId == k || forall m | m in t.rows :: t.rows[m].group.scope == w.group.scope ==> m != w.artifactId
    requires |w.content| <= lim.content && Text.Utf8Length(w.metadata) <= lim.metadata
    ensures WriteStep(t, w, expectedHead, now, lim) == Ok((t, Stored(t.rows[k], w.content)))
  {
    hide Contiguous, TextOk, GroupOk, HeadVersion;
    forall m | m in Colliding(t, w) ensures m == k {
      assert t.rows[m].artifactId == m;
    }
    assert Colliding(t, w) == {k};
  }

  // ----- Runs of writes by any number of stores -----

  /** One write attempt; a transaction whose COMMIT failed may or may not have taken effect. */
  datatype Attempt = Attempt(write: Write, expectedHead: Option<int>, now: int, limits: Limits, takesEffect: bool)

  function AttemptOnce(t: Tables, a: Attempt): Tables {
    var r := WriteStep(t, a.write, a.expectedHead, a.now, a.limits);
    if WriteOk(a.write) && a.takesEffect && r.Ok? then r.value.0 else t
  }

  function RunWrites(t: Tables, attempts: seq<Attempt>): Tables
    decreases |attempts|
  {
    if attempts == [] then t else RunWrites(AttemptOnce(t, attempts[0]), attempts[1..])
  }

  lemma EmptyTablesAreOk()
    ensures TablesOk(EMPTY_TABLES)
  {
  }

  /** Any run of writes keeps versions contiguous, ids and keys unique, and every blob and row ever written unaltered. */
  lemma {:induction false} RunKeepsTables(t: Tables, attempts: seq<Attempt>)
    requires TablesOk(t)
    ensures TablesOk(RunWrites(t, attempts))
    ensures forall d | d in t.blobs :: d in RunWrites(t, attempts).blobs && RunWrites(t, attempts).blobs[d] == t.blobs[d]
    ensures forall k | k in t.rows :: k in RunWrites(t, attempts).rows && RunWrites(t, attempts).rows[k] == t.rows[k]
    decreases |attempts|
  {
    hide TablesOk, WriteStep;
    if attempts != [] {
      var a := attempts[0];
      if WriteOk(a.write) {
        WriteKeepsTables(t, a.write, a.expectedHead, a.now, a.limits);
      }
      RunKeepsTables(AttemptOnce(t, a), attempts[1..]);
    }
  }
}
