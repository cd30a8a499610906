/** The artifact store's methods over one shared database, proved against the write step and the reader functions. */
module ArtifactStore {
  import opened Common
  import opened ArtifactTables
  import opened ArtifactReaders
  import Text = InvocationText

  /** How COMMIT ended: acknowledged, refused with the transaction open, or failed with it closed, durable or not. */
  datatype CommitAck = Acknowledged | RefusedOpen | FailedDurable | FailedLost

  class Database {
    var blobs: map<BlobDigest, Blob>
    var rows: map<string, Row>

    constructor ()
      ensures Contents() == EMPTY_TABLES
    {
      blobs, rows := map[], map[];
    }

    function Contents(): Tables
      reads this
    {
      Tables(blobs, rows)
    }
  }

  // ----- Loops that stop at the first fault -----

  lemma {:induction false} LineageStops(rows: seq<Row>, n: nat)
    requires n <= |rows| && LineageOf(rows[..n]).None?
    ensures LineageOf(rows).None?
    decreases |rows| - n
  {
    if n == |rows| {
      assert rows[..n] == rows;
    } else {
      assert rows[..n + 1][..n] == rows[..n];
      LineageStops(rows, n + 1);
    }
  }

  lemma {:induction false} PageStops(t: Tables, page: seq<Row>, after: int, lim: Limits, n: nat)
    requires n <= |page| && PageBytes(t, page[..n], after, lim).Raised?
    ensures PageBytes(t, page, after, lim) == PageBytes(t, page[..n], after, lim)
    decreases |page| - n
  {
    if n == |page| {
      assert page[..n] == page;
    } else {
      assert page[..n + 1][..n] == page[..n];
      PageStops(t, page, after, lim, n + 1);
    }
  }

  lemma {:induction false} DecodeStops(t: Tables, page: seq<Row>, n: nat)
    requires n <= |page| && DecodeAll(t, page[..n]).Raised?
    ensures DecodeAll(t, page) == DecodeAll(t, page[..n])
    decreases |page| - n
  {
    if n == |page| {
      assert page[..n] == page;
    } else {
      assert page[..n + 1][..n] == page[..n];
      DecodeStops(t, page, n + 1);
    }
  }

  lemma {:induction false} VerifyStops(t: Tables, rows: seq<Row>, lim: Limits, n: nat)
    requires n <= |rows| && VerifyRows(t, rows[..n], lim).Raised?
    ensures VerifyRows(t, rows, lim) == VerifyRows(t, rows[..n], lim)
    decreases |rows| - n
  {
    if n == |rows| {
      assert rows[..n] == rows;
    } else {
      assert rows[..n + 1][..n] == rows[..n];
      VerifyStops(t, rows, lim, n + 1);
    }
  }

  /** `_validate_version_lineage`. */
  method ValidateVersionLineage(rows: seq<Row>) returns (r: Outcome<(nat, int)>)
    ensures r == if LineageOf(rows).Some? then Ok((LineageOf(rows).value.checked, LineageOf(rows).value.previous)) else Raised(Integrity)
  {
    hide TextOk;
    var current: Option<(string, string)> := None;
    var previous, checked := 0, 0;
    for i := 0 to |rows|
      invariant LineageOf(rows[..i]) == Some(Lineage(current, previous, checked))
    {
      var row := rows[i];
      var group := (row.group.session, row.group.name);
      ghost var was := Lineage(current, previous, checked);
      assert rows[..i + 1][..i] == rows[..i];
      if !TextOk(group.0, MAX_IDENTIFIER_LENGTH) || !TextOk(group.1, MAX_IDENTIFIER_LENGTH)
         || !(1 <= row.version <= MAX_SQLITE_INTEGER) {
        LineageStops(rows, i + 1);
        return Raised(Integrity);
      }
      var expected := previous + 1;
      if current != Some(group) {
        if current.Some? && !PairBefore(current.value, group) {
          LineageStops(rows, i + 1);
          return Raised(Integrity);
        }
        expected := 1;
        current := Some(group);
      }
      if row.version != expected || row.parent != Parent(expected) {
        LineageStops(rows, i + 1);
        return Raised(Integrity);
      }
      previous := row.version;
      checked := checked + 1;
      assert LineageOne(was, row) == Some(Lineage(current, previous, checked));
    }
    assert rows[..|rows|] == rows;
    return Ok((checked, previous));
  }

  class Store {
    const db: Database
    const limits: Limits

    constructor (db: Database, limits: Limits)
      ensures this.db == db && this.limits == limits
    {
      this.db, this.limits := db, limits;
    }

    /** `write` up to its COMMIT: on a fault the transaction is rolled back. */
    method WriteInTransaction(w: Write, expectedHead: Option<int>, now: int) returns (r: Outcome<Stored>)
      modifies db
      ensures var step := WriteStep(old(db.Contents()), w, expectedHead, now, limits);
        && (r.Ok? <==> step.Ok?)
        && (step.Ok? ==> db.Contents() == step.value.0 && r == Ok(step.value.1))
        && (step.Raised? ==> db.Contents() == old(db.Contents()) && r == Raised(step.fault))
    {
      hide Decode, HeadVersion;
      var blobs, rows := db.blobs, db.rows;
      var digest := BlobDigest(w.content);
      if |w.content| > limits.content || Text.Utf8Length(w.metadata) > limits.metadata {
        return Raised(TooLarge);
      }
      var found := Colliding(db.Contents(), w);
      if found != {} {
        if |found| != 1 {
          return Raised(Conflict);
        }
        var existing := db.rows[Only(found)];
        if existing.key != w.key || existing.fingerprint != FingerprintOf(w) {
          return Raised(Conflict);
        }
        r := Decode(db.Contents(), existing);
        return;
      }
      var head := HeadVersion(db.Contents(), w.group);
      if expectedHead.Some? && head != expectedHead.value {
        return Raised(HeadMoved);
      }
      if digest !in db.blobs {
        db.blobs := db.blobs[digest := Blob(w.content, |w.content|)];
      }
      if db.blobs[digest] != Blob(w.content, |w.content|) {
        db.blobs := blobs;
        return Raised(Integrity);
      }
      if w.artifactId in db.rows || head >= MAX_SQLITE_INTEGER || |w.content| > MAX_SQLITE_INTEGER {
        db.blobs := blobs;
        return Raised(Driver);
      }
      db.rows := db.rows[w.artifactId := NewRow(w, head + 1, now)];
      r := Decode(db.Contents(), db.rows[w.artifactId]);
      if r.Raised? {
        db.blobs, db.rows := blobs, rows;
      }
    }

    /** `write`: a normal return means the version is stored; an exception means nothing of the call is, unless COMMIT
        itself failed after taking effect. */
    method Write(w: Write, expectedHead: Option<int>, now: int, ack: CommitAck) returns (r: Outcome<Stored>)
      requires WriteOk(w)
      modifies db
      ensures var t := old(db.Contents()); var step := WriteStep(t, w, expectedHead, now, limits);
        if expectedHead.Some? && expectedHead.value < 0 then r == Raised(BadArgument) && db.Contents() == t
        else if step.Raised? then r == Raised(step.fault) && db.Contents() == t
        else if ack.Acknowledged? then r == Ok(step.value.1) && db.Contents() == step.value.0
        else r == Raised(Driver) && db.Contents() == if ack.FailedDurable? then step.value.0 else t
      ensures TablesOk(old(db.Contents())) ==> TablesOk(db.Contents())
    {
      hide WriteStep, TablesOk, WriteOk, Written;
      if expectedHead.Some? && expectedHead.value < 0 {
        return Raised(BadArgument);
      }
      ghost var t := db.Contents();
      var blobs, rows := db.blobs, db.rows;
      if TablesOk(t) {
        WrittenTables(t, w, expectedHead, now, limits);
      }
      r := WriteInTransaction(w, expectedHead, now);
      if r.Ok? && !ack.Acknowledged? {
        if !ack.FailedDurable? {
          db.blobs, db.rows := blobs, rows;
        }
        r := Raised(Driver);
      }
    }

    /** The page loop of `history`, with its running byte total. */
    method CheckPage(page: seq<Row>, after: int) returns (r: Outcome<int>)
      ensures r == PageBytes(db.Contents(), page, after, limits)
    {
      hide Preflight;
      var bytes := 0;
      for i := 0 to |page|
        invariant PageBytes(db.Contents(), page[..i], after, limits) == Ok(bytes)
      {
        assert page[..i + 1][..i] == page[..i];
        var length := Preflight(db.Contents(), page[i]);
        if length.Raised? {
          PageStops(db.Contents(), page, after, limits, i + 1);
          return length;
        }
        if page[i].version != after + i + 1 {
          PageStops(db.Contents(), page, after, limits, i + 1);
          return Raised(Integrity);
        }
        if bytes + length.value > limits.history {
          PageStops(db.Contents(), page, after, limits, i + 1);
          return Raised(TooLarge);
        }
        bytes := bytes + length.value;
      }
      assert page[..|page|] == page;
      return Ok(bytes);
    }

    method DecodePage(page: seq<Row>) returns (r: Outcome<seq<Stored>>)
      ensures r == DecodeAll(db.Contents(), page)
    {
      hide Decode;
      var items: seq<Stored> := [];
      for i := 0 to |page|
        invariant DecodeAll(db.Contents(), page[..i]) == Ok(items)
      {
        assert page[..i + 1][..i] == page[..i];
        var item := Decode(db.Contents(), page[i]);
        if item.Raised? {
          DecodeStops(db.Contents(), page, i + 1);
          return Raised(item.fault);
        }
        items := items + [item.value];
      }
      assert page[..|page|] == page;
      return Ok(items);
    }

    /** `history`. */
    method History(g: Group, after: int, limit: int) returns (r: Outcome<seq<Stored>>)
      ensures r == if !GroupOk(g) || after < 0 || !(1 <= limit <= 1000) then Raised(BadArgument)
                   else HistoryPage(db.Contents(), g, after, limit, limits)
    {
      hide GroupOk, PageBytes, DecodeAll, LineageOf, InOrder, GroupIds;
      if !GroupOk(g) || after < 0 || !(1 <= limit <= 1000) {
        return Raised(BadArgument);
      }
      var rows := InOrder(db.Contents(), OwnIds(db.Contents(), g));
      var lineage := ValidateVersionLineage(rows);
      if lineage.Raised? {
        return Raised(Integrity);
      }
      var newer := Newer(rows, after);
      var page := if |newer| <= limit then newer else newer[..limit];
      var bytes := CheckPage(page, after);
      if bytes.Raised? {
        return Raised(bytes.fault);
      }
      if page == [] && after < lineage.value.1 {
        return Raised(Integrity);
      }
      r := DecodePage(page);
    }

    /** The row loop of `verify_scope`. */
    method VerifyEach(rows: seq<Row>) returns (r: Outcome<nat>)
      ensures r == VerifyRows(db.Contents(), rows, limits)
    {
      hide Preflight, Decode;
      var t := db.Contents();
      var checked := 0;
      for i := 0 to |rows|
        invariant VerifyRows(t, rows[..i], limits) == Ok(checked)
      {
        assert rows[..i + 1][..i] == rows[..i];
        var length := Preflight(t, rows[i]);
        if length.Raised? {
          VerifyStops(t, rows, limits, i + 1);
          return Raised(length.fault);
        }
        if length.value > limits.content {
          VerifyStops(t, rows, limits, i + 1);
          return Raised(TooLarge);
        }
        var item := Decode(t, rows[i]);
        if item.Raised? {
          VerifyStops(t, rows, limits, i + 1);
          return Raised(item.fault);
        }
        checked := checked + 1;
      }
      assert rows[..|rows|] == rows;
      return Ok(checked);
    }

    /** `verify_scope`. */
    method Verify(s: Scope) returns (r: Outcome<nat>)
      ensures r == if !TextOk(s.tenant, MAX_IDENTIFIER_LENGTH) || !TextOk(s.workspace, MAX_IDENTIFIER_LENGTH)
                   then Raised(BadArgument) else VerifyScope(db.Contents(), s, limits)
    {
      hide TextOk, InOrder, LineageOf, VerifyRows;
      if !TextOk(s.tenant, MAX_IDENTIFIER_LENGTH) || !TextOk(s.workspace, MAX_IDENTIFIER_LENGTH) {
        return Raised(BadArgument);
      }
      var rows := InOrder(db.Contents(), ScopeIds(db.Contents(), s));
      var lineage := ValidateVersionLineage(rows);
      if lineage.Raised? {
        return Raised(Integrity);
      }
      r := VerifyEach(rows);
      if r.Ok? && r.value != lineage.value.0 {
        r := Raised(Integrity);
      }
    }
  }

  function OwnIds(t: Tables, g: Group): (ids: set<string>)
    ensures ids == GroupIds(t, g) && ids <= t.rows.Keys
  {
    GroupIds(t, g)
  }

  lemma WrittenTables(t: Tables, w: Write, expectedHead: Option<int>, now: int, lim: Limits)
    requires TablesOk(t) && WriteOk(w)
    ensures var r := WriteStep(t, w, expectedHead, now, lim); r.Ok? ==> TablesOk(r.value.0)
  {
    hide WriteStep, TablesOk, WriteOk;
    WriteKeepsTables(t, w, expectedHead, now, lim);
  }
}
