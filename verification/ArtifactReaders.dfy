/** Readers of the artifact tables: lineage, history pages, head, lookup and scope verification. */
module ArtifactReaders {
  import opened Common
  import opened ArtifactTables
  import Orders

  // ----- Storage order -----

  datatype RowKey = RowKey(session: string, name: string, version: int, id: string)

  predicate RowBefore(x: RowKey, y: RowKey) {
    Before(x.session, y.session) || (x.session == y.session &&
    (Before(x.name, y.name) || (x.name == y.name &&
    (x.version < y.version || (x.version == y.version && Before(x.id, y.id))))))
  }

  lemma RowOrder()
    ensures Orders.StrictTotal(RowBefore)
  {
    forall x, y ensures !RowBefore(x, x) && (x == y || RowBefore(x, y) || RowBefore(y, x)) {
      BeforeIsStrict(x.session, x.session);
      BeforeIsStrict(x.name, x.name);
      BeforeIsStrict(x.id, x.id);
      BeforeIsTotal(x.session, y.session);
      BeforeIsTotal(x.name, y.name);
      BeforeIsTotal(x.id, y.id);
    }
    forall x, y, z | RowBefore(x, y) && RowBefore(y, z) ensures RowBefore(x, z) {
      RowBeforeIsTransitive(x, y, z);
    }
  }

  lemma RowBeforeIsTransitive(x: RowKey, y: RowKey, z: RowKey)
    requires RowBefore(x, y) && RowBefore(y, z)
    ensures RowBefore(x, z)
  {
    if Before(x.session, y.session) && Before(y.session, z.session) {
      BeforeIsTransitive(x.session, y.session, z.session);
    }
    if Before(x.name, y.name) && Before(y.name, z.name) {
      BeforeIsTransitive(x.name, y.name, z.name);
    }
    if Before(x.id, y.id) && Before(y.id, z.id) {
      BeforeIsTransitive(x.id, y.id, z.id);
    }
  }

  function KeyOf(r: Row): RowKey {
    RowKey(r.group.session, r.group.name, r.version, r.artifactId)
  }

  function KeysOf(t: Tables, ids: set<string>): set<RowKey>
    requires ids <= t.rows.Keys
  {
    set k | k in ids :: RowKey(t.rows[k].group.session, t.rows[k].group.name, t.rows[k].version, k)
  }

  function SortedKeys(t: Tables, ids: set<string>): (keys: seq<RowKey>)
    requires ids <= t.rows.Keys
    ensures forall k :: k in keys <==> k in KeysOf(t, ids)
    ensures |keys| == |KeysOf(t, ids)|
  {
    RowOrder();
    Orders.Listed(RowBefore, KeysOf(t, ids))
  }

  /** `ORDER BY session_id, name, version` over some rows. */
  function InOrder(t: Tables, ids: set<string>): (rows: seq<Row>)
    requires ids <= t.rows.Keys
    ensures forall i | 0 <= i < |rows| :: exists k :: k in ids && rows[i] == t.rows[k]
  {
    var keys := SortedKeys(t, ids);
    assert forall i | 0 <= i < |keys| :: keys[i] in KeysOf(t, ids);
    seq(|keys|, i requires 0 <= i < |keys| => t.rows[keys[i].id])
  }

  function GroupIds(t: Tables, g: Group): set<string> {
    set k | k in t.rows && t.rows[k].group == g
  }

  function ScopeIds(t: Tables, s: Scope): set<string> {
    set k | k in t.rows && t.rows[k].group.scope == s
  }

  // ----- Lineage -----

  /** The running variables of `_validate_version_lineage`. */
  datatype Lineage = Lineage(group: Option<(string, string)>, previous: int, checked: nat)

  const NO_LINEAGE := Lineage(None, 0, 0)

  predicate PairBefore(x: (string, string), y: (string, string)) {
    Before(x.0, y.0) || (x.0 == y.0 && Before(x.1, y.1))
  }

  function LineageOne(l: Lineage, r: Row): Option<Lineage> {
    var group := (r.group.session, r.group.name);
    var expected := if Some(group) != l.group then 1 else l.previous + 1;
    if !TextOk(group.0, MAX_IDENTIFIER_LENGTH) || !TextOk(group.1, MAX_IDENTIFIER_LENGTH)
       || !(1 <= r.version <= MAX_SQLITE_INTEGER)
       || (l.group.Some? && l.group != Some(group) && !PairBefore(l.group.value, group))
       || r.version != expected || r.parent != Parent(expected)
    then None
    else Some(Lineage(Some(group), r.version, l.checked + 1))
  }

  function LineageOf(rows: seq<Row>): Option<Lineage> {
    if rows == [] then Some(NO_LINEAGE) else
    var before := LineageOf(rows[..|rows| - 1]);
    if before.None? then None else LineageOne(before.value, rows[|rows| - 1])
  }

  // ----- Readers -----

  /** `_preflight_blob_metadata`: the content length of a row whose sizes agree. */
  function Preflight(t: Tables, r: Row): Outcome<int> {
    if r.blob !in t.blobs || r.version < 1 || r.size != t.blobs[r.blob].size || t.blobs[r.blob].size != |t.blobs[r.blob].content|
    then Raised(Integrity) else Ok(|t.blobs[r.blob].content|)
  }

  function Newer(rows: seq<Row>, after: int): seq<Row> {
    if rows == [] then []
    else (if rows[0].version > after then [rows[0]] else []) + Newer(rows[1..], after)
  }

  /** The page loop of `history`: total bytes, or the fault of the first row that breaks the page. */
  function PageBytes(t: Tables, page: seq<Row>, after: int, lim: Limits): Outcome<int> {
    if page == [] then Ok(0) else
    var last := |page| - 1;
    var before := PageBytes(t, page[..last], after, lim);
    if before.Raised? then before else
    var length := Preflight(t, page[last]);
    if length.Raised? then length
    else if page[last].version != after + last + 1 then Raised(Integrity)
    else if before.value + length.value > lim.history then Raised(TooLarge)
    else Ok(before.value + length.value)
  }

  function DecodeAll(t: Tables, page: seq<Row>): Outcome<seq<Stored>> {
    if page == [] then Ok([]) else
    var before := DecodeAll(t, page[..|page| - 1]);
    if before.Raised? then before else
    var item := Decode(t, page[|page| - 1]);
    if item.Raised? then Raised(item.fault) else Ok(before.value + [item.value])
  }

  /** `history` with its cursor and page limit. */
  function HistoryPage(t: Tables, g: Group, after: nat, limit: nat, lim: Limits): Outcome<seq<Stored>> {
    var rows := InOrder(t, GroupIds(t, g));
    var lineage := LineageOf(rows);
    if lineage.None? then Raised(Integrity) else
    var newer := Newer(rows, after);
    var page := if |newer| <= limit then newer else newer[..limit];
    var bytes := PageBytes(t, page, after, lim);
    if bytes.Raised? then Raised(bytes.fault)
    else if page == [] && after < lineage.value.previous then Raised(Integrity)
    else DecodeAll(t, page)
  }

  /** `get` by artifact id within a scope. */
  function Get(t: Tables, s: Scope, id: string, lim: Limits): Outcome<Option<Stored>> {
    if id !in t.rows || t.rows[id].group.scope != s then Ok(None) else
    var length := Preflight(t, t.rows[id]);
    if length.Raised? then Raised(length.fault)
    else if length.value > lim.content then Raised(TooLarge)
    else
      var item := Decode(t, t.rows[id]);
      if item.Raised? then Raised(item.fault) else Ok(Some(item.value))
  }

  /** `head`: the group's newest version, with the ambiguity check on the second newest. */
  function Head(t: Tables, g: Group, lim: Limits): Outcome<Option<Stored>> {
    var rows := InOrder(t, GroupIds(t, g));
    if rows == [] then Ok(None) else
    var newest := rows[|rows| - 1];
    var length := Preflight(t, newest);
    if length.Raised? then Raised(length.fault)
    else if |rows| > 1 && (rows[|rows| - 2].version < 1 || rows[|rows| - 2].version >= newest.version) then Raised(Integrity)
    else if length.value > lim.content then Raised(TooLarge)
    else
      var item := Decode(t, newest);
      if item.Raised? then Raised(item.fault) else Ok(Some(item.value))
  }

  /** The row loop of `verify_scope`. */
  function VerifyRows(t: Tables, rows: seq<Row>, lim: Limits): Outcome<nat> {
    if rows == [] then Ok(0) else
    var last := |rows| - 1;
    var before := VerifyRows(t, rows[..last], lim);
    if before.Raised? then before else
    var length := Preflight(t, rows[last]);
    if length.Raised? then Raised(length.fault)
    else if length.value > lim.content then Raised(TooLarge)
    else
      var item := Decode(t, rows[last]);
      if item.Raised? then Raised(item.fault) else Ok(before.value + 1)
  }

  function VerifyScope(t: Tables, s: Scope, lim: Limits): Outcome<nat> {
    var rows := InOrder(t, ScopeIds(t, s));
    var lineage := LineageOf(rows);
    if lineage.None? then Raised(Integrity) else
    var checked := VerifyRows(t, rows, lim);
    if checked.Ok? && checked.value != lineage.value.checked then Raised(Integrity) else checked
  }

  // ----- Storage order of valid tables -----

  /** Some rows of one scope that contain every earlier version of each row they contain. */
  ghost predicate Closed(t: Tables, s: Scope, ids: set<string>) {
    && ids <= t.rows.Keys
    && (forall k | k in ids :: t.rows[k].group.scope == s)
    && (forall k, m, g, v | k in ids && HoldsVersion(t, k, g, v) && HoldsVersion(t, m, g, v - 1) :: m in ids)
  }

  lemma GroupIsClosed(t: Tables, g: Group)
    ensures Closed(t, g.scope, GroupIds(t, g))
  {
  }

  lemma ScopeIsClosed(t: Tables, s: Scope)
    ensures Closed(t, s, ScopeIds(t, s))
  {
  }

  /** Storage order lists the rows of the sorted keys. */
  lemma InOrderFollowsKeys(t: Tables, ids: set<string>)
    requires TablesOk(t) && ids <= t.rows.Keys
    ensures var keys := SortedKeys(t, ids); var rows := InOrder(t, ids);
      && |rows| == |keys|
      && forall i | 0 <= i < |keys| :: keys[i] == KeyOf(rows[i]) && rows[i].artifactId in ids && t.rows[rows[i].artifactId] == rows[i]
  {
    hide RowBefore, Contiguous, KeysUnique, RowOk, BlobsOk;
    var keys := SortedKeys(t, ids);
    var rows := InOrder(t, ids);
    forall i | 0 <= i < |keys| ensures keys[i] == KeyOf(rows[i]) && rows[i].artifactId in ids && t.rows[rows[i].artifactId] == rows[i] {
      assert keys[i] in KeysOf(t, ids);
      assert rows[i] == t.rows[keys[i].id];
    }
  }

  /** Storage order is increasing and lists every row of the set exactly once. */
  lemma InOrderIsIncreasing(t: Tables, ids: set<string>)
    requires TablesOk(t) && ids <= t.rows.Keys
    ensures var rows := InOrder(t, ids);
      && |rows| == |ids|
      && (forall i, j | 0 <= i < j < |rows| :: RowBefore(KeyOf(rows[i]), KeyOf(rows[j])))
      && (forall i | 0 <= i < |rows| :: rows[i].artifactId in ids && t.rows[rows[i].artifactId] == rows[i])
      && (forall k | k in ids :: t.rows[k] in rows)
  {
    hide RowBefore, TablesOk, InOrder;
    RowOrder();
    var keys := SortedKeys(t, ids);
    Orders.ListedIsIncreasing(RowBefore, KeysOf(t, ids));
    InOrderFollowsKeys(t, ids);
    var rows := InOrder(t, ids);
    forall k | k in ids ensures t.rows[k] in rows {
      RowFacts(t, k);
      assert KeyOf(t.rows[k]) in KeysOf(t, ids);
      var i :| 0 <= i < |keys| && keys[i] == KeyOf(t.rows[k]);
      assert rows[i] == t.rows[k];
    }
    KeyCount(t, ids);
  }

  lemma {:induction false} KeyCount(t: Tables, ids: set<string>)
    requires ids <= t.rows.Keys
    ensures |KeysOf(t, ids)| == |ids|
    decreases ids
  {
    if ids != {} {
      var k :| k in ids;
      var rest := ids - {k};
      KeyCount(t, rest);
      var key := RowKey(t.rows[k].group.session, t.rows[k].group.name, t.rows[k].version, k);
      assert KeysOf(t, ids) == KeysOf(t, rest) + {key};
      assert key !in KeysOf(t, rest);
    }
  }

  /** In storage order each row either opens a group at version 1 or directly follows its parent version. */
  lemma RowFollowsParent(t: Tables, s: Scope, ids: set<string>, i: nat)
    requires TablesOk(t) && Closed(t, s, ids) && i < |InOrder(t, ids)|
    ensures var rows := InOrder(t, ids); var r := rows[i];
      && r.version >= 1 && r.group.scope == s
      && (r.version == 1 ==> i == 0 || rows[i - 1].group != r.group)
      && (r.version > 1 ==> i > 0 && rows[i - 1].group == r.group && rows[i - 1].version == r.version - 1)
  {
    hide RowBefore, KeysUnique, RowOk, BlobsOk, InOrder;
    InOrderIsIncreasing(t, ids);
    var rows := InOrder(t, ids);
    var r := rows[i];
    RowFacts(t, r.artifactId);
    if r.version > 1 {
      assert HoldsVersion(t, r.artifactId, r.group, r.version);
      var p :| HoldsVersion(t, p, r.group, r.version - 1);
      assert p in ids;
      RowFacts(t, p);
      var j :| 0 <= j < |rows| && rows[j] == t.rows[p];
      SandwichedVersion(t, ids, rows, j, i);
    } else if i > 0 && rows[i - 1].group == r.group {
      RowFacts(t, rows[i - 1].artifactId);
      LaterVersion(rows[i - 1], r);
      NoVersionTwice(t, rows[i - 1].artifactId, r.artifactId);
      BeforeItself(KeyOf(r));
    }
  }

  lemma RowFacts(t: Tables, k: string)
    requires TablesOk(t) && k in t.rows
    ensures t.rows[k].artifactId == k && 1 <= t.rows[k].version <= MAX_SQLITE_INTEGER
    ensures t.rows[k].parent == Parent(t.rows[k].version)
    ensures TextOk(t.rows[k].group.session, MAX_IDENTIFIER_LENGTH) && TextOk(t.rows[k].group.name, MAX_IDENTIFIER_LENGTH)
  {
    hide Contiguous, KeysUnique, BlobsOk, TextOk;
  }

  lemma LaterVersion(x: Row, y: Row)
    requires RowBefore(KeyOf(x), KeyOf(y)) && x.group == y.group
    ensures x.version <= y.version
    ensures x.version < y.version || x.version == y.version
  {
    BeforeIsStrict(x.group.session, x.group.session);
    BeforeIsStrict(x.group.name, x.group.name);
  }

  /** Nothing lies between a version and its successor. */
  lemma SandwichedVersion(t: Tables, ids: set<string>, rows: seq<Row>, j: nat, i: nat)
    requires TablesOk(t) && j < |rows| && i < |rows|
    requires forall a, b | 0 <= a < b < |rows| :: RowBefore(KeyOf(rows[a]), KeyOf(rows[b]))
    requires forall a | 0 <= a < |rows| :: rows[a].artifactId in t.rows && t.rows[rows[a].artifactId] == rows[a]
    requires forall a | 0 <= a < |rows| :: rows[a].group.scope == rows[i].group.scope
    requires rows[j].group == rows[i].group && rows[j].version == rows[i].version - 1
    ensures i == j + 1
  {
    hide TablesOk;
    RowOrder();
    if i < j {
      LaterVersion(rows[i], rows[j]);
    } else if j + 1 < i {
      var m := rows[j + 1];
      BetweenIsSame(rows[j], m, rows[i]);
      var v := m.version;
      NoVersionTwice(t, m.artifactId, if v == rows[j].version then rows[j].artifactId else rows[i].artifactId);
      BeforeItself(KeyOf(m));
    }
  }

  lemma BeforeItself(k: RowKey)
    ensures !RowBefore(k, k)
  {
    RowOrder();
  }

  lemma NoVersionTwice(t: Tables, k: string, m: string)
    requires TablesOk(t) && k in t.rows && m in t.rows
    requires t.rows[k].group == t.rows[m].group && t.rows[k].version == t.rows[m].version
    ensures k == m
  {
    hide BlobsOk, RowsOk, KeysUnique;
    assert HoldsVersion(t, k, t.rows[k].group, t.rows[k].version) && HoldsVersion(t, m, t.rows[k].group, t.rows[k].version);
  }

  lemma BetweenIsSame(x: Row, y: Row, z: Row)
    requires RowBefore(KeyOf(x), KeyOf(y)) && RowBefore(KeyOf(y), KeyOf(z))
    requires x.group == z.group && y.group.scope == x.group.scope && x.version == z.version - 1
    ensures y.group == x.group && (y.version == x.version || y.version == z.version)
  {
    BeforeIsStrict(x.group.session, y.group.session);
    BeforeIsStrict(x.group.name, y.group.name);
    BeforeIsStrict(y.group.session, y.group.session);
    BeforeIsStrict(y.group.name, y.group.name);
  }

  // ----- Readers on valid tables -----

  function LineageAt(r: Row, n: nat): Lineage {
    Lineage(Some((r.group.session, r.group.name)), r.version, n)
  }

  lemma LineageOpens(l: Lineage, r: Row)
    requires TextOk(r.group.session, MAX_IDENTIFIER_LENGTH) && TextOk(r.group.name, MAX_IDENTIFIER_LENGTH)
    requires r.version == 1 && r.parent == Parent(1)
    requires l.group.Some? ==> PairBefore(l.group.value, (r.group.session, r.group.name))
    ensures LineageOne(l, r) == Some(LineageAt(r, l.checked + 1))
  {
    hide TextOk;
    BeforeIsStrict(r.group.session, r.group.session);
    BeforeIsStrict(r.group.name, r.group.name);
  }

  lemma LineageContinues(x: Row, r: Row, n: nat)
    requires TextOk(r.group.session, MAX_IDENTIFIER_LENGTH) && TextOk(r.group.name, MAX_IDENTIFIER_LENGTH)
    requires x.group == r.group && x.version == r.version - 1 && 1 < r.version <= MAX_SQLITE_INTEGER
    requires r.parent == Parent(r.version)
    ensures LineageOne(LineageAt(x, n), r) == Some(LineageAt(r, n + 1))
  {
    hide TextOk;
  }

  /** The lineage check accepts any prefix of any closed set of rows. */
  lemma {:induction false} LineageAccepts(t: Tables, s: Scope, ids: set<string>, n: nat)
    requires TablesOk(t) && Closed(t, s, ids) && n <= |InOrder(t, ids)|
    ensures var rows := InOrder(t, ids);
      LineageOf(rows[..n]) == Some(if n == 0 then NO_LINEAGE else LineageAt(rows[n - 1], n))
  {
    hide TablesOk, Closed, InOrder, TextOk, RowBefore, LineageOne, Parent;
    ClosedIsStored(t, s, ids);
    if n > 0 {
      var rows := InOrder(t, ids);
      LineageAccepts(t, s, ids, n - 1);
      assert rows[..n][..n - 1] == rows[..n - 1];
      LineageTurn(t, s, ids, n - 1);
    }
  }

  lemma LineageTurn(t: Tables, s: Scope, ids: set<string>, i: nat)
    requires TablesOk(t) && Closed(t, s, ids) && i < |InOrder(t, ids)|
    ensures var rows := InOrder(t, ids);
      LineageOne(if i == 0 then NO_LINEAGE else LineageAt(rows[i - 1], i), rows[i]) == Some(LineageAt(rows[i], i + 1))
  {
    hide TablesOk, Closed, InOrder, TextOk, RowBefore, LineageOne, Parent, PairBefore;
    ClosedIsStored(t, s, ids);
    var rows := InOrder(t, ids);
    RowFollowsParent(t, s, ids, i);
    InOrderIsIncreasing(t, ids);
    RowFacts(t, rows[i].artifactId);
    if rows[i].version > 1 {
      LineageContinues(rows[i - 1], rows[i], i);
    } else {
      if i > 0 {
        RowFollowsParent(t, s, ids, i - 1);
        KeysOrderPairs(rows[i - 1], rows[i]);
      }
      LineageOpens(if i == 0 then NO_LINEAGE else LineageAt(rows[i - 1], i), rows[i]);
    }
  }

  lemma ClosedIsStored(t: Tables, s: Scope, ids: set<string>)
    requires Closed(t, s, ids)
    ensures ids <= t.rows.Keys
  {
  }

  lemma KeysOrderPairs(x: Row, y: Row)
    requires RowBefore(KeyOf(x), KeyOf(y)) && x.group.scope == y.group.scope
    ensures x.group == y.group || PairBefore((x.group.session, x.group.name), (y.group.session, y.group.name))
  {
  }

  /** A group's rows in storage order are its versions 1, 2, ..., head, each once. */
  lemma {:induction false} GroupIsOneToHead(t: Tables, g: Group, i: nat)
    requires TablesOk(t) && i < |InOrder(t, GroupIds(t, g))|
    ensures InOrder(t, GroupIds(t, g))[i].version == i + 1 && InOrder(t, GroupIds(t, g))[i].group == g
  {
    hide TablesOk, InOrder, RowBefore, Closed;
    GroupIsClosed(t, g);
    InOrderIsIncreasing(t, GroupIds(t, g));
    RowFollowsParent(t, g.scope, GroupIds(t, g), i);
    if i > 0 {
      GroupIsOneToHead(t, g, i - 1);
    }
  }

  lemma GroupLengthIsHead(t: Tables, g: Group)
    requires TablesOk(t)
    ensures |InOrder(t, GroupIds(t, g))| == HeadVersion(t, g)
  {
    hide TablesOk, InOrder, RowBefore;
    var rows := InOrder(t, GroupIds(t, g));
    InOrderIsIncreasing(t, GroupIds(t, g));
    if rows != [] {
      var last := rows[|rows| - 1];
      GroupIsOneToHead(t, g, |rows| - 1);
      assert last.version in VersionsOf(t, g);
      forall v | v in VersionsOf(t, g) ensures v <= |rows| {
        var k :| k in t.rows && t.rows[k].group == g && t.rows[k].version == v;
        assert k in GroupIds(t, g);
        var i :| 0 <= i < |rows| && rows[i] == t.rows[k];
        GroupIsOneToHead(t, g, i);
      }
    } else {
      assert VersionsOf(t, g) == {} by {
        forall k | k in t.rows ensures t.rows[k].group != g {
          assert k !in GroupIds(t, g);
        }
      }
    }
  }

  /** Every stored row passes the size check and decodes to its own content. */
  lemma RowDecodes(t: Tables, k: string)
    requires TablesOk(t) && k in t.rows
    ensures Preflight(t, t.rows[k]) == Ok(t.rows[k].size)
    ensures Decode(t, t.rows[k]) == Ok(Stored(t.rows[k], t.rows[k].blob.content))
    ensures t.rows[k].size == |t.rows[k].blob.content|
  {
    hide Contiguous, KeysUnique, TextOk, GroupOk;
    RowHasBlob(t, k);
  }

  predicate AllWithin(rows: seq<Row>, maximum: int) {
    forall i | 0 <= i < |rows| :: rows[i].size <= maximum
  }

  lemma {:induction false} VerifyRowsOnValid(t: Tables, rows: seq<Row>, lim: Limits)
    requires TablesOk(t) && forall i | 0 <= i < |rows| :: rows[i].artifactId in t.rows && t.rows[rows[i].artifactId] == rows[i]
    ensures VerifyRows(t, rows, lim) == if AllWithin(rows, lim.content) then Ok(|rows|) else Raised(TooLarge)
  {
    hide TablesOk, Decode, Preflight;
    if rows != [] {
      VerifyRowsOnValid(t, rows[..|rows| - 1], lim);
      RowDecodes(t, rows[|rows| - 1].artifactId);
      assert rows == rows[..|rows| - 1] + [rows[|rows| - 1]];
    }
  }

  /** `verify_scope` counts exactly the scope's rows and never finds an integrity fault; only content larger than the
      reader's own limit stops it. */
  lemma ScopeVerifies(t: Tables, s: Scope, lim: Limits)
    requires TablesOk(t)
    ensures VerifyScope(t, s, lim) ==
      if forall k | k in t.rows && t.rows[k].group.scope == s :: t.rows[k].size <= lim.content
      then Ok(|ScopeIds(t, s)|) else Raised(TooLarge)
  {
    hide TablesOk, InOrder, RowBefore, Closed;
    var ids := ScopeIds(t, s);
    var rows := InOrder(t, ids);
    ScopeIsClosed(t, s);
    InOrderIsIncreasing(t, ids);
    LineageAccepts(t, s, ids, |rows|);
    assert rows[..|rows|] == rows;
    VerifyRowsOnValid(t, rows, lim);
    if AllWithin(rows, lim.content) {
      forall k | k in t.rows && t.rows[k].group.scope == s ensures t.rows[k].size <= lim.content {
        var i :| 0 <= i < |rows| && rows[i] == t.rows[k];
      }
    } else {
      var i :| 0 <= i < |rows| && rows[i].size > lim.content;
      assert rows[i].artifactId in ids;
    }
  }

  /** `head` returns the group's newest version, none exactly when the group is empty, and is refused exactly when that
      version is larger than the reader's content limit. */
  lemma HeadIsNewest(t: Tables, g: Group, lim: Limits)
    requires TablesOk(t)
    ensures var r := Head(t, g, lim);
      && (r == Ok(None) <==> HeadVersion(t, g) == 0)
      && (r.Ok? && r.value.Some? ==>
            && r.value.value.row.group == g && r.value.value.row.version == HeadVersion(t, g)
            && r.value.value.row.artifactId in t.rows && t.rows[r.value.value.row.artifactId] == r.value.value.row
            && r.value.value.content == r.value.value.row.blob.content)
      && (r.Raised? ==> r.fault.TooLarge?)
      && (r.Raised? <==> exists k :: HoldsVersion(t, k, g, HeadVersion(t, g)) && t.rows[k].size > lim.content)
  {
    hide TablesOk, InOrder, RowBefore, Decode, Preflight, HeadVersion;
    var rows := InOrder(t, GroupIds(t, g));
    InOrderIsIncreasing(t, GroupIds(t, g));
    GroupLengthIsHead(t, g);
    if rows != [] {
      GroupIsOneToHead(t, g, |rows| - 1);
      RowDecodes(t, rows[|rows| - 1].artifactId);
      assert HoldsVersion(t, rows[|rows| - 1].artifactId, g, |rows|);
      forall k | HoldsVersion(t, k, g, |rows|) ensures k == rows[|rows| - 1].artifactId {
        NoVersionTwice(t, k, rows[|rows| - 1].artifactId);
      }
      if |rows| > 1 {
        GroupIsOneToHead(t, g, |rows| - 2);
      }
    } else {
      forall k | k in t.rows ensures t.rows[k].group != g {
        assert k !in GroupIds(t, g);
      }
    }
  }

  /** What a write returned can be read back unchanged after any further writes by anyone, by every reader whose content
      limit covers it. */
  lemma WrittenStaysReadable(t: Tables, w: Write, expectedHead: Option<int>, now: int, lim: Limits, later: seq<Attempt>,
                             reader: Limits)
    requires TablesOk(t) && WriteOk(w) && |w.content| <= reader.content
    ensures var r := WriteStep(t, w, expectedHead, now, lim);
      r.Ok? ==>
        && r.value.1.content == w.content && r.value.1.row.group.scope == w.group.scope
        && Get(RunWrites(r.value.0, later), w.group.scope, r.value.1.row.artifactId, reader) == Ok(Some(r.value.1))
  {
    hide TablesOk, WriteStep, Decode, Preflight, WriteOk, HeadVersion, TextOk, GroupOk, RowOk;
    WriteKeepsTables(t, w, expectedHead, now, lim);
    var r := WriteStep(t, w, expectedHead, now, lim);
    if r.Ok? {
      var s := r.value.1;
      RunKeepsTables(r.value.0, later);
      RowHasBlob(r.value.0, s.row.artifactId);
      RowMatchesItsFingerprint(r.value.0, s.row.artifactId);
      RowDecodes(RunWrites(r.value.0, later), s.row.artifactId);
    }
  }

  lemma RowMatchesItsFingerprint(t: Tables, k: string)
    requires TablesOk(t) && k in t.rows
    ensures t.rows[k].fingerprint.tenant == t.rows[k].group.scope.tenant
    ensures t.rows[k].fingerprint.workspace == t.rows[k].group.scope.workspace
    ensures t.rows[k].fingerprint.blob == t.rows[k].blob
  {
    hide TextOk, GroupOk, Contiguous, KeysUnique;
  }

  // ----- History pages -----

  function Contents(rows: seq<Row>): seq<Stored> {
    seq(|rows|, i requires 0 <= i < |rows| => Stored(rows[i], rows[i].blob.content))
  }

  /** The whole history of a group, oldest first, with its contents. */
  function FullHistory(t: Tables, g: Group): seq<Stored> {
    Contents(InOrder(t, GroupIds(t, g)))
  }

  function Bytes(items: seq<Stored>): int {
    if items == [] then 0 else Bytes(items[..|items| - 1]) + |items[|items| - 1].content|
  }

  lemma {:induction false} NewerIsSuffix(rows: seq<Row>, first: int, after: int)
    requires forall i | 0 <= i < |rows| :: rows[i].version == first + i
    ensures Newer(rows, after) == if after < first then rows else if after - first + 1 <= |rows| then rows[after - first + 1..] else []
  {
    if rows != [] {
      forall i | 0 <= i < |rows[1..]| ensures rows[1..][i].version == first + 1 + i {
        assert rows[1..][i] == rows[i + 1];
      }
      NewerIsSuffix(rows[1..], first + 1, after);
    }
  }

  function Slice(items: seq<Stored>, after: nat, limit: nat): seq<Stored> {
    if after >= |items| then [] else if after + limit <= |items| then items[after..after + limit] else items[after..]
  }

  lemma {:induction false} PageOnValid(t: Tables, page: seq<Row>, after: int, lim: Limits)
    requires TablesOk(t)
    requires forall i | 0 <= i < |page| :: page[i].artifactId in t.rows && t.rows[page[i].artifactId] == page[i]
    requires forall i | 0 <= i < |page| :: page[i].version == after + i + 1
    ensures DecodeAll(t, page) == Ok(Contents(page)) && Bytes(Contents(page)) >= 0
    ensures PageBytes(t, page, after, lim) ==
      if page == [] || Bytes(Contents(page)) <= lim.history then Ok(Bytes(Contents(page))) else Raised(TooLarge)
  {
    hide TablesOk, Decode, Preflight;
    if page != [] {
      var front, last := page[..|page| - 1], page[|page| - 1];
      PageOnValid(t, front, after, lim);
      RowDecodes(t, last.artifactId);
      assert Contents(page)[..|page| - 1] == Contents(front);
      assert Contents(page) == Contents(front) + [Stored(last, last.blob.content)];
    }
  }

  /** A history page is exactly the slice of the full history behind its cursor; only the byte limit can refuse it. */
  lemma PageIsSlice(t: Tables, g: Group, after: nat, limit: nat, lim: Limits)
    requires TablesOk(t) && limit >= 1 && lim.history >= 0
    ensures var slice := Slice(FullHistory(t, g), after, limit);
      HistoryPage(t, g, after, limit, lim) == if Bytes(slice) <= lim.history then Ok(slice) else Raised(TooLarge)
  {
    hide TablesOk, InOrder, RowBefore, Closed, DecodeAll, PageBytes, LineageOf, Bytes;
    var rows := InOrder(t, GroupIds(t, g));
    GroupIsClosed(t, g);
    LineageAccepts(t, g.scope, GroupIds(t, g), |rows|);
    assert rows[..|rows|] == rows;
    GroupPage(t, g, after, limit);
    var newer := Newer(rows, after);
    var page := if |newer| <= limit then newer else newer[..limit];
    PageOnValid(t, page, after, lim);
    if rows != [] {
      GroupIsOneToHead(t, g, |rows| - 1);
    }
    assert page == [] ==> Bytes(Contents(page)) == 0 by { NoBytes(); }
  }

  lemma NoBytes()
    ensures Bytes(Contents([])) == 0
  {
  }

  /** The rows of one page: consecutive versions from behind the cursor. */
  lemma GroupPage(t: Tables, g: Group, after: nat, limit: nat)
    requires TablesOk(t) && limit >= 1
    ensures var rows := InOrder(t, GroupIds(t, g)); var newer := Newer(rows, after);
            var page := if |newer| <= limit then newer else newer[..limit];
      && Contents(page) == Slice(FullHistory(t, g), after, limit)
      && (page == [] <==> after >= |rows|)
      && (forall i | 0 <= i < |page| :: page[i].artifactId in t.rows && t.rows[page[i].artifactId] == page[i])
      && (forall i | 0 <= i < |page| :: page[i].version == after + i + 1)
  {
    hide TablesOk, InOrder, RowBefore, Newer, Slice, Contents;
    var rows := InOrder(t, GroupIds(t, g));
    InOrderIsIncreasing(t, GroupIds(t, g));
    forall i | 0 <= i < |rows| ensures rows[i].version == 1 + i {
      GroupIsOneToHead(t, g, i);
    }
    NewerIsSuffix(rows, 1, after);
    assert Newer(rows, after) == if after <= |rows| then rows[after..] else [];
    PageContents(rows, after, limit);
  }

  lemma PageContents(rows: seq<Row>, after: nat, limit: nat)
    ensures var newer := if after <= |rows| then rows[after..] else []; var page := if |newer| <= limit then newer else newer[..limit];
      Contents(page) == Slice(Contents(rows), after, limit)
  {
  }

  /** Reading on: each page starts behind the last version of the page before. */
  function ReadOn(t: Tables, g: Group, after: nat, limits: seq<nat>, lim: Limits): Outcome<seq<Stored>>
    decreases |limits|
  {
    if limits == [] then Ok([]) else
    var page := HistoryPage(t, g, after, limits[0], lim);
    if page.Raised? then page else
    var rest := ReadOn(t, g, after + |page.value|, limits[1..], lim);
    if rest.Raised? then rest else Ok(page.value + rest.value)
  }

  function Sum(limits: seq<nat>): nat {
    if limits == [] then 0 else limits[0] + Sum(limits[1..])
  }

  lemma SlicesJoin(items: seq<Stored>, after: nat, m: nat, n: nat)
    requires after <= |items|
    ensures var first := Slice(items, after, m);
      && after + |first| <= |items|
      && first + Slice(items, after + |first|, n) == Slice(items, after, m + n)
  {
  }

  /** The page that starts behind the first so many versions from the cursor fits the byte budget. */
  predicate PageFits(items: seq<Stored>, after: nat, limits: seq<nat>, i: nat, budget: int)
    requires i < |limits|
  {
    Bytes(Slice(items, after + Sum(limits[..i]), limits[i])) <= budget
  }

  ghost predicate AllPagesFit(items: seq<Stored>, after: nat, limits: seq<nat>, budget: int) {
    forall i | 0 <= i < |limits| :: PageFits(items, after, limits, i, budget)
  }

  /** The pages behind the first one, counted from where the first one really ended. */
  lemma LaterPagesFit(items: seq<Stored>, after: nat, limits: seq<nat>, budget: int)
    requires after <= |items| && limits != []
    ensures var page := Slice(items, after, limits[0]);
      AllPagesFit(items, after, limits, budget) <==>
        Bytes(page) <= budget && AllPagesFit(items, after + |page|, limits[1..], budget)
  {
    hide Bytes;
    var page, rest := Slice(items, after, limits[0]), limits[1..];
    var next := after + |page|;
    assert limits[..0] == [];
    assert PageFits(items, after, limits, 0, budget) <==> Bytes(page) <= budget;
    forall i | 1 <= i < |limits|
      ensures PageFits(items, after, limits, i, budget) <==> PageFits(items, next, rest, i - 1, budget)
    {
      assert limits[..i][1..] == rest[..i - 1] && limits[..i][0] == limits[0];
      assert Sum(limits[..i]) == limits[0] + Sum(rest[..i - 1]);
    }
    if AllPagesFit(items, after, limits, budget) {
      forall i | 0 <= i < |rest| ensures PageFits(items, next, rest, i, budget) {
        assert PageFits(items, after, limits, i + 1, budget);
      }
    }
  }

  /** Concatenated pages of any sizes are the full history, each version exactly once and in order, until the pages have
      covered it; reading on stops exactly when some page exceeds the byte budget. */
  lemma {:induction false} PagesCoverHistory(t: Tables, g: Group, after: nat, limits: seq<nat>, lim: Limits)
    requires TablesOk(t) && lim.history >= 0 && after <= |FullHistory(t, g)|
    requires forall i | 0 <= i < |limits| :: limits[i] >= 1
    ensures ReadOn(t, g, after, limits, lim) ==
      if AllPagesFit(FullHistory(t, g), after, limits, lim.history) then Ok(Slice(FullHistory(t, g), after, Sum(limits)))
      else Raised(TooLarge)
    decreases |limits|
  {
    hide TablesOk, HistoryPage, FullHistory, Slice, Bytes, PageFits;
    if limits == [] {
      assert Slice(FullHistory(t, g), after, 0) == [] by { EmptySlice(FullHistory(t, g), after); }
    } else {
      PageIsSlice(t, g, after, limits[0], lim);
      var full := FullHistory(t, g);
      var page := Slice(full, after, limits[0]);
      forall i | 0 <= i < |limits[1..]| ensures limits[1..][i] >= 1 {
        assert limits[1..][i] == limits[i + 1];
      }
      LaterPagesFit(full, after, limits, lim.history);
      SlicesJoin(full, after, limits[0], Sum(limits[1..]));
      if Bytes(page) <= lim.history {
        PagesCoverHistory(t, g, after + |page|, limits[1..], lim);
      }
    }
  }

  lemma EmptySlice(items: seq<Stored>, after: nat)
    ensures Slice(items, after, 0) == []
  {
  }

  /** One-version pages always succeed for a reader whose page budget covers its content limit. */
  lemma SinglePagesSucceed(t: Tables, g: Group, after: nat, lim: Limits)
    requires TablesOk(t) && lim.content <= lim.history && lim.history >= 0
    requires forall k | k in t.rows && t.rows[k].group == g :: t.rows[k].size <= lim.content
    ensures HistoryPage(t, g, after, 1, lim) == Ok(Slice(FullHistory(t, g), after, 1))
  {
    hide TablesOk, HistoryPage, InOrder;
    PageIsSlice(t, g, after, 1, lim);
    InOrderIsIncreasing(t, GroupIds(t, g));
    var full := FullHistory(t, g);
    var slice := Slice(full, after, 1);
    if slice != [] {
      assert slice == [full[after]];
      assert slice[..0] == [];
      RowDecodes(t, full[after].row.artifactId);
    }
  }
}
