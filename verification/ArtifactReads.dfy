/** What each reader answers, row by row, and what a verified scope proves about any tables at all. */
module ArtifactReads {
  import opened Common
  import opened ArtifactTables
  import opened ArtifactReaders
  import opened ArtifactTheorems
  import Orders
  import Text = InvocationText

  // ----- Reachable tables -----

  /** Lookup in reachable tables: nothing outside the scope, too large exactly over the limit, and otherwise the row with its content. */
  lemma GetsEndExactly(attempts: seq<Attempt>, s: Scope, id: string, lim: Limits)
    ensures var t := Reached(attempts);
      Get(t, s, id, lim) ==
      if id !in t.rows || t.rows[id].group.scope != s then Ok(None)
      else if t.rows[id].size > lim.content then Raised(TooLarge)
      else Ok(Some(Stored(t.rows[id], t.rows[id].blob.content)))
  {
    hide TablesOk, RunWrites, Decode, Preflight;
    ReachedIsOk(attempts);
    if id in Reached(attempts).rows {
      RowDecodes(Reached(attempts), id);
    }
  }

  /** The row is the group's version behind so many others. */
  predicate IsNth(t: Tables, g: Group, r: Row, i: nat) {
    r.artifactId in t.rows && t.rows[r.artifactId] == r && r.group == g && r.version == i + 1
  }

  predicate StandsAmong(rows: seq<Row>, r: Row) {
    1 <= r.version <= |rows| && rows[r.version - 1] == r
  }

  lemma GroupInOrder(t: Tables, g: Group)
    requires TablesOk(t)
    ensures var rows := InOrder(t, GroupIds(t, g));
      && (forall i | 0 <= i < |rows| :: IsNth(t, g, rows[i], i))
      && (forall k | k in GroupIds(t, g) :: StandsAmong(rows, t.rows[k]))
  {
    hide TablesOk, InOrder, RowBefore;
    var rows := InOrder(t, GroupIds(t, g));
    InOrderIsIncreasing(t, GroupIds(t, g));
    forall i | 0 <= i < |rows| ensures IsNth(t, g, rows[i], i) {
      GroupIsOneToHead(t, g, i);
    }
    forall k | k in GroupIds(t, g) ensures StandsAmong(rows, t.rows[k]) {
      var i :| 0 <= i < |rows| && rows[i] == t.rows[k];
      assert IsNth(t, g, rows[i], i);
    }
  }

  predicate StandsIn(full: seq<Stored>, r: Row) {
    1 <= r.version <= |full| && full[r.version - 1] == Stored(r, r.blob.content)
  }

  /** The rows 1, 2, ... of a group with their contents, and no others. */
  ghost predicate ListsGroup(t: Tables, g: Group, full: seq<Stored>) {
    && (forall i | 0 <= i < |full| :: IsNth(t, g, full[i].row, i) && full[i].content == full[i].row.blob.content)
    && (forall k | k in t.rows && t.rows[k].group == g :: StandsIn(full, t.rows[k]))
  }

  /** A group's history in reachable tables lists exactly the group. */
  lemma HistoriesListTheGroup(attempts: seq<Attempt>, g: Group)
    ensures ListsGroup(Reached(attempts), g, FullHistory(Reached(attempts), g))
  {
    hide TablesOk, RunWrites, InOrder, IsNth;
    ReachedIsOk(attempts);
    var t := Reached(attempts);
    GroupInOrder(t, g);
    forall k | k in t.rows && t.rows[k].group == g ensures StandsIn(FullHistory(t, g), t.rows[k]) {
      assert k in GroupIds(t, g);
    }
  }

  // ----- Lineage of any rows -----

  predicate InBounds(r: Row) {
    TextOk(r.group.session, 512) && TextOk(r.group.name, 512) && 1 <= r.version <= 0x7FFF_FFFF_FFFF_FFFF
  }

  predicate SameHistory(x: Row, y: Row) {
    x.group.session == y.group.session && x.group.name == y.group.name
  }

  /** The row opens a history at version 1 behind all histories before it, or continues the row before it. */
  ghost predicate Follows(rows: seq<Row>, i: nat)
    requires i < |rows|
  {
    var r := rows[i];
    && InBounds(r)
    && if i > 0 && SameHistory(rows[i - 1], r) then
         r.version == rows[i - 1].version + 1 && r.parent == Some(rows[i - 1].version)
       else
         && r.version == 1 && r.parent == None
         && (i > 0 ==> Before(rows[i - 1].group.session, r.group.session)
                       || (rows[i - 1].group.session == r.group.session && Before(rows[i - 1].group.name, r.group.name)))
  }

  /** The lineage loop accepts any rows exactly when each follows the one before, and counts them. */
  lemma {:induction false} LineageByNeighbours(rows: seq<Row>)
    ensures LineageOf(rows).Some? <==> forall i | 0 <= i < |rows| :: Follows(rows, i)
    ensures LineageOf(rows).Some? ==>
      LineageOf(rows).value ==
        if rows == [] then NO_LINEAGE
        else Lineage(Some((rows[|rows| - 1].group.session, rows[|rows| - 1].group.name)), rows[|rows| - 1].version, |rows|)
    decreases |rows|
  {
    hide TextOk;
    if rows != [] {
      var front, last := rows[..|rows| - 1], |rows| - 1;
      LineageByNeighbours(front);
      forall i | 0 <= i < |front| ensures Follows(front, i) <==> Follows(rows, i) {
      }
      if LineageOf(front).Some? {
        NextFollows(rows, LineageOf(front).value);
      }
    }
  }

  lemma NextFollows(rows: seq<Row>, l: Lineage)
    requires rows != [] && l ==
      if |rows| == 1 then NO_LINEAGE
      else Lineage(Some((rows[|rows| - 2].group.session, rows[|rows| - 2].group.name)), rows[|rows| - 2].version, |rows| - 1)
    requires |rows| > 1 ==> rows[|rows| - 2].version >= 1
    ensures var r := rows[|rows| - 1];
      LineageOne(l, r) == if Follows(rows, |rows| - 1) then Some(Lineage(Some((r.group.session, r.group.name)), r.version, |rows|)) else None
  {
    hide TextOk;
  }

  // ----- What a verified scope proves -----

  /** The row passes every check, with its content in place. */
  predicate IsWhole(t: Tables, r: Row, lim: Limits) {
    && r.blob in t.blobs && var b := t.blobs[r.blob];
    && r.blob == BlobDigest(b.content) && r.size == b.size == |b.content| && r.size <= lim.content && r.size <= 0x7FFF_FFFF_FFFF_FFFF
    && 1 <= r.version <= 0x7FFF_FFFF_FFFF_FFFF && r.parent == (if r.version == 1 then None else Some(r.version - 1))
    && r.fingerprint == Fingerprint(r.group.scope.tenant, r.group.scope.workspace, r.group.session, r.task, r.group.name, r.mediaType,
                                    r.blob, r.size, r.metadata, r.createdBy)
    && TextOk(r.artifactId, 512) && TextOk(r.group.scope.tenant, 512) && TextOk(r.group.scope.workspace, 512)
    && TextOk(r.group.session, 512) && TextOk(r.group.name, 512) && TextOk(r.task, 512) && TextOk(r.createdBy, 512)
    && TextOk(r.key, 512) && TextOk(r.mediaType, 255)
  }

  lemma WholeRows(t: Tables, r: Row, lim: Limits)
    ensures IsWhole(t, r, lim) <==> Preflight(t, r).Ok? && Preflight(t, r).value <= lim.content && Decode(t, r).Ok?
  {
    hide TextOk;
  }

  lemma {:induction false} VerifiedRowsAreWhole(t: Tables, rows: seq<Row>, lim: Limits)
    ensures VerifyRows(t, rows, lim).Ok? <==> forall i | 0 <= i < |rows| :: IsWhole(t, rows[i], lim)
    ensures VerifyRows(t, rows, lim).Ok? ==> VerifyRows(t, rows, lim).value == |rows|
    decreases |rows|
  {
    hide Preflight, Decode, IsWhole;
    if rows != [] {
      var front := rows[..|rows| - 1];
      VerifiedRowsAreWhole(t, front, lim);
      assert forall i | 0 <= i < |front| :: front[i] == rows[i];
      WholeRows(t, rows[|rows| - 1], lim);
    }
  }

  /** Storage order lists every row of the set, each once, whatever the tables hold. */
  lemma InOrderListsAll(t: Tables, ids: set<string>)
    requires ids <= t.rows.Keys
    ensures |InOrder(t, ids)| == |ids|
    ensures forall k | k in ids :: t.rows[k] in InOrder(t, ids)
    ensures forall i | 0 <= i < |InOrder(t, ids)| :: exists k :: k in ids && InOrder(t, ids)[i] == t.rows[k]
  {
    hide RowBefore;
    KeyCount(t, ids);
    var keys := SortedKeys(t, ids);
    forall k | k in ids ensures t.rows[k] in InOrder(t, ids) {
      var key := RowKey(t.rows[k].group.session, t.rows[k].group.name, t.rows[k].version, k);
      assert key in KeysOf(t, ids);
      var i :| 0 <= i < |keys| && keys[i] == key;
      assert InOrder(t, ids)[i] == t.rows[k];
    }
  }

  ghost predicate ScopeIsWhole(t: Tables, s: Scope, lim: Limits) {
    forall k | k in t.rows && t.rows[k].group.scope == s :: IsWhole(t, t.rows[k], lim)
  }

  lemma RowsAreTheScope(t: Tables, s: Scope, lim: Limits)
    ensures var rows := InOrder(t, ScopeIds(t, s));
      ScopeIsWhole(t, s, lim) <==> forall i | 0 <= i < |rows| :: IsWhole(t, rows[i], lim)
  {
    hide IsWhole, InOrder;
    var rows := InOrder(t, ScopeIds(t, s));
    InOrderListsAll(t, ScopeIds(t, s));
    if forall i | 0 <= i < |rows| :: IsWhole(t, rows[i], lim) {
      forall k | k in t.rows && t.rows[k].group.scope == s ensures IsWhole(t, t.rows[k], lim) {
        assert k in ScopeIds(t, s);
        var i :| 0 <= i < |rows| && rows[i] == t.rows[k];
      }
    }
    if ScopeIsWhole(t, s, lim) {
      forall i | 0 <= i < |rows| ensures IsWhole(t, rows[i], lim) {
        var k :| k in ScopeIds(t, s) && rows[i] == t.rows[k];
      }
    }
  }

  /** Whatever the tables hold: verification of a scope succeeds exactly when every row of the scope is whole, content and all, and
      in storage order each follows the one before; and then it returns the number of rows. */
  lemma VerifiedScopesAreSound(t: Tables, s: Scope, lim: Limits)
    ensures var r := VerifyScope(t, s, lim); var rows := InOrder(t, ScopeIds(t, s));
      && (r.Ok? <==> ScopeIsWhole(t, s, lim) && forall i | 0 <= i < |rows| :: Follows(rows, i))
      && (r.Ok? ==> r.value == |ScopeIds(t, s)|)
  {
    hide IsWhole, Follows, VerifyRows, LineageOf, InOrder, ScopeIds, ScopeIsWhole;
    ScopeIsClosed(t, s);
    var rows := InOrder(t, ScopeIds(t, s));
    InOrderListsAll(t, ScopeIds(t, s));
    LineageByNeighbours(rows);
    VerifiedRowsAreWhole(t, rows, lim);
    RowsAreTheScope(t, s, lim);
    NoLineageNoRows(rows);
  }

  lemma NoLineageNoRows(rows: seq<Row>)
    ensures rows == [] ==> NO_LINEAGE.checked == |rows|
  {
  }

  /** In a verified scope every version above 1 has its predecessor in the same history. */
  lemma VerifiedVersionsHaveParents(t: Tables, s: Scope, lim: Limits, k: string)
    requires VerifyScope(t, s, lim).Ok? && k in t.rows && t.rows[k].group.scope == s && t.rows[k].version > 1
    ensures exists m :: m in t.rows && t.rows[m].group == t.rows[k].group && t.rows[m].version == t.rows[k].version - 1
  {
    hide IsWhole, RowBefore, VerifyScope, InOrder, TextOk;
    var rows := InOrder(t, ScopeIds(t, s));
    VerifiedScopesAreSound(t, s, lim);
    InOrderListsAll(t, ScopeIds(t, s));
    assert t.rows[k] in rows by { assert k in ScopeIds(t, s); }
    var i :| 0 <= i < |rows| && rows[i] == t.rows[k];
    assert Follows(rows, i);
    var previous := i - 1;
    var m :| m in ScopeIds(t, s) && rows[previous] == t.rows[m];
  }

  // ----- Readers on any tables -----

  /** An identifier is a text of bounded length with something besides blanks, and without NUL, CR or LF. */
  lemma TextsInWords(s: string, maximum: nat)
    ensures TextOk(s, maximum) <==>
      && |s| <= maximum && (exists i :: 0 <= i < |s| && !Text.IsSpace(s[i]))
      && forall i | 0 <= i < |s| :: s[i] != '\U{0}' && s[i] != '\U{0D}' && s[i] != '\U{0A}'
  {
    hide Text.IsSpace;
    if exists i :: 0 <= i < |s| && !Text.IsSpace(s[i]) {
      var i :| 0 <= i < |s| && !Text.IsSpace(s[i]);
      assert s[i] in s;
    }
  }

  /** The sizes noted in row and blob are those of the content. */
  predicate SizesAgree(t: Tables, r: Row) {
    r.blob in t.blobs && r.version >= 1 && r.size == t.blobs[r.blob].size == |t.blobs[r.blob].content|
  }

  /** Lookup in any tables: sizes first, then the reader's limit, then everything else about the row. */
  lemma GetsOnAnyTables(t: Tables, s: Scope, id: string, lim: Limits)
    ensures Get(t, s, id, lim) ==
      if id !in t.rows || t.rows[id].group.scope != s then Ok(None)
      else if !SizesAgree(t, t.rows[id]) then Raised(Integrity)
      else if |t.blobs[t.rows[id].blob].content| > lim.content then Raised(TooLarge)
      else if !IsWhole(t, t.rows[id], lim) then Raised(Integrity)
      else Ok(Some(Stored(t.rows[id], t.blobs[t.rows[id].blob].content)))
  {
    hide TextOk;
  }

  lemma OrderedByVersion(t: Tables, g: Group, i: nat, j: nat)
    requires i < j < |InOrder(t, GroupIds(t, g))|
    ensures var rows := InOrder(t, GroupIds(t, g));
      rows[i].group == rows[j].group == g && rows[i].version <= rows[j].version
  {
    var keys := SortedKeys(t, GroupIds(t, g));
    RowOrder();
    Orders.ListedIsIncreasing(RowBefore, KeysOf(t, GroupIds(t, g)));
    assert keys[i] in KeysOf(t, GroupIds(t, g)) && keys[j] in KeysOf(t, GroupIds(t, g));
    assert RowBefore(keys[i], keys[j]);
    BeforeIsStrict(g.session, g.session);
    BeforeIsStrict(g.name, g.name);
  }

  lemma RunnerUp(t: Tables, g: Group)
    ensures var rows := InOrder(t, GroupIds(t, g));
      && (rows != [] ==> rows[|rows| - 1].group == g)
      && (|rows| > 1 ==> rows[|rows| - 2].version <= rows[|rows| - 1].version)
      && forall i | 0 <= i < |rows| - 1 :: rows[i].version <= rows[|rows| - 2].version
  {
    hide InOrder;
    var rows := InOrder(t, GroupIds(t, g));
    InOrderListsAll(t, GroupIds(t, g));
    if rows != [] {
      var k :| k in GroupIds(t, g) && rows[|rows| - 1] == t.rows[k];
    }
    if |rows| > 1 {
      OrderedByVersion(t, g, |rows| - 2, |rows| - 1);
      forall i | 0 <= i < |rows| - 1 ensures rows[i].version <= rows[|rows| - 2].version {
        if i < |rows| - 2 {
          OrderedByVersion(t, g, i, |rows| - 2);
        }
      }
    }
  }

  /** The head of a group in any tables: with an answer no other row has its version or a later one, and the row is whole. */
  lemma HeadsOnAnyTables(t: Tables, g: Group, lim: Limits)
    ensures var r := Head(t, g, lim); var rows := InOrder(t, GroupIds(t, g));
      && (r == Ok(None) <==> forall k | k in t.rows :: t.rows[k].group != g)
      && (r.Ok? && r.value.Some? ==>
            && rows != [] && r.value.value.row == rows[|rows| - 1] && r.value.value.row.group == g
            && IsWhole(t, r.value.value.row, lim) && r.value.value.content == t.blobs[r.value.value.row.blob].content
            && forall i | 0 <= i < |rows| - 1 :: rows[i].version < r.value.value.row.version)
      && (rows != [] && IsWhole(t, rows[|rows| - 1], lim) && (|rows| > 1 ==> 1 <= rows[|rows| - 2].version < rows[|rows| - 1].version) ==>
            r.Ok?)
      && (|rows| > 1 && SizesAgree(t, rows[|rows| - 1]) && !(1 <= rows[|rows| - 2].version < rows[|rows| - 1].version) ==>
            r == Raised(Integrity))
  {
    hide InOrder, GroupIds, IsWhole, Decode, Preflight, SizesAgree;
    GroupIsClosed(t, g);
    var rows := InOrder(t, GroupIds(t, g));
    NoRowsNoGroup(t, g);
    RunnerUp(t, g);
    if rows != [] {
      WholeRows(t, rows[|rows| - 1], lim);
      DecodedRow(t, rows[|rows| - 1]);
    }
  }

  lemma DecodedRow(t: Tables, r: Row)
    ensures Decode(t, r).Ok? ==> r.blob in t.blobs && Decode(t, r).value == Stored(r, t.blobs[r.blob].content)
    ensures SizesAgree(t, r) <==> Preflight(t, r).Ok?
  {
    hide RowOk;
  }

  lemma NoRowsNoGroup(t: Tables, g: Group)
    ensures InOrder(t, GroupIds(t, g)) == [] <==> forall k | k in t.rows :: t.rows[k].group != g
  {
    hide InOrder;
    InOrderListsAll(t, GroupIds(t, g));
    if k :| k in t.rows && t.rows[k].group == g {
      assert k in GroupIds(t, g);
    }
  }

  lemma {:induction false} FollowedRowsCountUp(t: Tables, g: Group, i: nat)
    requires var rows := InOrder(t, GroupIds(t, g)); i < |rows| && forall j | 0 <= j < |rows| :: Follows(rows, j)
    ensures InOrder(t, GroupIds(t, g))[i].version == i + 1
  {
    hide InOrder, InBounds;
    var rows := InOrder(t, GroupIds(t, g));
    assert Follows(rows, i);
    if i > 0 {
      FollowedRowsCountUp(t, g, i - 1);
      OrderedByVersion(t, g, i - 1, i);
    }
  }

  lemma {:induction false} DecodedPage(t: Tables, page: seq<Row>)
    ensures DecodeAll(t, page).Ok? ==>
      && |DecodeAll(t, page).value| == |page|
      && forall i | 0 <= i < |page| ::
           page[i].blob in t.blobs && RowOk(page[i], t.blobs[page[i].blob])
           && DecodeAll(t, page).value[i] == Stored(page[i], t.blobs[page[i].blob].content)
  {
    hide RowOk;
    if page != [] {
      DecodedPage(t, page[..|page| - 1]);
    }
  }

  /** The page of rows that count up from 1. */
  lemma PageOfRows(rows: seq<Row>, after: nat, limit: nat)
    requires limit >= 1 && forall i | 0 <= i < |rows| :: rows[i].version == 1 + i
    ensures var newer := Newer(rows, after); var page := if |newer| <= limit then newer else newer[..limit];
      && |page| == (if after >= |rows| then 0 else if after + limit <= |rows| then limit else |rows| - after)
      && forall i | 0 <= i < |page| :: after + i < |rows| && page[i] == rows[after + i]
  {
    hide Newer;
    NewerIsSuffix(rows, 1, after);
    assert Newer(rows, after) == if after <= |rows| then rows[after..] else [];
  }

  /** The item is the row with its content, and the row is valid. */
  predicate IsDecoded(t: Tables, item: Stored, r: Row) {
    item.row == r && r.blob in t.blobs && RowOk(r, t.blobs[r.blob]) && item.content == t.blobs[r.blob].content
  }

  lemma PageIsDecoded(t: Tables, g: Group, after: nat, limit: nat, lim: Limits)
    requires HistoryPage(t, g, after, limit, lim).Ok?
    ensures var newer := Newer(InOrder(t, GroupIds(t, g)), after); var page := if |newer| <= limit then newer else newer[..limit];
      var items := HistoryPage(t, g, after, limit, lim).value;
      && LineageOf(InOrder(t, GroupIds(t, g))).Some?
      && |items| == |page| && forall i | 0 <= i < |page| :: IsDecoded(t, items[i], page[i])
  {
    hide InOrder, RowOk, PageBytes, LineageOf, DecodeAll, Newer, GroupIds;
    GroupIsClosed(t, g);
    var newer := Newer(InOrder(t, GroupIds(t, g)), after);
    DecodedPage(t, if |newer| <= limit then newer else newer[..limit]);
  }

  /** A history page of any tables: with an answer the whole group's lineage holds, and the page is exactly its versions from behind
      the cursor on, up to the limit, each valid and with its content. */
  lemma PagesOnAnyTables(t: Tables, g: Group, after: nat, limit: nat, lim: Limits)
    requires limit >= 1
    ensures var r := HistoryPage(t, g, after, limit, lim); var rows := InOrder(t, GroupIds(t, g));
      r.Ok? ==>
        && (forall i | 0 <= i < |rows| :: Follows(rows, i) && rows[i].version == i + 1)
        && |r.value| == (if after >= |rows| then 0 else if after + limit <= |rows| then limit else |rows| - after)
        && forall i | 0 <= i < |r.value| :: after + i < |rows| && IsDecoded(t, r.value[i], rows[after + i])
  {
    hide InOrder, Follows, HistoryPage, LineageOf, Newer, GroupIds, IsDecoded;
    GroupIsClosed(t, g);
    var rows := InOrder(t, GroupIds(t, g));
    LineageByNeighbours(rows);
    if HistoryPage(t, g, after, limit, lim).Ok? {
      PageIsDecoded(t, g, after, limit, lim);
      forall i | 0 <= i < |rows| ensures rows[i].version == 1 + i {
        FollowedRowsCountUp(t, g, i);
      }
      PageOfRows(rows, after, limit);
    }
  }
}
