/** The main results about the artifact store, stated for every run of writes into empty tables. */
module ArtifactTheorems {
  import opened Common
  import opened ArtifactTables
  import opened ArtifactReaders
  import Text = InvocationText

  function Reached(attempts: seq<Attempt>): Tables {
    RunWrites(EMPTY_TABLES, attempts)
  }

  lemma ReachedIsOk(attempts: seq<Attempt>)
    ensures TablesOk(Reached(attempts))
  {
    hide TablesOk;
    EmptyTablesAreOk();
    RunKeepsTables(EMPTY_TABLES, attempts);
  }

  /** Every run leaves each group with the versions 1, 2, ..., head, each once; artifact ids and idempotency keys name one row
      per scope; and every blob holds the content its digest stands for. */
  lemma VersionsAreContiguous(attempts: seq<Attempt>, g: Group)
    ensures var t := Reached(attempts);
      && (forall v :: HasVersion(t, g, v) <==> 1 <= v <= HeadVersion(t, g))
      && (forall k, m, v | HoldsVersion(t, k, g, v) && HoldsVersion(t, m, g, v) :: k == m)
      && (forall k | k in t.rows :: t.rows[k].parent == Parent(t.rows[k].version))
      && KeysUnique(t) && BlobsOk(t)
  {
    hide TablesOk, HeadVersion, InOrder, RunWrites, Parent;
    var t := Reached(attempts);
    ReachedIsOk(attempts);
    GroupLengthIsHead(t, g);
    InOrderIsIncreasing(t, GroupIds(t, g));
    var rows := InOrder(t, GroupIds(t, g));
    forall v ensures HasVersion(t, g, v) <==> 1 <= v <= HeadVersion(t, g) {
      if 1 <= v <= |rows| {
        GroupIsOneToHead(t, g, v - 1);
        assert HoldsVersion(t, rows[v - 1].artifactId, g, v);
      }
      if HasVersion(t, g, v) {
        var k :| HoldsVersion(t, k, g, v);
        assert k in GroupIds(t, g);
        var i :| 0 <= i < |rows| && rows[i] == t.rows[k];
        GroupIsOneToHead(t, g, i);
      }
    }
    PartsOfOk(t);
    forall k | k in t.rows ensures t.rows[k].parent == Parent(t.rows[k].version) {
      RowFacts(t, k);
    }
  }

  lemma PartsOfOk(t: Tables)
    requires TablesOk(t)
    ensures KeysUnique(t) && BlobsOk(t) && Contiguous(t)
  {
  }

  predicate WrittenWithin(attempts: seq<Attempt>, maximum: int) {
    forall i | 0 <= i < |attempts| :: attempts[i].limits.content <= maximum
  }

  predicate SizesWithin(t: Tables, maximum: int) {
    forall k | k in t.rows :: t.rows[k].size <= maximum
  }

  lemma {:induction false} SizesStayWithin(t: Tables, attempts: seq<Attempt>, maximum: int)
    requires TablesOk(t) && WrittenWithin(attempts, maximum) && SizesWithin(t, maximum)
    ensures SizesWithin(RunWrites(t, attempts), maximum)
    decreases |attempts|
  {
    hide TablesOk, WriteStep, WriteOk;
    if attempts != [] {
      var a := attempts[0];
      var next := AttemptOnce(t, a);
      if WriteOk(a.write) {
        WriteKeepsTables(t, a.write, a.expectedHead, a.now, a.limits);
        StepIsWithin(t, a.write, a.expectedHead, a.now, a.limits);
      }
      assert WrittenWithin(attempts[1..], maximum) by {
        assert forall i | 0 <= i < |attempts[1..]| :: attempts[1..][i] == attempts[i + 1];
      }
      assert SizesWithin(next, maximum);
      SizesStayWithin(next, attempts[1..], maximum);
    }
  }

  lemma StepIsWithin(t: Tables, w: Write, expectedHead: Option<int>, now: int, lim: Limits)
    ensures var r := WriteStep(t, w, expectedHead, now, lim);
      r.Ok? ==> forall k | k in r.value.0.rows :: (k in t.rows && r.value.0.rows[k] == t.rows[k]) || r.value.0.rows[k].size <= lim.content
  {
    hide Decode, HeadVersion, Colliding, Text.Utf8Length, FingerprintOf;
  }

  /** No reader ever meets an integrity fault: `verify_scope` counts exactly the scope's rows, and `head` and `history` answer,
      for any reader whose limits are at least the writers'. */
  lemma ReadersFindNoFault(attempts: seq<Attempt>, g: Group, lim: Limits)
    requires WrittenWithin(attempts, lim.content) && 0 <= lim.content <= lim.history
    ensures var t := Reached(attempts);
      && VerifyScope(t, g.scope, lim) == Ok(|ScopeIds(t, g.scope)|)
      && Head(t, g, lim).Ok? && (Head(t, g, lim).value.None? <==> HeadVersion(t, g) == 0)
      && (forall after: nat :: HistoryPage(t, g, after, 1, lim) == Ok(Slice(FullHistory(t, g), after, 1)))
  {
    hide TablesOk, HeadVersion, InOrder, RunWrites, VerifyScope, Head, HistoryPage, FullHistory, Slice;
    var t := Reached(attempts);
    ReachedIsOk(attempts);
    EmptyTablesAreOk();
    SizesStayWithin(EMPTY_TABLES, attempts, lim.content);
    ScopeVerifies(t, g.scope, lim);
    HeadIsNewest(t, g, lim);
    forall after: nat ensures HistoryPage(t, g, after, 1, lim) == Ok(Slice(FullHistory(t, g), after, 1)) {
      SinglePagesSucceed(t, g, after, lim);
    }
  }

  /** Pages of any sizes, read one behind the other, are the full history exactly once and in order; a reader is stopped
      exactly when some page exceeds the byte budget. */
  lemma PagesAreTheHistory(attempts: seq<Attempt>, g: Group, limits: seq<nat>, lim: Limits)
    requires lim.history >= 0 && forall i | 0 <= i < |limits| :: limits[i] >= 1
    ensures var full := FullHistory(Reached(attempts), g);
      ReadOn(Reached(attempts), g, 0, limits, lim) ==
        if AllPagesFit(full, 0, limits, lim.history) then Ok(if Sum(limits) <= |full| then full[..Sum(limits)] else full)
        else Raised(TooLarge)
  {
    hide TablesOk, RunWrites, ReadOn, FullHistory, Sum, AllPagesFit;
    ReachedIsOk(attempts);
    PagesCoverHistory(Reached(attempts), g, 0, limits, lim);
    SliceFromStart(FullHistory(Reached(attempts), g), Sum(limits));
  }

  lemma SliceFromStart(items: seq<Stored>, n: nat)
    ensures Slice(items, 0, n) == if n <= |items| then items[..n] else items
  {
  }

  /** What a write returned is what `get` returns ever after, whatever else is written. */
  lemma WritesAreReadBack(past: seq<Attempt>, w: Write, expectedHead: Option<int>, now: int, lim: Limits, later: seq<Attempt>,
                          reader: Limits)
    requires |w.content| <= reader.content
    ensures var r := WriteStep(Reached(past), w, expectedHead, now, lim);
      WriteOk(w) && r.Ok? ==>
        && r.value.1.content == w.content
        && Get(RunWrites(r.value.0, later), w.group.scope, r.value.1.row.artifactId, reader) == Ok(Some(r.value.1))
  {
    hide TablesOk, RunWrites, WriteStep, WriteOk, Get;
    ReachedIsOk(past);
    if WriteOk(w) {
      WrittenStaysReadable(Reached(past), w, expectedHead, now, lim, later, reader);
    }
  }
}
