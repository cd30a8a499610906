/** Every outcome of a write, exactly, and what the expected head protects over whole runs. */
module ArtifactWrites {
  import opened Common
  import opened ArtifactTables
  import opened ArtifactTheorems
  import Text = InvocationText

  /** The greatest version of the group; 0 for a group without rows. */
  ghost predicate IsNewest(t: Tables, g: Group, v: int) {
    && (forall k | k in t.rows && t.rows[k].group == g :: t.rows[k].version <= v)
    && (if v == 0 then forall k | k in t.rows :: t.rows[k].group != g else HasVersion(t, g, v))
  }

  lemma HeadIsTheNewest(t: Tables, g: Group)
    requires TablesOk(t)
    ensures IsNewest(t, g, HeadVersion(t, g)) && HeadVersion(t, g) >= 0
    ensures forall v :: IsNewest(t, g, v) ==> v == HeadVersion(t, g)
  {
    hide TextOk, GroupOk, BlobsOk, KeysUnique;
    PositiveVersions(t);
    var head := HeadVersion(t, g);
    forall k | k in t.rows ensures t.rows[k].group == g ==> t.rows[k].version in VersionsOf(t, g) {
    }
    if VersionsOf(t, g) != {} {
      var k :| k in t.rows && t.rows[k].group == g && t.rows[k].version == head;
      assert HoldsVersion(t, k, g, head);
    }
    forall v | IsNewest(t, g, v) ensures v == head {
      if v != 0 {
        var k :| HoldsVersion(t, k, g, v);
      }
    }
  }

  /** The rows of the write's scope that use its artifact id or its idempotency key. */
  function Clashing(t: Tables, w: Write): set<string> {
    set k | k in t.rows && t.rows[k].group.scope == w.group.scope && (k == w.artifactId || t.rows[k].key == w.key)
  }

  /** The row records the very write: same key, group, task, content, media type, metadata and author. */
  predicate Records(r: Row, w: Write) {
    && r.key == w.key && r.group == w.group && r.task == w.task && r.blob == BlobDigest(w.content) && r.mediaType == w.mediaType
    && r.metadata == w.metadata && r.createdBy == w.createdBy
  }

  /** The row a write adds as the given version. */
  predicate IsVersionOf(r: Row, w: Write, version: int, now: int) {
    && Records(r, w) && r.artifactId == w.artifactId && r.version == version && r.createdAt == now && r.size == |w.content|
    && r.parent == (if version == 1 then None else Some(version - 1))
  }

  ghost predicate AddsVersion(t: Tables, w: Write, version: int, now: int, r: Outcome<(Tables, Stored)>) {
    && r.Ok? && r.value.1.content == w.content && IsVersionOf(r.value.1.row, w, version, now)
    && r.value.0.rows == t.rows[w.artifactId := r.value.1.row] && w.artifactId !in t.rows
    && r.value.0.blobs == t.blobs[BlobDigest(w.content) := Blob(w.content, |w.content|)]
  }

  /** A write without a row in its way: the expected head decides, then the schema's own limits, then it adds one version. */
  lemma FreshWrite(t: Tables, w: Write, expectedHead: Option<int>, now: int, lim: Limits, head: int)
    requires TablesOk(t) && WriteOk(w) && IsNewest(t, w.group, head) && Clashing(t, w) == {}
    requires |w.content| <= lim.content && Text.Utf8Length(w.metadata) <= lim.metadata
    ensures var r := WriteStep(t, w, expectedHead, now, lim);
      if expectedHead.Some? && expectedHead.value != head then r == Raised(HeadMoved)
      else if w.artifactId in t.rows || head >= 0x7FFF_FFFF_FFFF_FFFF || |w.content| > 0x7FFF_FFFF_FFFF_FFFF then r == Raised(Driver)
      else AddsVersion(t, w, head + 1, now, r)
  {
    hide TextOk, GroupOk, HeadVersion, Contiguous, KeysUnique, IsNewest, Text.Utf8Length;
    HeadIsTheNewest(t, w.group);
    assert Colliding(t, w) == Clashing(t, w) by {
      SameClashes(t, w);
    }
    var digest := BlobDigest(w.content);
    assert digest in t.blobs ==> t.blobs[digest] == Blob(w.content, |w.content|) && t.blobs[digest := Blob(w.content, |w.content|)] == t.blobs;
  }

  lemma SameClashes(t: Tables, w: Write)
    requires TablesOk(t)
    ensures Colliding(t, w) == Clashing(t, w)
  {
    hide TextOk, GroupOk, Contiguous, KeysUnique, BlobsOk;
  }

  /** A write with rows in its way is a retry of the one that recorded it, or a conflict. */
  lemma ClashingWrite(t: Tables, w: Write, expectedHead: Option<int>, now: int, lim: Limits)
    requires TablesOk(t) && WriteOk(w) && Clashing(t, w) != {}
    requires |w.content| <= lim.content && Text.Utf8Length(w.metadata) <= lim.metadata
    ensures var r := WriteStep(t, w, expectedHead, now, lim);
      if exists k :: Clashing(t, w) == {k} && Records(t.rows[k], w) then
        exists k :: Clashing(t, w) == {k} && r == Ok((t, Stored(t.rows[k], w.content)))
      else r == Raised(Conflict)
  {
    hide TextOk, GroupOk, HeadVersion, Contiguous, KeysUnique, BlobsOk, RowsOk, RowOk;
    SameClashes(t, w);
    if |Clashing(t, w)| == 1 {
      var k := Only(Clashing(t, w));
      assert k in Clashing(t, w) && forall m :: Clashing(t, w) == {m} ==> m == k;
      RowHasBlob(t, k);
      FingerprintIsTheRow(t, k, w);
    } else {
      assert forall m :: Clashing(t, w) != {m};
    }
  }

  lemma FingerprintIsTheRow(t: Tables, k: string, w: Write)
    requires TablesOk(t) && k in t.rows && t.rows[k].group.scope == w.group.scope
    ensures t.rows[k].key == w.key && t.rows[k].fingerprint == FingerprintOf(w) <==> Records(t.rows[k], w)
  {
    hide TextOk, GroupOk, Contiguous, KeysUnique;
    RowHasBlob(t, k);
  }

  /** Every outcome of a write into reachable tables. */
  lemma WritesEndExactly(attempts: seq<Attempt>, w: Write, expectedHead: Option<int>, now: int, lim: Limits, head: int)
    requires WriteOk(w) && IsNewest(Reached(attempts), w.group, head)
    ensures var t := Reached(attempts); var r := WriteStep(t, w, expectedHead, now, lim);
      if |w.content| > lim.content || Text.Utf8Length(w.metadata) > lim.metadata then r == Raised(TooLarge)
      else if Clashing(t, w) != {} then
        if exists k :: Clashing(t, w) == {k} && Records(t.rows[k], w) then
          exists k :: Clashing(t, w) == {k} && r == Ok((t, Stored(t.rows[k], w.content)))
        else r == Raised(Conflict)
      else if expectedHead.Some? && expectedHead.value != head then r == Raised(HeadMoved)
      else if w.artifactId in t.rows || head >= 0x7FFF_FFFF_FFFF_FFFF || |w.content| > 0x7FFF_FFFF_FFFF_FFFF then r == Raised(Driver)
      else AddsVersion(t, w, head + 1, now, r)
  {
    hide TablesOk, RunWrites, WriteOk, IsNewest, Records, AddsVersion, Clashing, Text.Utf8Length;
    var t := Reached(attempts);
    ReachedIsOk(attempts);
    if |w.content| > lim.content || Text.Utf8Length(w.metadata) > lim.metadata {
      TooLargeFirst(t, w, expectedHead, now, lim);
    } else if Clashing(t, w) == {} {
      FreshWrite(t, w, expectedHead, now, lim, head);
    } else {
      ClashingWrite(t, w, expectedHead, now, lim);
    }
  }

  lemma TooLargeFirst(t: Tables, w: Write, expectedHead: Option<int>, now: int, lim: Limits)
    requires |w.content| > lim.content || Text.Utf8Length(w.metadata) > lim.metadata
    ensures WriteStep(t, w, expectedHead, now, lim) == Raised(TooLarge)
  {
    hide Colliding, Decode, HeadVersion;
  }

  /** Whatever the tables hold, a write alters no blob, and refuses one that does not hold its content. */
  lemma BlobsAreNeverReplaced(t: Tables, w: Write, expectedHead: Option<int>, now: int, lim: Limits)
    ensures var r := WriteStep(t, w, expectedHead, now, lim);
      && (r.Ok? ==> forall d | d in t.blobs :: d in r.value.0.blobs && r.value.0.blobs[d] == t.blobs[d])
      && (r.Ok? && r.value.0 != t ==> r.value.0.blobs == t.blobs[BlobDigest(w.content) := Blob(w.content, |w.content|)])
      && (Colliding(t, w) == {} && |w.content| <= lim.content && Text.Utf8Length(w.metadata) <= lim.metadata
          && (expectedHead.Some? ==> expectedHead.value == HeadVersion(t, w.group))
          && BlobDigest(w.content) in t.blobs && t.blobs[BlobDigest(w.content)] != Blob(w.content, |w.content|) ==>
            r == Raised(Integrity))
  {
    hide Colliding, HeadVersion, RowOk, Text.Utf8Length, FingerprintOf, NewRow;
    assert BlobDigest(w.content) in t.blobs && t.blobs[BlobDigest(w.content)] == Blob(w.content, |w.content|) ==>
      t.blobs[BlobDigest(w.content) := Blob(w.content, |w.content|)] == t.blobs;
  }

  /** One more attempt of a run: its step's tables exactly if it is a good write that takes effect, else nothing. */
  lemma RunsTakeEffect(attempts: seq<Attempt>, a: Attempt)
    ensures var t := Reached(attempts); var r := WriteStep(t, a.write, a.expectedHead, a.now, a.limits);
      Reached(attempts + [a]) == (if a.takesEffect && WriteOk(a.write) && r.Ok? then r.value.0 else t)
  {
    hide RunWrites, WriteStep, WriteOk;
    RunInTwoParts(EMPTY_TABLES, attempts, [a]);
    OneAttempt(Reached(attempts), a);
  }

  // ----- No lost updates -----

  /** The attempt added a row to its group. */
  ghost predicate Adds(before: Tables, a: Attempt) {
    AttemptOnce(before, a).rows != before.rows
  }

  ghost function Before(attempts: seq<Attempt>, i: nat): Tables
    requires i <= |attempts|
  {
    Reached(attempts[..i])
  }

  lemma {:induction false} RunInTwoParts(t: Tables, front: seq<Attempt>, back: seq<Attempt>)
    ensures RunWrites(t, front + back) == RunWrites(RunWrites(t, front), back)
    decreases |front|
  {
    hide AttemptOnce;
    if front == [] {
      assert front + back == back;
    } else {
      assert (front + back)[1..] == front[1..] + back;
      RunInTwoParts(AttemptOnce(t, front[0]), front[1..], back);
    }
  }

  lemma AddingMovesTheHead(t: Tables, a: Attempt)
    requires TablesOk(t) && Adds(t, a)
    ensures a.expectedHead.Some? ==> HeadVersion(t, a.write.group) == a.expectedHead.value
    ensures HeadVersion(AttemptOnce(t, a), a.write.group) == HeadVersion(t, a.write.group) + 1
  {
    hide TablesOk, IsNewest, HeadVersion, Clashing, Text.Utf8Length, WriteOk;
    var w := a.write;
    WriteKeepsTables(t, w, a.expectedHead, a.now, a.limits);
    HeadIsTheNewest(t, w.group);
    if |w.content| > a.limits.content || Text.Utf8Length(w.metadata) > a.limits.metadata {
      TooLargeFirst(t, w, a.expectedHead, a.now, a.limits);
    } else if Clashing(t, w) == {} {
      FreshWrite(t, w, a.expectedHead, a.now, a.limits, HeadVersion(t, w.group));
    } else {
      ClashingWrite(t, w, a.expectedHead, a.now, a.limits);
    }
  }

  lemma HeadsNeverGoBack(t: Tables, attempts: seq<Attempt>, g: Group)
    requires TablesOk(t)
    ensures HeadVersion(t, g) <= HeadVersion(RunWrites(t, attempts), g)
  {
    hide TablesOk, RunWrites;
    RunKeepsTables(t, attempts);
    var next := RunWrites(t, attempts);
    HeadIsTheNewest(t, g);
    HeadIsTheNewest(next, g);
    if HeadVersion(t, g) > 0 {
      var k :| HoldsVersion(t, k, g, HeadVersion(t, g));
      assert k in next.rows && next.rows[k] == t.rows[k];
    }
  }

  /** Of any two writes of a run to one group under the same expected head, at most one adds a version. */
  lemma OneWriterPerHead(attempts: seq<Attempt>, i: nat, j: nat)
    requires i < j < |attempts|
    requires attempts[i].write.group == attempts[j].write.group
    requires attempts[i].expectedHead.Some? && attempts[i].expectedHead == attempts[j].expectedHead
    ensures !(Adds(Before(attempts, i), attempts[i]) && Adds(Before(attempts, j), attempts[j]))
  {
    hide TablesOk, RunWrites, AttemptOnce, HeadVersion;
    var t, g := Before(attempts, i), attempts[i].write.group;
    if Adds(t, attempts[i]) && Adds(Before(attempts, j), attempts[j]) {
      ReachedIsOk(attempts[..i]);
      ReachedIsOk(attempts[..j]);
      ReachedIsOk(attempts[..i + 1]);
      AddingMovesTheHead(t, attempts[i]);
      AddingMovesTheHead(Before(attempts, j), attempts[j]);
      assert attempts[..i + 1] == attempts[..i] + [attempts[i]];
      RunInTwoParts(EMPTY_TABLES, attempts[..i], [attempts[i]]);
      OneAttempt(t, attempts[i]);
      assert attempts[..j] == attempts[..i + 1] + attempts[i + 1..j];
      RunInTwoParts(EMPTY_TABLES, attempts[..i + 1], attempts[i + 1..j]);
      HeadsNeverGoBack(Before(attempts, i + 1), attempts[i + 1..j], g);
    }
  }

  lemma OneAttempt(t: Tables, a: Attempt)
    ensures RunWrites(t, [a]) == AttemptOnce(t, a)
  {
    hide AttemptOnce;
    assert [a][1..] == [];
  }
}
