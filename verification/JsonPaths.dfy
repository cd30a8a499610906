/** A value tree by its paths: what the limits mean for every value inside it. */
module JsonPaths {
  import opened Common
  import opened JsonLimits

  /** The value at a path: child numbers from the outside in. */
  function At(v: Value, path: seq<nat>): Option<Value>
    decreases |path|
  {
    if path == [] then Some(v) else
    match v
    case List(items) => if path[0] < |items| then At(items[path[0]], path[1..]) else None
    case Dict(entries) => if path[0] < |entries| then At(entries[path[0]].value, path[1..]) else None
    case _ => None
  }

  /** One value at a depth: a leaf within the rules at most `room` deep, or a mutable container less deep, its keys within the
      rules. */
  predicate PartFits(v: Value, depth: nat, room: nat, rules: Rules) {
    match v
    case Scalar(leaf) => depth <= room && rules.leafOk(leaf)
    case List(_) => depth < room
    case Dict(entries) => depth < room && forall i | 0 <= i < |entries| :: rules.keyOk(entries[i].key)
    case _ => false
  }

  ghost predicate EveryPartFits(v: Value, room: nat, rules: Rules) {
    forall path | At(v, path).Some? :: PartFits(At(v, path).value, |path|, room, rules)
  }

  lemma ChildPaths(v: Value, i: nat, path: seq<nat>)
    ensures v.List? && i < |v.items| ==> At(v, [i] + path) == At(v.items[i], path)
    ensures v.Dict? && i < |v.entries| ==> At(v, [i] + path) == At(v.entries[i].value, path)
  {
    assert ([i] + path)[1..] == path;
  }

  lemma ChildFits(child: Value, room: nat, rules: Rules)
    ensures EveryPartFits(child, room, rules) <==>
      forall path | At(child, path).Some? :: PartFits(At(child, path).value, |path| + 1, room + 1, rules)
  {
    hide At;
    forall path | At(child, path).Some?
      ensures PartFits(At(child, path).value, |path|, room, rules) <==> PartFits(At(child, path).value, |path| + 1, room + 1, rules) {
    }
  }

  lemma {:induction false} ItemsFitOneByOne(items: seq<Value>, room: nat, rules: Rules)
    ensures ItemsFit(items, room, rules) <==> forall i | 0 <= i < |items| :: Fits(items[i], room, rules)
    decreases |items|
  {
    hide Fits;
    if items != [] {
      var front := items[..|items| - 1];
      ItemsFitOneByOne(front, room, rules);
      assert forall i | 0 <= i < |front| :: front[i] == items[i];
    }
  }

  lemma {:induction false} EntriesFitOneByOne(entries: seq<Entry>, room: nat, rules: Rules)
    ensures EntriesFit(entries, room, rules) <==>
      forall i | 0 <= i < |entries| :: rules.keyOk(entries[i].key) && Fits(entries[i].value, room, rules)
    decreases |entries|
  {
    hide Fits;
    if entries != [] {
      var front := entries[..|entries| - 1];
      EntriesFitOneByOne(front, room, rules);
      assert forall i | 0 <= i < |front| :: front[i] == entries[i];
    }
  }

  lemma ListFitsByItems(v: Value, room: nat, rules: Rules)
    requires v.List?
    requires room > 0 ==> forall i | 0 <= i < |v.items| :: Fits(v.items[i], room - 1, rules) <==> EveryPartFits(v.items[i], room - 1, rules)
    ensures Fits(v, room, rules) <==> EveryPartFits(v, room, rules)
  {
    hide EveryPartFits, ItemsFit;
    if room > 0 {
      ItemsFitOneByOne(v.items, room - 1, rules);
      ListFits(v, room, rules);
    } else {
      TooDeep(v, rules);
    }
  }

  lemma DictFitsByEntries(v: Value, room: nat, rules: Rules)
    requires v.Dict?
    requires room > 0 ==> forall i | 0 <= i < |v.entries| ::
      Fits(v.entries[i].value, room - 1, rules) <==> EveryPartFits(v.entries[i].value, room - 1, rules)
    ensures Fits(v, room, rules) <==> EveryPartFits(v, room, rules)
  {
    hide EveryPartFits, EntriesFit;
    if room > 0 {
      EntriesFitOneByOne(v.entries, room - 1, rules);
      DictFits(v, room, rules);
    } else {
      TooDeep(v, rules);
    }
  }

  /** The recursive check asks exactly this of every value inside the tree. */
  lemma {:induction false} FitsEverywhere(v: Value, room: nat, rules: Rules)
    ensures Fits(v, room, rules) <==> EveryPartFits(v, room, rules)
    decreases v
  {
    hide Fits, EveryPartFits;
    match v {
      case List(items) =>
        if room > 0 {
          forall i | 0 <= i < |items| ensures Fits(items[i], room - 1, rules) <==> EveryPartFits(items[i], room - 1, rules) {
            FitsEverywhere(items[i], room - 1, rules);
          }
        }
        ListFitsByItems(v, room, rules);
      case Dict(entries) =>
        if room > 0 {
          forall i | 0 <= i < |entries|
            ensures Fits(entries[i].value, room - 1, rules) <==> EveryPartFits(entries[i].value, room - 1, rules) {
            FitsEverywhere(entries[i].value, room - 1, rules);
          }
        }
        DictFitsByEntries(v, room, rules);
      case _ => SingleFits(v, room, rules);
    }
  }

  lemma TooDeep(v: Value, rules: Rules)
    requires v.List? || v.Dict?
    ensures !EveryPartFits(v, 0, rules)
  {
    assert At(v, []) == Some(v);
  }

  lemma SingleFits(v: Value, room: nat, rules: Rules)
    requires !v.List? && !v.Dict?
    ensures EveryPartFits(v, room, rules) <==> Fits(v, room, rules)
  {
    assert At(v, []) == Some(v);
  }

  lemma ListFits(v: Value, room: nat, rules: Rules)
    requires v.List? && room > 0
    ensures EveryPartFits(v, room, rules) <==> forall i | 0 <= i < |v.items| :: EveryPartFits(v.items[i], room - 1, rules)
  {
    forall i | 0 <= i < |v.items| ensures EveryPartFits(v, room, rules) ==> EveryPartFits(v.items[i], room - 1, rules) {
      ChildFits(v.items[i], room - 1, rules);
      forall path | At(v.items[i], path).Some? && EveryPartFits(v, room, rules)
        ensures PartFits(At(v.items[i], path).value, |path| + 1, room, rules) {
        ChildPaths(v, i, path);
        assert PartFits(At(v, [i] + path).value, |[i] + path|, room, rules);
      }
    }
    if forall i | 0 <= i < |v.items| :: EveryPartFits(v.items[i], room - 1, rules) {
      forall path | At(v, path).Some? ensures PartFits(At(v, path).value, |path|, room, rules) {
        if path != [] {
          ChildFits(v.items[path[0]], room - 1, rules);
          assert At(v.items[path[0]], path[1..]).Some?;
        }
      }
    }
  }

  lemma DictFits(v: Value, room: nat, rules: Rules)
    requires v.Dict? && room > 0
    ensures EveryPartFits(v, room, rules) <==>
      forall i | 0 <= i < |v.entries| :: rules.keyOk(v.entries[i].key) && EveryPartFits(v.entries[i].value, room - 1, rules)
  {
    assert At(v, []) == Some(v);
    forall i | 0 <= i < |v.entries|
      ensures EveryPartFits(v, room, rules) ==> rules.keyOk(v.entries[i].key) && EveryPartFits(v.entries[i].value, room - 1, rules)
    {
      ChildFits(v.entries[i].value, room - 1, rules);
      forall path | At(v.entries[i].value, path).Some? && EveryPartFits(v, room, rules)
        ensures PartFits(At(v.entries[i].value, path).value, |path| + 1, room, rules) {
        ChildPaths(v, i, path);
        assert PartFits(At(v, [i] + path).value, |[i] + path|, room, rules);
      }
      assert EveryPartFits(v, room, rules) ==> PartFits(v, 0, room, rules);
    }
    if forall i | 0 <= i < |v.entries| :: rules.keyOk(v.entries[i].key) && EveryPartFits(v.entries[i].value, room - 1, rules) {
      forall path | At(v, path).Some? ensures PartFits(At(v, path).value, |path|, room, rules) {
        if path != [] {
          ChildFits(v.entries[path[0]].value, room - 1, rules);
          assert At(v.entries[path[0]].value, path[1..]).Some?;
        }
      }
    }
  }

  // ----- Counting -----

  /** All paths of a tree, each once. */
  ghost function Paths(v: Value): seq<seq<nat>>
    decreases v, 0
  {
    match v
    case List(items) => [[]] + PathsOfItems(items)
    case Dict(entries) => [[]] + PathsOfEntries(entries)
    case _ => [[]]
  }

  ghost function PathsOfItems(items: seq<Value>): seq<seq<nat>>
    decreases items
  {
    if items == [] then [] else PathsOfItems(items[..|items| - 1]) + Under(|items| - 1, Paths(items[|items| - 1]))
  }

  ghost function PathsOfEntries(entries: seq<Entry>): seq<seq<nat>>
    decreases entries
  {
    if entries == [] then [] else PathsOfEntries(entries[..|entries| - 1]) + Under(|entries| - 1, Paths(entries[|entries| - 1].value))
  }

  ghost function Under(i: nat, paths: seq<seq<nat>>): (r: seq<seq<nat>>)
    ensures |r| == |paths| && forall k | 0 <= k < |paths| :: r[k] == [i] + paths[k]
  {
    seq(|paths|, k requires 0 <= k < |paths| => [i] + paths[k])
  }

  ghost predicate OnceEach(paths: seq<seq<nat>>) {
    forall i, j | 0 <= i < j < |paths| :: paths[i] != paths[j]
  }

  lemma InUnder(i: nat, paths: seq<seq<nat>>, p: seq<nat>)
    ensures p in Under(i, paths) <==> p != [] && p[0] == i && p[1..] in paths
  {
    if p in Under(i, paths) {
      var k :| 0 <= k < |paths| && Under(i, paths)[k] == p;
      assert p[1..] == paths[k];
    }
    if p != [] && p[0] == i && p[1..] in paths {
      var k :| 0 <= k < |paths| && paths[k] == p[1..];
      assert Under(i, paths)[k] == p;
    }
  }

  lemma UnderOnceEach(i: nat, paths: seq<seq<nat>>)
    requires OnceEach(paths)
    ensures OnceEach(Under(i, paths))
  {
    forall k, m | 0 <= k < m < |paths| ensures Under(i, paths)[k] != Under(i, paths)[m] {
      assert Under(i, paths)[k][1..] == paths[k] && Under(i, paths)[m][1..] == paths[m];
    }
  }

  lemma JoinOnceEach(a: seq<seq<nat>>, b: seq<seq<nat>>)
    requires OnceEach(a) && OnceEach(b) && forall p | p in a :: p !in b
    ensures OnceEach(a + b)
  {
    forall i, j | 0 <= i < j < |a + b| ensures (a + b)[i] != (a + b)[j] {
      if i < |a| <= j {
        assert a[i] in a && b[j - |a|] in b;
      }
    }
  }

  /** Every path of a tree is listed once, and the tree has as many values as paths. */
  lemma {:induction false} ValuesAreThePaths(v: Value)
    ensures |Paths(v)| == Values(v) && OnceEach(Paths(v))
    ensures forall p :: p in Paths(v) <==> At(v, p).Some?
    decreases v, 0
  {
    match v {
      case List(items) =>
        ItemsAreThePaths(items);
        JoinOnceEach([[]], PathsOfItems(items));
      case Dict(entries) =>
        EntriesAreThePaths(entries);
        JoinOnceEach([[]], PathsOfEntries(entries));
      case _ =>
    }
  }

  lemma {:induction false} ItemsAreThePaths(items: seq<Value>)
    ensures |PathsOfItems(items)| == ValuesOfItems(items) && OnceEach(PathsOfItems(items))
    ensures forall p :: p in PathsOfItems(items) <==> p != [] && p[0] < |items| && At(items[p[0]], p[1..]).Some?
    decreases items
  {
    hide At, Values, Paths, Under;
    if items != [] {
      var front, last := items[..|items| - 1], items[|items| - 1];
      ItemsAreThePaths(front);
      ValuesAreThePaths(last);
      UnderOnceEach(|front|, Paths(last));
      forall p ensures p in Under(|front|, Paths(last)) <==> p != [] && p[0] == |front| && At(last, p[1..]).Some? {
        InUnder(|front|, Paths(last), p);
      }
      JoinOnceEach(PathsOfItems(front), Under(|front|, Paths(last)));
    }
  }

  lemma {:induction false} EntriesAreThePaths(entries: seq<Entry>)
    ensures |PathsOfEntries(entries)| == ValuesOfEntries(entries) && OnceEach(PathsOfEntries(entries))
    ensures forall p :: p in PathsOfEntries(entries) <==> p != [] && p[0] < |entries| && At(entries[p[0]].value, p[1..]).Some?
    decreases entries
  {
    hide At, Values, Paths, Under;
    if entries != [] {
      var front, last := entries[..|entries| - 1], entries[|entries| - 1];
      EntriesAreThePaths(front);
      ValuesAreThePaths(last.value);
      UnderOnceEach(|front|, Paths(last.value));
      forall p ensures p in Under(|front|, Paths(last.value)) <==> p != [] && p[0] == |front| && At(last.value, p[1..]).Some? {
        InUnder(|front|, Paths(last.value), p);
      }
      JoinOnceEach(PathsOfEntries(front), Under(|front|, Paths(last.value)));
    }
  }

  /** The paths that a key leads to. */
  ghost function KeyPaths(v: Value, paths: seq<seq<nat>>): seq<seq<nat>> {
    if paths == [] then [] else
    var p := paths[|paths| - 1];
    KeyPaths(v, paths[..|paths| - 1]) + if EndsInKey(v, p) then [p] else []
  }

  /** The path's last step is from a dictionary. */
  predicate EndsInKey(v: Value, path: seq<nat>) {
    path != [] && At(v, path[..|path| - 1]).Some? && At(v, path[..|path| - 1]).value.Dict?
  }

  lemma KeyPathsStep(v: Value, paths: seq<seq<nat>>)
    requires paths != []
    ensures |KeyPaths(v, paths)| == |KeyPaths(v, paths[..|paths| - 1])| + if EndsInKey(v, paths[|paths| - 1]) then 1 else 0
  {
    hide EndsInKey;
  }

  lemma KeyUnder(v: Value, i: nat, child: Value, p: seq<nat>)
    requires forall q :: At(v, [i] + q) == At(child, q)
    ensures EndsInKey(v, [i] + p) <==> if p == [] then v.Dict? else EndsInKey(child, p)
  {
    hide At;
    var q := [i] + p;
    if p == [] {
      assert q[..|q| - 1] == [];
      Here(v);
    } else {
      assert q[..|q| - 1] == [i] + p[..|p| - 1];
    }
  }

  lemma {:induction false} KeyPathsOfJoin(v: Value, a: seq<seq<nat>>, b: seq<seq<nat>>)
    ensures KeyPaths(v, a + b) == KeyPaths(v, a) + KeyPaths(v, b)
    decreases |b|
  {
    if b == [] {
      assert a + b == a;
    } else {
      assert (a + b)[..|a + b| - 1] == a + b[..|b| - 1];
      KeyPathsOfJoin(v, a, b[..|b| - 1]);
    }
  }

  /** Below a child the keys are the child's own, and the child's key if its parent is a dictionary. */
  lemma {:induction false} KeyPathsUnder(v: Value, i: nat, child: Value, paths: seq<seq<nat>>)
    requires forall p :: At(v, [i] + p) == At(child, p)
    ensures |KeyPaths(v, Under(i, paths))| == |KeyPaths(child, paths)| + if v.Dict? then Empties(paths) else 0
    decreases |paths|
  {
    hide At, EndsInKey, KeyPaths;
    if paths == [] {
      NoKeyPaths(v);
      NoKeyPaths(child);
      assert Under(i, paths) == [];
    } else {
      var front, p := paths[..|paths| - 1], paths[|paths| - 1];
      KeyPathsUnder(v, i, child, front);
      assert Under(i, paths)[..|paths| - 1] == Under(i, front);
      KeyPathsStep(v, Under(i, paths));
      KeyPathsStep(child, paths);
      KeyUnder(v, i, child, p);
      NoKeyToNowhere(child);
    }
  }

  lemma NoKeyToNowhere(v: Value)
    ensures !EndsInKey(v, [])
  {
  }

  lemma NoKeyPaths(v: Value)
    ensures KeyPaths(v, []) == []
  {
  }

  lemma Here(v: Value)
    ensures At(v, []) == Some(v)
  {
  }

  ghost function Empties(paths: seq<seq<nat>>): nat {
    if paths == [] then 0 else Empties(paths[..|paths| - 1]) + if paths[|paths| - 1] == [] then 1 else 0
  }

  lemma {:induction false} OneEmpty(paths: seq<seq<nat>>)
    requires OnceEach(paths)
    ensures Empties(paths) == if [] in paths then 1 else 0
    decreases |paths|
  {
    if paths != [] {
      var front := paths[..|paths| - 1];
      OneEmpty(front);
      assert paths == front + [paths[|paths| - 1]];
      if [] in front {
        var k :| 0 <= k < |front| && front[k] == [];
        assert paths[k] == [];
      }
    }
  }

  /** A tree has as many keys as paths that a key leads to. */
  lemma {:induction false} KeysAreThePaths(v: Value)
    ensures |KeyPaths(v, Paths(v))| == Keys(v)
    decreases v, 0
  {
    hide At;
    NoKeyHere(v);
    match v {
      case List(items) =>
        KeysOfItemsAreThePaths(v, items);
        KeyPathsOfJoin(v, [[]], PathsOfItems(items));
      case Dict(entries) =>
        KeysOfEntriesAreThePaths(v, entries);
        KeyPathsOfJoin(v, [[]], PathsOfEntries(entries));
      case _ =>
    }
  }

  lemma NoKeyHere(v: Value)
    ensures KeyPaths(v, [[]]) == []
  {
    var here: seq<seq<nat>> := [[]];
    assert here[..0] == [];
  }

  lemma {:induction false} KeysOfItemsAreThePaths(v: Value, items: seq<Value>)
    requires v.List? && items <= v.items
    ensures |KeyPaths(v, PathsOfItems(items))| == KeysOfItems(items)
    decreases items
  {
    hide At, Paths, Under;
    if items != [] {
      var front, last := items[..|items| - 1], items[|items| - 1];
      KeysOfItemsAreThePaths(v, front);
      KeysAreThePaths(last);
      forall p ensures At(v, [|front|] + p) == At(last, p) {
        ChildPaths(v, |front|, p);
      }
      KeyPathsUnder(v, |front|, last, Paths(last));
      KeyPathsOfJoin(v, PathsOfItems(front), Under(|front|, Paths(last)));
    }
  }

  lemma {:induction false} KeysOfEntriesAreThePaths(v: Value, entries: seq<Entry>)
    requires v.Dict? && entries <= v.entries
    ensures |KeyPaths(v, PathsOfEntries(entries))| == KeysOfEntries(entries)
    decreases entries
  {
    hide At, Paths, Under;
    if entries != [] {
      var front, last := entries[..|entries| - 1], entries[|entries| - 1];
      KeysOfEntriesAreThePaths(v, front);
      KeysAreThePaths(last.value);
      forall p ensures At(v, [|front|] + p) == At(last.value, p) {
        ChildPaths(v, |front|, p);
      }
      KeyPathsUnder(v, |front|, last.value, Paths(last.value));
      ValuesAreThePaths(last.value);
      Here(last.value);
      OneEmpty(Paths(last.value));
      KeyPathsOfJoin(v, PathsOfEntries(front), Under(|front|, Paths(last.value)));
    }
  }

  /** The ledger and the codec accept a tree of at most 10,000 values and keys, the store one of at most 10,000 values; both ask
      the same of every value inside it, at most 64 containers deep. */
  lemma LimitsByPaths(v: Value, rules: Rules)
    ensures Accepted(v, rules) <==> |Paths(v)| + |KeyPaths(v, Paths(v))| <= 10_000 && EveryPartFits(v, 64, rules)
    ensures StoreAccepted(v, rules) <==> |Paths(v)| <= 10_000 && EveryPartFits(v, 64, rules)
  {
    hide Paths, KeyPaths, Fits, EveryPartFits;
    NodesAreValuesAndKeys(v);
    ValuesAreThePaths(v);
    KeysAreThePaths(v);
    FitsEverywhere(v, 64, rules);
  }

  // ----- Freezing in place -----

  /** The value at a path through containers of either kind. */
  function Within(v: Value, path: seq<nat>): Option<Value>
    decreases |path|
  {
    if path == [] then Some(v) else
    match v
    case List(items) => if path[0] < |items| then Within(items[path[0]], path[1..]) else None
    case Tuple(items) => if path[0] < |items| then Within(items[path[0]], path[1..]) else None
    case Dict(entries) => if path[0] < |entries| then Within(entries[path[0]].value, path[1..]) else None
    case Proxy(entries) => if path[0] < |entries| then Within(entries[path[0]].value, path[1..]) else None
    case _ => None
  }

  lemma {:induction false} FrozenItemsInPlace(items: seq<Value>)
    ensures |FreezeItems(items)| == |items| && forall i | 0 <= i < |items| :: FreezeItems(items)[i] == Freeze(items[i])
    decreases |items|
  {
    hide Freeze;
    if items != [] {
      FrozenItemsInPlace(items[..|items| - 1]);
    }
  }

  lemma {:induction false} FrozenEntriesInPlace(entries: seq<Entry>)
    ensures |FreezeEntries(entries)| == |entries|
    ensures forall i | 0 <= i < |entries| :: FreezeEntries(entries)[i] == Entry(entries[i].key, Freeze(entries[i].value))
    decreases |entries|
  {
    hide Freeze;
    if entries != [] {
      FrozenEntriesInPlace(entries[..|entries| - 1]);
    }
  }

  /** Freezing freezes every value where it stands. */
  lemma {:induction false} FreezeKeepsPlaces(v: Value, path: seq<nat>)
    requires At(v, path).Some?
    ensures Within(Freeze(v), path) == Some(Freeze(At(v, path).value))
    decreases |path|
  {
    hide FreezeItems, FreezeEntries;
    if path != [] {
      match v {
        case List(items) =>
          FrozenItemsInPlace(items);
          FreezeKeepsPlaces(items[path[0]], path[1..]);
        case Dict(entries) =>
          FrozenEntriesInPlace(entries);
          FreezeKeepsPlaces(entries[path[0]].value, path[1..]);
      }
    }
  }

  lemma {:induction false} AllFrozenOneByOne(items: seq<Value>)
    ensures AllFrozen(items) <==> forall i | 0 <= i < |items| :: IsFrozen(items[i])
    decreases |items|
  {
    hide IsFrozen;
    if items != [] {
      AllFrozenOneByOne(items[..|items| - 1]);
      assert forall i | 0 <= i < |items| - 1 :: items[..|items| - 1][i] == items[i];
    }
  }

  lemma {:induction false} EntriesFrozenOneByOne(entries: seq<Entry>)
    ensures EntriesFrozen(entries) <==> forall i | 0 <= i < |entries| :: IsFrozen(entries[i].value)
    decreases |entries|
  {
    hide IsFrozen;
    if entries != [] {
      EntriesFrozenOneByOne(entries[..|entries| - 1]);
      assert forall i | 0 <= i < |entries| - 1 :: entries[..|entries| - 1][i] == entries[i];
    }
  }

  /** A frozen tree has no list and no dictionary anywhere inside. */
  lemma {:induction false} FrozenMeansNothingMutable(v: Value, path: seq<nat>)
    requires IsFrozen(v) && Within(v, path).Some?
    ensures !Within(v, path).value.List? && !Within(v, path).value.Dict?
    decreases |path|
  {
    hide AllFrozen, EntriesFrozen;
    if path != [] {
      match v {
        case Tuple(items) =>
          AllFrozenOneByOne(items);
          FrozenMeansNothingMutable(items[path[0]], path[1..]);
        case Proxy(entries) =>
          EntriesFrozenOneByOne(entries);
          FrozenMeansNothingMutable(entries[path[0]].value, path[1..]);
      }
    }
  }
}
