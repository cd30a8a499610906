/** The three checkers: two explicit-stack walks and a recursive snapshot. */
module JsonWalks {
  import opened Common
  import opened JsonLimits

  /** A value still to be visited, inside so many containers. */
  datatype Frame = Frame(value: Value, parentDepth: nat)

  // ----- What a stack still holds -----

  function StackNodes(stack: seq<Frame>): (n: nat)
    ensures n >= |stack|
  {
    if stack == [] then 0 else StackNodes(stack[..|stack| - 1]) + Nodes(stack[|stack| - 1].value)
  }

  function StackValues(stack: seq<Frame>): (n: nat)
    ensures n >= |stack|
  {
    if stack == [] then 0 else StackValues(stack[..|stack| - 1]) + Values(stack[|stack| - 1].value)
  }

  predicate FrameFits(f: Frame, rules: Rules) {
    Fits(f.value, if f.parentDepth <= MAX_DEPTH then MAX_DEPTH - f.parentDepth else 0, rules)
  }

  predicate StackFits(stack: seq<Frame>, rules: Rules) {
    stack == [] || (StackFits(stack[..|stack| - 1], rules) && FrameFits(stack[|stack| - 1], rules))
  }

  lemma PushFrame(stack: seq<Frame>, f: Frame, rules: Rules)
    ensures StackNodes(stack + [f]) == StackNodes(stack) + Nodes(f.value)
    ensures StackValues(stack + [f]) == StackValues(stack) + Values(f.value)
    ensures StackFits(stack + [f], rules) <==> StackFits(stack, rules) && FrameFits(f, rules)
  {
    assert (stack + [f])[..|stack|] == stack;
  }

  /** The loop that pushes a list's items, last first. */
  method PushItems(stack: seq<Frame>, items: seq<Value>, depth: nat, ghost rules: Rules) returns (pushed: seq<Frame>)
    requires 1 <= depth <= MAX_DEPTH
    ensures StackNodes(pushed) == StackNodes(stack) + NodesOfItems(items)
    ensures StackValues(pushed) == StackValues(stack) + ValuesOfItems(items)
    ensures StackFits(pushed, rules) <==> StackFits(stack, rules) && ItemsFit(items, MAX_DEPTH - depth, rules)
  {
    hide Fits, Nodes, Values, StackNodes, StackValues, StackFits;
    pushed := stack;
    assert items[..|items|] == items;
    for k := |items| downto 0
      invariant StackNodes(pushed) + NodesOfItems(items[..k]) == StackNodes(stack) + NodesOfItems(items)
      invariant StackValues(pushed) + ValuesOfItems(items[..k]) == StackValues(stack) + ValuesOfItems(items)
      invariant StackFits(pushed, rules) && ItemsFit(items[..k], MAX_DEPTH - depth, rules) <==>
        StackFits(stack, rules) && ItemsFit(items, MAX_DEPTH - depth, rules)
    {
      PushFrame(pushed, Frame(items[k], depth), rules);
      assert items[..k + 1][..k] == items[..k] && items[..k + 1][k] == items[k];
      pushed := pushed + [Frame(items[k], depth)];
    }
    assert items[..0] == [];
  }

  /** The loop that checks a dictionary's keys and pushes its values, last first. */
  method PushEntries(stack: seq<Frame>, entries: seq<Entry>, depth: nat, rules: Rules) returns (pushed: Option<seq<Frame>>)
    requires 1 <= depth <= MAX_DEPTH
    ensures pushed.Some? ==>
      && StackNodes(pushed.value) + |entries| == StackNodes(stack) + NodesOfEntries(entries)
      && StackValues(pushed.value) == StackValues(stack) + ValuesOfEntries(entries)
      && (StackFits(pushed.value, rules) <==> StackFits(stack, rules) && EntriesFit(entries, MAX_DEPTH - depth, rules))
    ensures pushed.None? ==> !EntriesFit(entries, MAX_DEPTH - depth, rules)
  {
    hide Fits, Nodes, Values, StackNodes, StackValues, StackFits;
    var frames := stack;
    assert entries[..|entries|] == entries;
    for k := |entries| downto 0
      invariant StackNodes(frames) + NodesOfEntries(entries[..k]) + (|entries| - k) == StackNodes(stack) + NodesOfEntries(entries)
      invariant StackValues(frames) + ValuesOfEntries(entries[..k]) == StackValues(stack) + ValuesOfEntries(entries)
      invariant StackFits(frames, rules) && EntriesFit(entries[..k], MAX_DEPTH - depth, rules) <==>
        StackFits(stack, rules) && EntriesFit(entries, MAX_DEPTH - depth, rules)
      invariant EntriesFit(entries, MAX_DEPTH - depth, rules) ==> EntriesFit(entries[..k], MAX_DEPTH - depth, rules)
    {
      assert entries[..k + 1][..k] == entries[..k] && entries[..k + 1][k] == entries[k];
      if !rules.keyOk(entries[k].key) {
        return None;
      }
      PushFrame(frames, Frame(entries[k].value, depth), rules);
      frames := frames + [Frame(entries[k].value, depth)];
    }
    assert entries[..0] == [];
    return Some(frames);
  }

  lemma TopFrame(stack: seq<Frame>, rules: Rules)
    requires stack != []
    ensures var rest, f := stack[..|stack| - 1], stack[|stack| - 1];
      && StackNodes(stack) == StackNodes(rest) + Nodes(f.value)
      && StackValues(stack) == StackValues(rest) + Values(f.value)
      && (StackFits(stack, rules) <==> StackFits(rest, rules) && FrameFits(f, rules))
  {
  }

  lemma OneFrame(value: Value, rules: Rules)
    ensures StackNodes([Frame(value, 0)]) == Nodes(value) && StackValues([Frame(value, 0)]) == Values(value)
    ensures StackFits([Frame(value, 0)], rules) <==> Fits(value, MAX_DEPTH, rules)
    ensures StackNodes([]) == 0 && StackValues([]) == 0 && StackFits([], rules)
  {
    assert [Frame(value, 0)][..0] == [];
  }

  /** The ledger's walk: it counts values and keys, and stops at the first list or dictionary too long for what is left. */
  method LedgerWalk(value: Value, rules: Rules) returns (r: Option<nat>)
    ensures r == if Accepted(value, rules) then Some(Nodes(value)) else None
  {
    hide StackNodes, StackValues, StackFits, NodesOfItems, NodesOfEntries, ItemsFit, EntriesFit, Values;
    var stack := [Frame(value, 0)];
    var nodes := 0;
    OneFrame(value, rules);
    while stack != []
      invariant nodes <= MAX_NODES && nodes + StackNodes(stack) == Nodes(value)
      invariant StackFits(stack, rules) <==> Fits(value, MAX_DEPTH, rules)
      decreases StackNodes(stack)
    {
      TopFrame(stack, rules);
      var current := stack[|stack| - 1];
      stack := stack[..|stack| - 1];
      nodes := nodes + 1;
      if nodes > MAX_NODES {
        return None;
      }
      if current.value.Scalar? {
        if !rules.leafOk(current.value.leaf) {
          return None;
        }
        continue;
      }
      if !current.value.List? && !current.value.Dict? {
        return None;
      }
      var depth := current.parentDepth + 1;
      if depth > MAX_DEPTH {
        return None;
      }
      if current.value.List? {
        if |current.value.items| > MAX_NODES - nodes {
          return None;
        }
        stack := PushItems(stack, current.value.items, depth, rules);
        continue;
      }
      if |current.value.entries| > (MAX_NODES - nodes) / 2 {
        return None;
      }
      var pushed := PushEntries(stack, current.value.entries, depth, rules);
      if pushed.None? {
        return None;
      }
      nodes := nodes + |current.value.entries|;
      stack := pushed.value;
    }
    return Some(nodes);
  }

  /** The store's walk: it counts values only. */
  method StoreWalk(value: Value, rules: Rules) returns (ok: bool)
    ensures ok <==> StoreAccepted(value, rules)
  {
    hide StackNodes, StackValues, StackFits, ValuesOfItems, ValuesOfEntries, ItemsFit, EntriesFit, Nodes;
    var stack := [Frame(value, 0)];
    var count := 0;
    OneFrame(value, rules);
    while stack != []
      invariant count <= MAX_NODES && count + StackValues(stack) == Values(value)
      invariant StackFits(stack, rules) <==> Fits(value, MAX_DEPTH, rules)
      decreases StackValues(stack)
    {
      TopFrame(stack, rules);
      var current := stack[|stack| - 1];
      stack := stack[..|stack| - 1];
      count := count + 1;
      if count > MAX_NODES {
        return false;
      }
      if current.value.Scalar? {
        if !rules.leafOk(current.value.leaf) {
          return false;
        }
        continue;
      }
      if !current.value.List? && !current.value.Dict? {
        return false;
      }
      var depth := current.parentDepth + 1;
      if depth > MAX_DEPTH {
        return false;
      }
      var length := if current.value.List? then |current.value.items| else |current.value.entries|;
      if length > MAX_NODES - count {
        return false;
      }
      if current.value.List? {
        stack := PushItems(stack, current.value.items, depth, rules);
        continue;
      }
      var pushed := PushEntries(stack, current.value.entries, depth, rules);
      if pushed.None? {
        return false;
      }
      stack := pushed.value;
    }
    return true;
  }

  /** The codec's recursive snapshot with its shared node counter. */
  class Snapshot {
    const rules: Rules
    var nodes: nat

    constructor (rules: Rules)
      ensures this.rules == rules && nodes == 0
    {
      this.rules, nodes := rules, 0;
    }

    method Take(value: Value, depth: nat) returns (r: Option<Value>)
      requires depth <= MAX_DEPTH && nodes <= MAX_NODES
      modifies this
      ensures r.Some? <==> old(nodes) + Nodes(value) <= MAX_NODES && Fits(value, MAX_DEPTH - depth, rules)
      ensures r.Some? ==> r.value == value && nodes == old(nodes) + Nodes(value)
      decreases value
    {
      hide NodesOfItems, NodesOfEntries, ItemsFit, EntriesFit;
      nodes := nodes + 1;
      if nodes > MAX_NODES {
        return None;
      }
      match value {
        case Scalar(leaf) =>
          return if rules.leafOk(leaf) then Some(value) else None;
        case List(items) =>
          if depth >= MAX_DEPTH {
            return None;
          }
          var copied := TakeItems(items, depth + 1);
          return if copied.Some? then Some(List(copied.value)) else None;
        case Dict(entries) =>
          if depth >= MAX_DEPTH {
            return None;
          }
          var copied := TakeEntries(entries, depth + 1);
          return if copied.Some? then Some(Dict(copied.value)) else None;
        case _ =>
          return None;
      }
    }

    method TakeItems(items: seq<Value>, depth: nat) returns (r: Option<seq<Value>>)
      requires 1 <= depth <= MAX_DEPTH && nodes <= MAX_NODES
      modifies this
      ensures r.Some? <==> old(nodes) + NodesOfItems(items) <= MAX_NODES && ItemsFit(items, MAX_DEPTH - depth, rules)
      ensures r.Some? ==> r.value == items && nodes == old(nodes) + NodesOfItems(items)
      decreases items
    {
      hide Nodes, Fits;
      var copied: seq<Value> := [];
      for i := 0 to |items|
        invariant copied == items[..i] && nodes == old(nodes) + NodesOfItems(items[..i]) && nodes <= MAX_NODES
        invariant ItemsFit(items[..i], MAX_DEPTH - depth, rules)
      {
        assert items[..i + 1][..i] == items[..i];
        ItemsPrefix(items, i + 1, MAX_DEPTH - depth, rules);
        var item := Take(items[i], depth);
        if item.None? {
          return None;
        }
        copied := copied + [item.value];
      }
      assert items[..|items|] == items;
      return Some(copied);
    }

    method TakeEntries(entries: seq<Entry>, depth: nat) returns (r: Option<seq<Entry>>)
      requires 1 <= depth <= MAX_DEPTH && nodes <= MAX_NODES
      modifies this
      ensures r.Some? <==> old(nodes) + NodesOfEntries(entries) <= MAX_NODES && EntriesFit(entries, MAX_DEPTH - depth, rules)
      ensures r.Some? ==> r.value == entries && nodes == old(nodes) + NodesOfEntries(entries)
      decreases entries
    {
      hide Nodes, Fits;
      var copied: seq<Entry> := [];
      for i := 0 to |entries|
        invariant copied == entries[..i] && nodes == old(nodes) + NodesOfEntries(entries[..i]) && nodes <= MAX_NODES
        invariant EntriesFit(entries[..i], MAX_DEPTH - depth, rules)
      {
        assert entries[..i + 1][..i] == entries[..i];
        EntriesPrefix(entries, i + 1, MAX_DEPTH - depth, rules);
        nodes := nodes + 1;
        if nodes > MAX_NODES || !rules.keyOk(entries[i].key) {
          return None;
        }
        var item := Take(entries[i].value, depth);
        if item.None? {
          return None;
        }
        copied := copied + [Entry(entries[i].key, item.value)];
      }
      assert entries[..|entries|] == entries;
      return Some(copied);
    }
  }

  lemma {:induction false} ItemsPrefix(items: seq<Value>, n: nat, room: nat, rules: Rules)
    requires n <= |items|
    ensures NodesOfItems(items[..n]) <= NodesOfItems(items) && (ItemsFit(items, room, rules) ==> ItemsFit(items[..n], room, rules))
    decreases |items| - n
  {
    hide Nodes, Fits;
    if n == |items| {
      assert items[..n] == items;
    } else {
      ItemsPrefix(items, n + 1, room, rules);
      assert items[..n + 1][..n] == items[..n];
    }
  }

  lemma {:induction false} EntriesPrefix(entries: seq<Entry>, n: nat, room: nat, rules: Rules)
    requires n <= |entries|
    ensures NodesOfEntries(entries[..n]) <= NodesOfEntries(entries) && (EntriesFit(entries, room, rules) ==> EntriesFit(entries[..n], room, rules))
    decreases |entries| - n
  {
    hide Nodes, Fits;
    if n == |entries| {
      assert entries[..n] == entries;
    } else {
      EntriesPrefix(entries, n + 1, room, rules);
      assert entries[..n + 1][..n] == entries[..n];
    }
  }

  /** The codec accepts exactly what the ledger's walk accepts, and the frozen copy thaws back to the value. */
  method Encode(value: Value, rules: Rules) returns (r: Option<Value>)
    ensures r.Some? <==> Accepted(value, rules)
    ensures r.Some? ==> IsFrozen(r.value) && Thaw(r.value) == value
  {
    hide Fits, Nodes, Freeze, Thaw, IsFrozen;
    var snapshot := new Snapshot(rules);
    var copied := snapshot.Take(value, 0);
    if copied.None? {
      return None;
    }
    ThawUndoesFreeze(value, MAX_DEPTH, rules);
    return Some(Freeze(copied.value));
  }
}
