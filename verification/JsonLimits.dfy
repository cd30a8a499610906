/** Artifact metadata as value trees: what the three limit checkers measure, and freezing. */
module JsonLimits {
  import opened Common

  const MAX_NODES: nat := 10000
  const MAX_DEPTH: nat := 64

  /** A number is an integer or a float that is finite or not. */
  datatype Leaf = Null | Flag(value: bool) | Text(text: string) | Integer(number: int) | Float(finite: bool)

  /** Python values: the JSON containers, their frozen forms, and leaves. */
  datatype Value =
    | Scalar(leaf: Leaf)
    | List(items: seq<Value>)
    | Dict(entries: seq<Entry>)
    | Tuple(frozenItems: seq<Value>)
    | Proxy(frozenEntries: seq<Entry>)

  datatype Entry = Entry(key: string, value: Value)

  /** What a checker asks of leaves and keys. */
  datatype Rules = Rules(leafOk: Leaf -> bool, keyOk: string -> bool)

  // ----- Measures -----

  /** Values and keys of a tree. */
  function Nodes(v: Value): (n: nat)
    ensures n >= 1
  {
    match v
    case List(items) => 1 + NodesOfItems(items)
    case Dict(entries) => 1 + NodesOfEntries(entries)
    case _ => 1
  }

  function NodesOfItems(items: seq<Value>): (n: nat)
    ensures n >= |items|
  {
    if items == [] then 0 else NodesOfItems(items[..|items| - 1]) + Nodes(items[|items| - 1])
  }

  function NodesOfEntries(entries: seq<Entry>): (n: nat)
    ensures n >= 2 * |entries|
  {
    if entries == [] then 0 else NodesOfEntries(entries[..|entries| - 1]) + 1 + Nodes(entries[|entries| - 1].value)
  }

  /** Values of a tree, keys not counted. */
  function Values(v: Value): (n: nat)
    ensures n >= 1
  {
    match v
    case List(items) => 1 + ValuesOfItems(items)
    case Dict(entries) => 1 + ValuesOfEntries(entries)
    case _ => 1
  }

  function ValuesOfItems(items: seq<Value>): (n: nat)
    ensures n >= |items|
  {
    if items == [] then 0 else ValuesOfItems(items[..|items| - 1]) + Values(items[|items| - 1])
  }

  function ValuesOfEntries(entries: seq<Entry>): (n: nat)
    ensures n >= |entries|
  {
    if entries == [] then 0 else ValuesOfEntries(entries[..|entries| - 1]) + Values(entries[|entries| - 1].value)
  }

  /** The keys of a tree. */
  function Keys(v: Value): nat {
    match v
    case List(items) => KeysOfItems(items)
    case Dict(entries) => KeysOfEntries(entries)
    case _ => 0
  }

  function KeysOfItems(items: seq<Value>): nat {
    if items == [] then 0 else KeysOfItems(items[..|items| - 1]) + Keys(items[|items| - 1])
  }

  function KeysOfEntries(entries: seq<Entry>): nat {
    if entries == [] then 0 else KeysOfEntries(entries[..|entries| - 1]) + 1 + Keys(entries[|entries| - 1].value)
  }

  /** Only leaves, lists and dictionaries, all leaves and keys within the rules, and at most `room` containers deep. */
  predicate Fits(v: Value, room: nat, rules: Rules) {
    match v
    case Scalar(leaf) => rules.leafOk(leaf)
    case List(items) => room > 0 && ItemsFit(items, room - 1, rules)
    case Dict(entries) => room > 0 && EntriesFit(entries, room - 1, rules)
    case _ => false
  }

  predicate ItemsFit(items: seq<Value>, room: nat, rules: Rules) {
    items == [] || (ItemsFit(items[..|items| - 1], room, rules) && Fits(items[|items| - 1], room, rules))
  }

  predicate EntriesFit(entries: seq<Entry>, room: nat, rules: Rules) {
    entries == [] ||
    (EntriesFit(entries[..|entries| - 1], room, rules) && rules.keyOk(entries[|entries| - 1].key)
     && Fits(entries[|entries| - 1].value, room, rules))
  }

  /** What the ledger and the codec accept. */
  predicate Accepted(v: Value, rules: Rules) {
    Nodes(v) <= MAX_NODES && Fits(v, MAX_DEPTH, rules)
  }

  /** What the artifact store accepts. */
  predicate StoreAccepted(v: Value, rules: Rules) {
    Values(v) <= MAX_NODES && Fits(v, MAX_DEPTH, rules)
  }

  // ----- How the counts compare -----

  lemma {:induction false} NodesAreValuesAndKeys(v: Value)
    ensures Nodes(v) == Values(v) + Keys(v)
    decreases v
  {
    match v {
      case List(items) => ItemNodesAreValuesAndKeys(items);
      case Dict(entries) => EntryNodesAreValuesAndKeys(entries);
      case _ =>
    }
  }

  lemma {:induction false} ItemNodesAreValuesAndKeys(items: seq<Value>)
    ensures NodesOfItems(items) == ValuesOfItems(items) + KeysOfItems(items)
    decreases items
  {
    if items != [] {
      ItemNodesAreValuesAndKeys(items[..|items| - 1]);
      NodesAreValuesAndKeys(items[|items| - 1]);
    }
  }

  lemma {:induction false} EntryNodesAreValuesAndKeys(entries: seq<Entry>)
    ensures NodesOfEntries(entries) == ValuesOfEntries(entries) + KeysOfEntries(entries)
    decreases entries
  {
    if entries != [] {
      EntryNodesAreValuesAndKeys(entries[..|entries| - 1]);
      NodesAreValuesAndKeys(entries[|entries| - 1].value);
    }
  }

  /** The store accepts whatever the ledger and the codec accept under the same rules. */
  lemma AcceptedIsStoreAccepted(v: Value, rules: Rules)
    ensures Accepted(v, rules) ==> StoreAccepted(v, rules)
    ensures Accepted(v, rules) <==> StoreAccepted(v, rules) && Values(v) + Keys(v) <= MAX_NODES
  {
    hide Fits;
    NodesAreValuesAndKeys(v);
  }

  function Records(n: nat): seq<Value> {
    if n == 0 then [] else Records(n - 1) + [Dict([Entry("k", Scalar(Null))])]
  }

  lemma {:induction false} CountRecords(n: nat, rules: Rules)
    requires rules.keyOk("k") && rules.leafOk(Null)
    ensures NodesOfItems(Records(n)) == 3 * n && ValuesOfItems(Records(n)) == 2 * n && ItemsFit(Records(n), MAX_DEPTH - 1, rules)
  {
    if n > 0 {
      CountRecords(n - 1, rules);
      var one := [Entry("k", Scalar(Null))];
      assert one[..0] == [];
      assert Fits(one[0].value, MAX_DEPTH - 2, rules);
      assert EntriesFit(one[..0], MAX_DEPTH - 2, rules);
      assert NodesOfEntries(one) == 2 && ValuesOfEntries(one) == 1 && EntriesFit(one, MAX_DEPTH - 2, rules);
      assert Records(n)[..|Records(n)| - 1] == Records(n - 1);
    }
  }

  /** The converse fails: 3,400 one-key records pass the store but not the others. */
  lemma StoreAcceptsMore(rules: Rules)
    requires rules.keyOk("k") && rules.leafOk(Null)
    ensures StoreAccepted(List(Records(3400)), rules) && !Accepted(List(Records(3400)), rules)
  {
    CountRecords(3400, rules);
  }

  // ----- Freezing -----

  function Freeze(v: Value): Value {
    match v
    case Dict(entries) => Proxy(FreezeEntries(entries))
    case List(items) => Tuple(FreezeItems(items))
    case _ => v
  }

  function FreezeItems(items: seq<Value>): seq<Value> {
    if items == [] then [] else FreezeItems(items[..|items| - 1]) + [Freeze(items[|items| - 1])]
  }

  function FreezeEntries(entries: seq<Entry>): seq<Entry> {
    if entries == [] then [] else
    var last := entries[|entries| - 1];
    FreezeEntries(entries[..|entries| - 1]) + [Entry(last.key, Freeze(last.value))]
  }

  function Thaw(v: Value): Value {
    match v
    case Proxy(entries) => Dict(ThawEntries(entries))
    case Tuple(items) => List(ThawItems(items))
    case _ => v
  }

  function ThawItems(items: seq<Value>): seq<Value> {
    if items == [] then [] else ThawItems(items[..|items| - 1]) + [Thaw(items[|items| - 1])]
  }

  function ThawEntries(entries: seq<Entry>): seq<Entry> {
    if entries == [] then [] else
    var last := entries[|entries| - 1];
    ThawEntries(entries[..|entries| - 1]) + [Entry(last.key, Thaw(last.value))]
  }

  /** No mutable container anywhere inside. */
  predicate IsFrozen(v: Value) {
    match v
    case Scalar(_) => true
    case Tuple(items) => AllFrozen(items)
    case Proxy(entries) => EntriesFrozen(entries)
    case _ => false
  }

  predicate AllFrozen(items: seq<Value>) {
    items == [] || (AllFrozen(items[..|items| - 1]) && IsFrozen(items[|items| - 1]))
  }

  predicate EntriesFrozen(entries: seq<Entry>) {
    entries == [] || (EntriesFrozen(entries[..|entries| - 1]) && IsFrozen(entries[|entries| - 1].value))
  }

  /** Freezing a JSON tree leaves nothing mutable, and thawing gives the tree back. */
  lemma {:induction false} ThawUndoesFreeze(v: Value, room: nat, rules: Rules)
    requires Fits(v, room, rules)
    ensures Thaw(Freeze(v)) == v && IsFrozen(Freeze(v))
    decreases v
  {
    match v {
      case Dict(entries) => ThawEntriesUndoesFreeze(entries, room - 1, rules);
      case List(items) => ThawItemsUndoesFreeze(items, room - 1, rules);
      case Scalar(_) =>
    }
  }

  lemma {:induction false} ThawItemsUndoesFreeze(items: seq<Value>, room: nat, rules: Rules)
    requires ItemsFit(items, room, rules)
    ensures ThawItems(FreezeItems(items)) == items && AllFrozen(FreezeItems(items))
    decreases items
  {
    if items != [] {
      var front, last := items[..|items| - 1], items[|items| - 1];
      ThawItemsUndoesFreeze(front, room, rules);
      ThawUndoesFreeze(last, room, rules);
      assert FreezeItems(items)[..|FreezeItems(items)| - 1] == FreezeItems(front);
      assert items == front + [last];
    }
  }

  lemma {:induction false} ThawEntriesUndoesFreeze(entries: seq<Entry>, room: nat, rules: Rules)
    requires EntriesFit(entries, room, rules)
    ensures ThawEntries(FreezeEntries(entries)) == entries && EntriesFrozen(FreezeEntries(entries))
    decreases entries
  {
    if entries != [] {
      var front, last := entries[..|entries| - 1], entries[|entries| - 1];
      ThawEntriesUndoesFreeze(front, room, rules);
      ThawUndoesFreeze(last.value, room, rules);
      assert FreezeEntries(entries)[..|FreezeEntries(entries)| - 1] == FreezeEntries(front);
      assert entries == front + [last];
    }
  }
}
