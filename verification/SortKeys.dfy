/** ORDER BY over invocation rows: a key of three numbers and an id. */
module SortKeys {
  import opened Common
  import Orders

  datatype SortKey = SortKey(first: int, second: int, third: int, id: string)

  predicate Precedes(x: SortKey, y: SortKey) {
    x.first < y.first || (x.first == y.first &&
    (x.second < y.second || (x.second == y.second &&
    (x.third < y.third || (x.third == y.third && Before(x.id, y.id))))))
  }

  lemma PrecedesIsStrictTotal(x: SortKey, y: SortKey)
    ensures !(Precedes(x, y) && Precedes(y, x)) && !Precedes(x, x)
    ensures x == y || Precedes(x, y) || Precedes(y, x)
  {
    BeforeIsStrict(x.id, y.id);
    BeforeIsTotal(x.id, y.id);
  }

  lemma PrecedesIsAnOrder()
    ensures Orders.StrictTotal(Precedes)
  {
    forall x, y ensures !Precedes(x, x) && (x == y || Precedes(x, y) || Precedes(y, x)) {
      PrecedesIsStrictTotal(x, y);
    }
    forall x, y, z | Precedes(x, y) && Precedes(y, z) ensures Precedes(x, z) {
      if Before(x.id, y.id) && Before(y.id, z.id) {
        BeforeIsTransitive(x.id, y.id, z.id);
      }
    }
  }

  predicate IsLeast(k: SortKey, keys: set<SortKey>) {
    k in keys && forall o | o in keys :: o == k || Precedes(k, o)
  }

  function Least(keys: set<SortKey>): (k: SortKey)
    requires keys != {}
    ensures IsLeast(k, keys)
  {
    PrecedesIsAnOrder();
    Orders.Least(Precedes, keys)
  }

  /** The rows of a query in ORDER BY order. */
  function Ordered(keys: set<SortKey>): (rows: seq<SortKey>)
    ensures forall k :: k in rows <==> k in keys
    ensures |rows| == |keys|
  {
    PrecedesIsAnOrder();
    Orders.Listed(Precedes, keys)
  }

  lemma OrderedIsIncreasing(keys: set<SortKey>)
    ensures forall i, j | 0 <= i < j < |Ordered(keys)| :: Precedes(Ordered(keys)[i], Ordered(keys)[j])
  {
    PrecedesIsAnOrder();
    Orders.ListedIsIncreasing(Precedes, keys);
  }
}
