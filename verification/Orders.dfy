/** ORDER BY for any strict total order: the least element of a finite set and the set listed in order. */
module Orders {

  ghost predicate StrictTotal<T(!new)>(less: (T, T) -> bool) {
    && (forall x :: !less(x, x))
    && (forall x, y :: x == y || less(x, y) || less(y, x))
    && (forall x, y, z :: less(x, y) && less(y, z) ==> less(x, z))
  }

  predicate IsLeast<T>(less: (T, T) -> bool, k: T, s: set<T>) {
    k in s && forall o | o in s :: o == k || less(k, o)
  }

  lemma {:induction false} LeastExists<T(!new)>(less: (T, T) -> bool, s: set<T>)
    requires StrictTotal(less) && s != {}
    ensures exists k :: IsLeast(less, k, s)
  {
    var some :| some in s;
    var rest := s - {some};
    assert s == rest + {some};
    if rest == {} {
      assert IsLeast(less, some, s);
    } else {
      LeastExists(less, rest);
      var m :| IsLeast(less, m, rest);
      var k := if less(m, some) then m else some;
      assert IsLeast(less, k, s);
    }
  }

  function Least<T(!new)>(less: (T, T) -> bool, s: set<T>): (k: T)
    requires StrictTotal(less) && s != {}
    ensures IsLeast(less, k, s)
  {
    LeastExists(less, s);
    var k :| IsLeast(less, k, s);
    k
  }

  function Listed<T(!new)>(less: (T, T) -> bool, s: set<T>): (rows: seq<T>)
    requires StrictTotal(less)
    ensures forall k :: k in rows <==> k in s
    ensures |rows| == |s|
  {
    if s == {} then [] else
      var k := Least(less, s);
      [k] + Listed(less, s - {k})
  }

  ghost predicate Increasing<T>(less: (T, T) -> bool, rows: seq<T>) {
    forall i, j | 0 <= i < j < |rows| :: less(rows[i], rows[j])
  }

  lemma {:induction false} ListedIsIncreasing<T(!new)>(less: (T, T) -> bool, s: set<T>)
    requires StrictTotal(less)
    ensures Increasing(less, Listed(less, s))
  {
    if s != {} {
      var k := Least(less, s);
      ListedIsIncreasing(less, s - {k});
      var rest := Listed(less, s - {k});
      forall i, j | 0 <= i < j < |Listed(less, s)| ensures less(Listed(less, s)[i], Listed(less, s)[j]) {
        assert rest[j - 1] in rest;
      }
    }
  }

  lemma HeadIsNotInTail<T(!new)>(less: (T, T) -> bool, xs: seq<T>)
    requires StrictTotal(less) && Increasing(less, xs) && xs != []
    ensures xs[0] !in xs[1..] && xs == [xs[0]] + xs[1..]
  {
    forall i | 0 <= i < |xs[1..]| ensures xs[1..][i] != xs[0] {
      assert less(xs[0], xs[i + 1]);
    }
  }

  /** An increasing listing is determined by its elements. */
  lemma {:induction false} IncreasingIsUnique<T(!new)>(less: (T, T) -> bool, xs: seq<T>, ys: seq<T>)
    requires StrictTotal(less) && Increasing(less, xs) && Increasing(less, ys)
    requires forall k :: k in xs <==> k in ys
    ensures xs == ys
  {
    assert xs != [] ==> xs[0] in xs;
    assert ys != [] ==> ys[0] in ys;
    if xs != [] && ys != [] {
      assert xs[0] in ys && ys[0] in xs;
      assert xs[0] == ys[0];
      HeadIsNotInTail(less, xs);
      HeadIsNotInTail(less, ys);
      forall k ensures k in xs[1..] <==> k in ys[1..] {
        assert k in xs <==> k == xs[0] || k in xs[1..];
        assert k in ys <==> k == ys[0] || k in ys[1..];
      }
      IncreasingIsUnique(less, xs[1..], ys[1..]);
    }
  }

  /** Stable insertion: behind every element it is not less than. */
  function InsertBehind<T>(less: (T, T) -> bool, sorted: seq<T>, x: T): (rows: seq<T>)
    ensures multiset(rows) == multiset(sorted) + multiset{x}
  {
    if sorted != [] && less(x, sorted[|sorted| - 1]) then
      assert sorted == sorted[..|sorted| - 1] + [sorted[|sorted| - 1]];
      InsertBehind(less, sorted[..|sorted| - 1], x) + [sorted[|sorted| - 1]]
    else sorted + [x]
  }

  /** Python's stable `sorted`. */
  function Sorted<T>(less: (T, T) -> bool, xs: seq<T>): (rows: seq<T>)
    ensures multiset(rows) == multiset(xs)
  {
    if xs == [] then [] else
      assert xs == xs[..|xs| - 1] + [xs[|xs| - 1]];
      InsertBehind(less, Sorted(less, xs[..|xs| - 1]), xs[|xs| - 1])
  }

  /** Sorting leaves an increasing sequence alone. */
  lemma {:induction false} SortedIncreasing<T(!new)>(less: (T, T) -> bool, xs: seq<T>)
    requires StrictTotal(less) && Increasing(less, xs)
    ensures Sorted(less, xs) == xs
  {
    hide StrictTotal, Increasing, InsertBehind, Sorted;
    SortedStep(less, xs);
    if xs != [] {
      var front, last := xs[..|xs| - 1], xs[|xs| - 1];
      IncreasingFront(less, xs);
      SortedIncreasing(less, front);
      if front != [] {
        Asymmetric(less, front[|front| - 1], last);
      }
      InsertAtEnd(less, front, last);
      assert xs == front + [last];
    }
  }

  lemma SortedStep<T(!new)>(less: (T, T) -> bool, xs: seq<T>)
    ensures xs == [] ==> Sorted(less, xs) == []
    ensures xs != [] ==> Sorted(less, xs) == InsertBehind(less, Sorted(less, xs[..|xs| - 1]), xs[|xs| - 1])
  {
  }

  lemma IncreasingFront<T(!new)>(less: (T, T) -> bool, xs: seq<T>)
    requires Increasing(less, xs) && xs != []
    ensures var front := xs[..|xs| - 1];
      Increasing(less, front) && (front != [] ==> less(front[|front| - 1], xs[|xs| - 1]))
  {
  }

  lemma InsertAtEnd<T(!new)>(less: (T, T) -> bool, sorted: seq<T>, x: T)
    requires sorted == [] || !less(x, sorted[|sorted| - 1])
    ensures InsertBehind(less, sorted, x) == sorted + [x]
  {
  }

  lemma Asymmetric<T(!new)>(less: (T, T) -> bool, x: T, y: T)
    requires StrictTotal(less) && less(x, y)
    ensures !less(y, x)
  {
  }

  /** A strict order in which elements of equal rank may differ. */
  ghost predicate StrictWeak<T(!new)>(less: (T, T) -> bool) {
    && (forall x, y :: less(x, y) ==> !less(y, x))
    && (forall x, y, z :: less(x, z) ==> less(x, y) || less(y, z))
  }

  ghost predicate NonDecreasing<T>(less: (T, T) -> bool, rows: seq<T>) {
    forall i, j | 0 <= i < j < |rows| :: !less(rows[j], rows[i])
  }

  lemma {:induction false} InsertKeepsOrder<T(!new)>(less: (T, T) -> bool, sorted: seq<T>, x: T)
    requires StrictWeak(less) && NonDecreasing(less, sorted)
    ensures NonDecreasing(less, InsertBehind(less, sorted, x))
  {
    if sorted != [] && less(x, sorted[|sorted| - 1]) {
      var front, last := sorted[..|sorted| - 1], sorted[|sorted| - 1];
      InsertKeepsOrder(less, front, x);
      var rows := InsertBehind(less, front, x);
      forall i | 0 <= i < |rows| ensures !less(last, rows[i]) {
        assert rows[i] in multiset(rows);
        if rows[i] != x {
          var k :| 0 <= k < |front| && front[k] == rows[i];
          assert sorted[k] == rows[i];
        }
      }
    } else {
      forall i | 0 <= i < |sorted| ensures !less(x, sorted[i]) {
        assert i == |sorted| - 1 || !less(sorted[|sorted| - 1], sorted[i]);
      }
    }
  }

  /** Sorting sorts. */
  lemma {:induction false} SortedIsNonDecreasing<T(!new)>(less: (T, T) -> bool, xs: seq<T>)
    requires StrictWeak(less)
    ensures NonDecreasing(less, Sorted(less, xs))
  {
    hide StrictWeak, NonDecreasing, InsertBehind, Sorted;
    SortedStep(less, xs);
    if xs == [] {
      NothingIsOrdered(less);
    } else {
      SortedIsNonDecreasing(less, xs[..|xs| - 1]);
      InsertKeepsOrder(less, Sorted(less, xs[..|xs| - 1]), xs[|xs| - 1]);
    }
  }

  lemma NothingIsOrdered<T>(less: (T, T) -> bool)
    ensures NonDecreasing(less, [])
  {
  }
}
