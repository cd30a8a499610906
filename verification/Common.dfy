/** Small shared vocabulary: optional values and the code-point order SQLite's BINARY collation uses. */
module Common {

  datatype Option<+T> = None | Some(value: T)

  /** SHA-256 as a collision-free function: a digest is known by what it digests. */
  datatype Digest = Sha256(preimage: string)

  /** Strict lexicographic order on texts: UTF-8 byte order and code-point order agree. */
  predicate Before(a: string, b: string)
    decreases |a|
  {
    b != [] && (a == [] || a[0] < b[0] || (a[0] == b[0] && Before(a[1..], b[1..])))
  }

  lemma {:induction false} BeforeIsStrict(a: string, b: string)
    ensures !(Before(a, b) && Before(b, a))
    ensures !Before(a, a)
    decreases |a|
  {
    if a != [] && b != [] {
      BeforeIsStrict(a[1..], b[1..]);
    }
    if a != [] {
      BeforeIsStrict(a[1..], a[1..]);
    }
  }

  /** One text comes before another by the first character in which they differ, or as its beginning. */
  lemma {:induction false} BeforeByFirstDifference(a: string, b: string, n: nat)
    requires n <= |a| && n <= |b| && a[..n] == b[..n]
    ensures n == |a| && n < |b| ==> Before(a, b)
    ensures n < |a| && n == |b| ==> !Before(a, b)
    ensures n < |a| && n < |b| && a[n] != b[n] ==> (Before(a, b) <==> a[n] < b[n])
    decreases n
  {
    if n > 0 {
      assert a[0] == a[..n][0] && b[0] == b[..n][0];
      assert a[1..][..n - 1] == a[..n][1..] && b[1..][..n - 1] == b[..n][1..];
      BeforeByFirstDifference(a[1..], b[1..], n - 1);
    }
  }

  lemma {:induction false} BeforeIsTotal(a: string, b: string)
    ensures a == b || Before(a, b) || Before(b, a)
    decreases |a|
  {
    if a != [] && b != [] && a[0] == b[0] {
      BeforeIsTotal(a[1..], b[1..]);
      assert a == [a[0]] + a[1..] && b == [b[0]] + b[1..];
    }
  }

  lemma {:induction false} BeforeIsTransitive(a: string, b: string, c: string)
    requires Before(a, b) && Before(b, c)
    ensures Before(a, c)
    decreases |a|
  {
    if a != [] && b != [] && c != [] && a[0] == b[0] == c[0] {
      BeforeIsTransitive(a[1..], b[1..], c[1..]);
    }
  }

  /** The element of a one-element set. */
  function Only<T(==)>(s: set<T>): (x: T)
    requires |s| == 1
    ensures s == {x}
  {
    OneElement(s);
    var x :| x in s && s == {x};
    x
  }

  lemma OneElement<T>(s: set<T>)
    requires |s| == 1
    ensures exists x :: x in s && s == {x}
  {
    var x :| x in s;
    assert |s - {x}| == 0;
    assert s == {x};
  }
}
