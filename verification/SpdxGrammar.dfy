/** License expressions: trees of the WITH > AND > OR grammar, their printout, and the recursive-descent reading of a
    token list. */
module SpdxGrammar {

  /** Invalid is `license_expression_invalid`, Unknown is `license_expression_unknown`; NonCanonical and Unsafe are raised
      on text only. */
  datatype Fault = Invalid | Unknown | NonCanonical | Unsafe

  /** What the parser tells apart about a token. */
  datatype Kind = OpenToken | CloseToken | AndToken | OrToken | WithToken | UnknownToken | WordToken

  const OPEN: string := "("
  const CLOSE: string := ")"
  const AND: string := "AND"
  const OR: string := "OR"
  const WITH: string := "WITH"

  function KindOf(token: string): Kind {
    if token == OPEN then OpenToken
    else if token == CLOSE then CloseToken
    else if token == AND then AndToken
    else if token == OR then OrToken
    else if token == WITH then WithToken
    else if token == "NONE" || token == "NOASSERTION" then UnknownToken
    else WordToken
  }

  lemma KindOfMarks()
    ensures KindOf(OPEN) == OpenToken && KindOf(CLOSE) == CloseToken
    ensures KindOf(AND) == AndToken && KindOf(OR) == OrToken && KindOf(WITH) == WithToken
  {
  }

  lemma MarkOfKind(token: string)
    ensures KindOf(token).OpenToken? ==> token == OPEN
    ensures KindOf(token).CloseToken? ==> token == CLOSE
    ensures KindOf(token).AndToken? ==> token == AND
    ensures KindOf(token).OrToken? ==> token == OR
    ensures KindOf(token).WithToken? ==> token == WITH
  {
  }

  // ----- Trees and their printout -----

  datatype Tree =
    | License(id: string)
    | Paren(inner: Tree)
    | With(base: Tree, exception: string)
    | And(left: Tree, right: Tree)
    | Or(left: Tree, right: Tree)

  /** An exception may be any token but an operator or a parenthesis. */
  predicate IsException(token: string) {
    KindOf(token) in {WordToken, UnknownToken}
  }

  predicate IsPrimary(t: Tree)
    decreases t, 0
  {
    match t
    case License(id) => KindOf(id).WordToken?
    case Paren(inner) => IsExpression(inner)
    case _ => false
  }

  predicate IsLicensed(t: Tree)
    decreases t, 1
  {
    if t.With? then IsPrimary(t.base) && IsException(t.exception) else IsPrimary(t)
  }

  predicate IsConjunction(t: Tree)
    decreases t, 2
  {
    if t.And? then IsConjunction(t.left) && IsLicensed(t.right) else IsLicensed(t)
  }

  /** WITH binds tightest, then AND, then OR; AND and OR associate to the left. */
  predicate IsExpression(t: Tree)
    decreases t, 3
  {
    if t.Or? then IsExpression(t.left) && IsConjunction(t.right) else IsConjunction(t)
  }

  function Printout(t: Tree): (tokens: seq<string>)
    ensures tokens != []
  {
    match t
    case License(id) => [id]
    case Paren(inner) => [OPEN] + Printout(inner) + [CLOSE]
    case With(base, exception) => Printout(base) + [WITH, exception]
    case And(left, right) => Printout(left) + [AND] + Printout(right)
    case Or(left, right) => Printout(left) + [OR] + Printout(right)
  }

  // ----- Reading a token list -----

  /** The tree read and the offset behind it, or the fault raised. */
  datatype Parsed = Parsed(tree: Tree, next: nat) | Failed(fault: Fault)

  predicate At(tokens: seq<string>, i: nat, kind: Kind) {
    i < |tokens| && KindOf(tokens[i]) == kind
  }

  function PrimaryAt(tokens: seq<string>, i: nat): (r: Parsed)
    ensures r.Parsed? ==> i < r.next <= |tokens|
    decreases |tokens| - i, 0
  {
    if i >= |tokens| then Failed(Invalid) else
    match KindOf(tokens[i])
    case OpenToken =>
      var inner := ExpressionAt(tokens, i + 1);
      if inner.Failed? then inner
      else if At(tokens, inner.next, CloseToken) then Parsed(Paren(inner.tree), inner.next + 1) else Failed(Invalid)
    case UnknownToken => Failed(Unknown)
    case WordToken => Parsed(License(tokens[i]), i + 1)
    case _ => Failed(Invalid)
  }

  function LicensedAt(tokens: seq<string>, i: nat): (r: Parsed)
    ensures r.Parsed? ==> i < r.next <= |tokens|
    decreases |tokens| - i, 1
  {
    var base := PrimaryAt(tokens, i);
    if base.Failed? || !At(tokens, base.next, WithToken) then base
    else if base.next + 1 < |tokens| && IsException(tokens[base.next + 1])
    then Parsed(With(base.tree, tokens[base.next + 1]), base.next + 2)
    else Failed(Invalid)
  }

  function ConjunctionAt(tokens: seq<string>, i: nat): (r: Parsed)
    ensures r.Parsed? ==> i < r.next <= |tokens|
    decreases |tokens| - i, 2
  {
    var first := LicensedAt(tokens, i);
    if first.Failed? then first else MoreConjuncts(tokens, first.tree, first.next)
  }

  /** The AND loop with the conjuncts read so far. */
  function MoreConjuncts(tokens: seq<string>, sofar: Tree, i: nat): (r: Parsed)
    requires i <= |tokens|
    ensures r.Parsed? ==> i <= r.next <= |tokens|
    decreases |tokens| - i, 2
  {
    if !At(tokens, i, AndToken) then Parsed(sofar, i) else
    var next := LicensedAt(tokens, i + 1);
    if next.Failed? then next else MoreConjuncts(tokens, And(sofar, next.tree), next.next)
  }

  function ExpressionAt(tokens: seq<string>, i: nat): (r: Parsed)
    ensures r.Parsed? ==> i < r.next <= |tokens|
    decreases |tokens| - i, 3
  {
    var first := ConjunctionAt(tokens, i);
    if first.Failed? then first else MoreDisjuncts(tokens, first.tree, first.next)
  }

  /** The OR loop with the disjuncts read so far. */
  function MoreDisjuncts(tokens: seq<string>, sofar: Tree, i: nat): (r: Parsed)
    requires i <= |tokens|
    ensures r.Parsed? ==> i <= r.next <= |tokens|
    decreases |tokens| - i, 3
  {
    if !At(tokens, i, OrToken) then Parsed(sofar, i) else
    var next := ConjunctionAt(tokens, i + 1);
    if next.Failed? then next else MoreDisjuncts(tokens, Or(sofar, next.tree), next.next)
  }

  /** The whole list must be one expression. */
  function Parse(tokens: seq<string>): Parsed {
    var r := ExpressionAt(tokens, 0);
    if r.Parsed? && r.next != |tokens| then Failed(Invalid) else r
  }

  // ----- Soundness: what is read is the printout of a tree -----

  ghost predicate Reads(tokens: seq<string>, i: nat, t: Tree, n: nat) {
    i <= n <= |tokens| && tokens[i..n] == Printout(t)
  }

  lemma JoinReads(tokens: seq<string>, i: nat, left: Tree, m: nat, right: Tree, n: nat)
    requires Reads(tokens, i, left, m) && Reads(tokens, m + 1, right, n)
    ensures KindOf(tokens[m]).AndToken? ==> Reads(tokens, i, And(left, right), n)
    ensures KindOf(tokens[m]).OrToken? ==> Reads(tokens, i, Or(left, right), n)
  {
    hide KindOf;
    MarkOfKind(tokens[m]);
    assert tokens[i..n] == tokens[i..m] + [tokens[m]] + tokens[m + 1..n];
  }

  lemma {:induction false} PrimaryIsSound(tokens: seq<string>, i: nat)
    ensures var r := PrimaryAt(tokens, i); r.Parsed? ==> IsPrimary(r.tree) && Reads(tokens, i, r.tree, r.next)
    decreases |tokens| - i, 0
  {
    hide KindOf, ExpressionAt, IsExpression;
    var r := PrimaryAt(tokens, i);
    if r.Parsed? && At(tokens, i, OpenToken) {
      ExpressionIsSound(tokens, i + 1);
      var inner := ExpressionAt(tokens, i + 1);
      MarkOfKind(tokens[i]);
      MarkOfKind(tokens[inner.next]);
      assert tokens[i..r.next] == [tokens[i]] + tokens[i + 1..inner.next] + [tokens[inner.next]];
    }
  }

  lemma {:induction false} LicensedIsSound(tokens: seq<string>, i: nat)
    ensures var r := LicensedAt(tokens, i); r.Parsed? ==> IsLicensed(r.tree) && Reads(tokens, i, r.tree, r.next)
    decreases |tokens| - i, 1
  {
    hide KindOf, PrimaryAt, IsException;
    PrimaryIsSound(tokens, i);
    var base, r := PrimaryAt(tokens, i), LicensedAt(tokens, i);
    if r.Parsed? && At(tokens, base.next, WithToken) {
      MarkOfKind(tokens[base.next]);
      assert tokens[i..r.next] == tokens[i..base.next] + [tokens[base.next], tokens[base.next + 1]];
    }
  }

  lemma {:induction false} ConjunctionIsSound(tokens: seq<string>, i: nat)
    ensures var r := ConjunctionAt(tokens, i); r.Parsed? ==> IsConjunction(r.tree) && Reads(tokens, i, r.tree, r.next)
    decreases |tokens| - i, 2
  {
    hide KindOf, LicensedAt, MoreConjuncts, IsLicensed;
    LicensedIsSound(tokens, i);
    var first := LicensedAt(tokens, i);
    if first.Parsed? {
      LicensedIsConjunction(first.tree);
      ConjunctsAreSound(tokens, i, first.tree, first.next);
    }
  }

  lemma LicensedIsConjunction(t: Tree)
    requires IsLicensed(t)
    ensures IsConjunction(t)
  {
    assert !IsPrimary(t) || !t.And?;
  }

  lemma ConjunctionIsExpression(t: Tree)
    requires IsConjunction(t)
    ensures IsExpression(t)
  {
    assert !t.Or? by {
      assert IsPrimary(t) ==> !t.Or?;
      assert IsLicensed(t) ==> !t.Or?;
    }
  }

  lemma {:induction false} ConjunctsAreSound(tokens: seq<string>, start: nat, sofar: Tree, i: nat)
    requires Reads(tokens, start, sofar, i) && IsConjunction(sofar)
    ensures var r := MoreConjuncts(tokens, sofar, i); r.Parsed? ==> IsConjunction(r.tree) && Reads(tokens, start, r.tree, r.next)
    decreases |tokens| - i, 2
  {
    hide KindOf, LicensedAt, IsLicensed;
    if At(tokens, i, AndToken) {
      LicensedIsSound(tokens, i + 1);
      var next := LicensedAt(tokens, i + 1);
      if next.Parsed? {
        JoinReads(tokens, start, sofar, i, next.tree, next.next);
        ConjunctsAreSound(tokens, start, And(sofar, next.tree), next.next);
      }
    }
  }

  lemma {:induction false} ExpressionIsSound(tokens: seq<string>, i: nat)
    ensures var r := ExpressionAt(tokens, i); r.Parsed? ==> IsExpression(r.tree) && Reads(tokens, i, r.tree, r.next)
    decreases |tokens| - i, 3
  {
    hide KindOf, ConjunctionAt, MoreDisjuncts, IsConjunction;
    ConjunctionIsSound(tokens, i);
    var first := ConjunctionAt(tokens, i);
    if first.Parsed? {
      ConjunctionIsExpression(first.tree);
      DisjunctsAreSound(tokens, i, first.tree, first.next);
    }
  }

  lemma {:induction false} DisjunctsAreSound(tokens: seq<string>, start: nat, sofar: Tree, i: nat)
    requires Reads(tokens, start, sofar, i) && IsExpression(sofar)
    ensures var r := MoreDisjuncts(tokens, sofar, i); r.Parsed? ==> IsExpression(r.tree) && Reads(tokens, start, r.tree, r.next)
    decreases |tokens| - i, 3
  {
    hide KindOf, ConjunctionAt, IsConjunction;
    if At(tokens, i, OrToken) {
      ConjunctionIsSound(tokens, i + 1);
      var next := ConjunctionAt(tokens, i + 1);
      if next.Parsed? {
        JoinReads(tokens, start, sofar, i, next.tree, next.next);
        DisjunctsAreSound(tokens, start, Or(sofar, next.tree), next.next);
      }
    }
  }

  // ----- Completeness: every printout is read back as its own tree -----

  lemma SplitReads(tokens: seq<string>, i: nat, t: Tree, n: nat)
    requires Reads(tokens, i, t, n) && (t.And? || t.Or?)
    ensures var m := i + |Printout(t.left)|;
      && Reads(tokens, i, t.left, m) && Reads(tokens, m + 1, t.right, n)
      && KindOf(tokens[m]) == if t.And? then AndToken else OrToken
  {
    hide KindOf;
    KindOfMarks();
    var m := i + |Printout(t.left)|;
    var all := tokens[i..n];
    assert all[..m - i] == Printout(t.left) && all[m - i] == tokens[m] && all[m - i + 1..] == Printout(t.right);
    assert tokens[i..m] == all[..m - i] && tokens[m + 1..n] == all[m - i + 1..];
  }

  lemma {:induction false} PrimaryIsRead(tokens: seq<string>, i: nat, t: Tree, n: nat)
    requires IsPrimary(t) && Reads(tokens, i, t, n)
    ensures PrimaryAt(tokens, i) == Parsed(t, n)
    decreases t, 0
  {
    hide KindOf, ExpressionAt, IsExpression, MoreDisjuncts;
    KindOfMarks();
    assert tokens[i] == tokens[i..n][0];
    if t.Paren? {
      var all := tokens[i..n];
      assert all[1..|all| - 1] == Printout(t.inner) && all[|all| - 1] == CLOSE;
      InnerSlice(tokens, i, n);
      ExpressionIsRead(tokens, i + 1, t.inner, n - 1);
      NoMoreDisjuncts(tokens, t.inner, n - 1);
    }
  }

  lemma InnerSlice(tokens: seq<string>, i: nat, n: nat)
    requires i + 2 <= n <= |tokens|
    ensures var all := tokens[i..n];
      tokens[i + 1..n - 1] == all[1..|all| - 1] && tokens[n - 1] == all[|all| - 1] && tokens[i] == all[0]
  {
    var all := tokens[i..n];
    var left, right := tokens[i + 1..n - 1], all[1..|all| - 1];
    forall k | 0 <= k < |left| ensures left[k] == right[k] {
      assert right[k] == all[k + 1];
      assert all[k + 1] == tokens[i + (k + 1)];
    }
  }

  lemma NoMoreDisjuncts(tokens: seq<string>, t: Tree, n: nat)
    requires n <= |tokens| && !At(tokens, n, OrToken)
    ensures MoreDisjuncts(tokens, t, n) == Parsed(t, n)
  {
  }

  lemma {:induction false} LicensedIsRead(tokens: seq<string>, i: nat, t: Tree, n: nat)
    requires IsLicensed(t) && Reads(tokens, i, t, n) && !At(tokens, n, WithToken)
    ensures LicensedAt(tokens, i) == Parsed(t, n)
    decreases t, 1
  {
    hide KindOf, PrimaryAt, IsException, IsPrimary;
    if t.With? {
      KindOfMarks();
      var all := tokens[i..n];
      assert all[..|all| - 2] == Printout(t.base) && all[|all| - 2] == WITH && all[|all| - 1] == t.exception;
      assert tokens[i..n - 2] == all[..|all| - 2];
      assert tokens[n - 2] == all[|all| - 2] && tokens[n - 1] == all[|all| - 1];
      PrimaryIsRead(tokens, i, t.base, n - 2);
    } else {
      PrimaryIsRead(tokens, i, t, n);
    }
  }

  /** Reading a conjunction comes to the AND loop holding exactly its tree. */
  lemma {:induction false} ConjunctionIsRead(tokens: seq<string>, i: nat, t: Tree, n: nat)
    requires IsConjunction(t) && Reads(tokens, i, t, n) && !At(tokens, n, WithToken)
    ensures ConjunctionAt(tokens, i) == MoreConjuncts(tokens, t, n)
    decreases t, 2
  {
    hide KindOf, LicensedAt, IsLicensed;
    if t.And? {
      SplitReads(tokens, i, t, n);
      var m := i + |Printout(t.left)|;
      ConjunctionIsRead(tokens, i, t.left, m);
      LicensedIsRead(tokens, m + 1, t.right, n);
    } else {
      LicensedIsRead(tokens, i, t, n);
    }
  }

  /** Reading an expression comes to the OR loop holding exactly its tree. */
  lemma {:induction false} ExpressionIsRead(tokens: seq<string>, i: nat, t: Tree, n: nat)
    requires IsExpression(t) && Reads(tokens, i, t, n) && !At(tokens, n, WithToken) && !At(tokens, n, AndToken)
    ensures ExpressionAt(tokens, i) == MoreDisjuncts(tokens, t, n)
    decreases t, 3
  {
    hide KindOf, ConjunctionAt, IsConjunction;
    if t.Or? {
      SplitReads(tokens, i, t, n);
      var m := i + |Printout(t.left)|;
      ExpressionIsRead(tokens, i, t.left, m);
      ConjunctionIsRead(tokens, m + 1, t.right, n);
      NoMoreConjuncts(tokens, t.right, n);
    } else {
      ConjunctionIsRead(tokens, i, t, n);
      NoMoreConjuncts(tokens, t, n);
    }
  }

  lemma NoMoreConjuncts(tokens: seq<string>, t: Tree, n: nat)
    requires n <= |tokens| && !At(tokens, n, AndToken)
    ensures MoreConjuncts(tokens, t, n) == Parsed(t, n)
  {
  }

  /** The parser reads exactly the printouts of expression trees, each as the one tree it prints. */
  lemma ParserReadsPrintouts(tokens: seq<string>, t: Tree)
    ensures Parse(tokens) == Parsed(t, |tokens|) <==> IsExpression(t) && tokens == Printout(t)
  {
    hide ExpressionAt, MoreDisjuncts, IsExpression;
    assert tokens[0..|tokens|] == tokens;
    ExpressionIsSound(tokens, 0);
    if IsExpression(t) && tokens == Printout(t) {
      ExpressionIsRead(tokens, 0, t, |tokens|);
      NoMoreDisjuncts(tokens, t, |tokens|);
    }
  }

  /** No two expression trees have the same printout. */
  lemma PrintoutIsUnambiguous(t: Tree, u: Tree)
    requires IsExpression(t) && IsExpression(u) && Printout(t) == Printout(u)
    ensures t == u
  {
    hide IsExpression, Parse;
    ParserReadsPrintouts(Printout(t), t);
    ParserReadsPrintouts(Printout(t), u);
  }
}
