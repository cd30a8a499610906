/** License expressions read from left to right with one counter: what the recursive parser accepts and which fault it raises. */
module SpdxAutomaton {
  import opened SpdxGrammar

  // ----- The automaton -----

  /** What may come next: an operand; WITH, an operator or a close; an exception; an operator or a close. */
  datatype Expecting = Operand | AfterPrimary | Exception | AfterLicensed

  datatype Verdict = Accepted | Refused(fault: Fault)

  /** Read on from an offset, inside so many open parentheses. */
  function Automaton(tokens: seq<string>, i: nat, state: Expecting, depth: nat): Verdict
    decreases |tokens| - i
  {
    if i >= |tokens| then
      if depth == 0 && (state.AfterPrimary? || state.AfterLicensed?) then Accepted else Refused(Invalid)
    else
      var token := tokens[i];
      var operator := token == "AND" || token == "OR";
      match state
      case Operand =>
        if token == "(" then Automaton(tokens, i + 1, Operand, depth + 1)
        else if token == "NONE" || token == "NOASSERTION" then Refused(Unknown)
        else if token == ")" || token == "WITH" || operator then Refused(Invalid)
        else Automaton(tokens, i + 1, AfterPrimary, depth)
      case Exception =>
        if token == "(" || token == ")" || token == "WITH" || operator then Refused(Invalid)
        else Automaton(tokens, i + 1, AfterLicensed, depth)
      case _ =>
        if operator then Automaton(tokens, i + 1, Operand, depth)
        else if token == ")" && depth > 0 then Automaton(tokens, i + 1, AfterPrimary, depth - 1)
        else if token == "WITH" && state.AfterPrimary? then Automaton(tokens, i + 1, Exception, depth)
        else Refused(Invalid)
  }

  // ----- The parser takes the same way -----

  /** Where the automaton gets to from a part the parser has read. */
  function Behind(tokens: seq<string>, r: Parsed, state: Expecting, depth: nat): Verdict {
    match r
    case Failed(fault) => Refused(fault)
    case Parsed(_, next) => Automaton(tokens, next, state, depth)
  }

  lemma WordsOfKinds(token: string)
    ensures KindOf(token).OpenToken? <==> token == "("
    ensures KindOf(token).CloseToken? <==> token == ")"
    ensures KindOf(token).AndToken? <==> token == "AND"
    ensures KindOf(token).OrToken? <==> token == "OR"
    ensures KindOf(token).WithToken? <==> token == "WITH"
    ensures KindOf(token).UnknownToken? <==> token == "NONE" || token == "NOASSERTION"
  {
  }

  /** Reading one token, in terms of its kind. */
  lemma OneToken(tokens: seq<string>, i: nat, depth: nat)
    requires i < |tokens|
    ensures var kind := KindOf(tokens[i]);
      && Automaton(tokens, i, Operand, depth) ==
         (match kind
          case OpenToken => Automaton(tokens, i + 1, Operand, depth + 1)
          case UnknownToken => Refused(Unknown)
          case WordToken => Automaton(tokens, i + 1, AfterPrimary, depth)
          case _ => Refused(Invalid))
      && Automaton(tokens, i, Exception, depth) ==
         (if IsException(tokens[i]) then Automaton(tokens, i + 1, AfterLicensed, depth) else Refused(Invalid))
      && Automaton(tokens, i, AfterLicensed, depth) ==
         (match kind
          case AndToken => Automaton(tokens, i + 1, Operand, depth)
          case OrToken => Automaton(tokens, i + 1, Operand, depth)
          case CloseToken => if depth > 0 then Automaton(tokens, i + 1, AfterPrimary, depth - 1) else Refused(Invalid)
          case _ => Refused(Invalid))
      && Automaton(tokens, i, AfterPrimary, depth) ==
         (if kind.WithToken? then Automaton(tokens, i + 1, Exception, depth) else Automaton(tokens, i, AfterLicensed, depth))
  {
    hide KindOf;
    WordsOfKinds(tokens[i]);
  }

  lemma AtTheEnd(tokens: seq<string>, i: nat, depth: nat)
    requires i >= |tokens|
    ensures Automaton(tokens, i, Operand, depth) == Automaton(tokens, i, Exception, depth) == Refused(Invalid)
    ensures Automaton(tokens, i, AfterPrimary, depth) == Automaton(tokens, i, AfterLicensed, depth)
    ensures Automaton(tokens, i, AfterLicensed, depth) == if depth == 0 then Accepted else Refused(Invalid)
  {
  }

  lemma {:induction false} PrimaryGoesAlong(tokens: seq<string>, i: nat, depth: nat)
    ensures Automaton(tokens, i, Operand, depth) == Behind(tokens, PrimaryAt(tokens, i), AfterPrimary, depth)
    decreases |tokens| - i, 0
  {
    hide KindOf, Automaton, ExpressionAt;
    if i >= |tokens| {
      AtTheEnd(tokens, i, depth);
    } else {
      OneToken(tokens, i, depth);
      if KindOf(tokens[i]).OpenToken? {
        ExpressionGoesAlong(tokens, i + 1, depth + 1);
        var inner := ExpressionAt(tokens, i + 1);
        if inner.Parsed? {
          if inner.next < |tokens| {
            OneToken(tokens, inner.next, depth + 1);
          } else {
            AtTheEnd(tokens, inner.next, depth + 1);
          }
        }
      }
    }
  }

  lemma {:induction false} LicensedGoesAlong(tokens: seq<string>, i: nat, depth: nat)
    ensures Automaton(tokens, i, Operand, depth) == Behind(tokens, LicensedAt(tokens, i), AfterLicensed, depth)
    decreases |tokens| - i, 1
  {
    hide KindOf, Automaton, PrimaryAt, IsException;
    PrimaryGoesAlong(tokens, i, depth);
    var base := PrimaryAt(tokens, i);
    if base.Parsed? {
      if base.next < |tokens| {
        OneToken(tokens, base.next, depth);
        if KindOf(tokens[base.next]).WithToken? {
          if base.next + 1 < |tokens| {
            OneToken(tokens, base.next + 1, depth);
          } else {
            AtTheEnd(tokens, base.next + 1, depth);
          }
        }
      } else {
        AtTheEnd(tokens, base.next, depth);
      }
    }
  }

  lemma {:induction false} ConjunctsGoAlong(tokens: seq<string>, sofar: Tree, i: nat, depth: nat)
    requires i <= |tokens|
    ensures Automaton(tokens, i, AfterLicensed, depth) == Behind(tokens, MoreConjuncts(tokens, sofar, i), AfterLicensed, depth)
    ensures MoreConjuncts(tokens, sofar, i).Parsed? ==> !At(tokens, MoreConjuncts(tokens, sofar, i).next, AndToken)
    decreases |tokens| - i, 2
  {
    hide KindOf, Automaton, LicensedAt;
    if At(tokens, i, AndToken) {
      OneToken(tokens, i, depth);
      LicensedGoesAlong(tokens, i + 1, depth);
      var next := LicensedAt(tokens, i + 1);
      if next.Parsed? {
        ConjunctsGoAlong(tokens, And(sofar, next.tree), next.next, depth);
      }
    }
  }

  lemma {:induction false} ConjunctionGoesAlong(tokens: seq<string>, i: nat, depth: nat)
    ensures Automaton(tokens, i, Operand, depth) == Behind(tokens, ConjunctionAt(tokens, i), AfterLicensed, depth)
    ensures ConjunctionAt(tokens, i).Parsed? ==> !At(tokens, ConjunctionAt(tokens, i).next, AndToken)
    decreases |tokens| - i, 2
  {
    hide KindOf, Automaton, LicensedAt, MoreConjuncts;
    LicensedGoesAlong(tokens, i, depth);
    var first := LicensedAt(tokens, i);
    if first.Parsed? {
      ConjunctsGoAlong(tokens, first.tree, first.next, depth);
    }
  }

  lemma {:induction false} DisjunctsGoAlong(tokens: seq<string>, sofar: Tree, i: nat, depth: nat)
    requires i <= |tokens| && !At(tokens, i, AndToken)
    ensures Automaton(tokens, i, AfterLicensed, depth) == Behind(tokens, MoreDisjuncts(tokens, sofar, i), AfterLicensed, depth)
    ensures var r := MoreDisjuncts(tokens, sofar, i); r.Parsed? ==> !At(tokens, r.next, AndToken) && !At(tokens, r.next, OrToken)
    decreases |tokens| - i, 3
  {
    hide KindOf, Automaton, ConjunctionAt;
    if At(tokens, i, OrToken) {
      OneToken(tokens, i, depth);
      ConjunctionGoesAlong(tokens, i + 1, depth);
      var next := ConjunctionAt(tokens, i + 1);
      if next.Parsed? {
        DisjunctsGoAlong(tokens, Or(sofar, next.tree), next.next, depth);
      }
    }
  }

  lemma {:induction false} ExpressionGoesAlong(tokens: seq<string>, i: nat, depth: nat)
    ensures Automaton(tokens, i, Operand, depth) == Behind(tokens, ExpressionAt(tokens, i), AfterLicensed, depth)
    ensures var r := ExpressionAt(tokens, i); r.Parsed? ==> !At(tokens, r.next, AndToken) && !At(tokens, r.next, OrToken)
    decreases |tokens| - i, 3
  {
    hide KindOf, Automaton, ConjunctionAt, MoreDisjuncts;
    ConjunctionGoesAlong(tokens, i, depth);
    var first := ConjunctionAt(tokens, i);
    if first.Parsed? {
      DisjunctsGoAlong(tokens, first.tree, first.next, depth);
    }
  }

  /** Recursive descent and the counter agree on every token list: accepted, invalid, or unknown. */
  lemma ParserIsTheAutomaton(tokens: seq<string>)
    ensures Automaton(tokens, 0, Operand, 0) ==
      match Parse(tokens) case Parsed(_, _) => Accepted case Failed(fault) => Refused(fault)
  {
    hide KindOf, Automaton, ExpressionAt;
    ExpressionGoesAlong(tokens, 0, 0);
    var r := ExpressionAt(tokens, 0);
    if r.Parsed? {
      if r.next < |tokens| {
        OneToken(tokens, r.next, 0);
      } else {
        AtTheEnd(tokens, r.next, 0);
      }
    }
  }

  // ----- Trees in words -----

  predicate IsReserved(token: string) {
    token in ["(", ")", "AND", "OR", "WITH"]
  }

  /** Licenses are neither reserved nor unknown, exceptions are not reserved; WITH takes a license or a parenthesis on its left;
      AND takes no OR on either side and no AND on its right; OR takes no OR on its right. */
  predicate IsGrammatical(t: Tree) {
    match t
    case License(id) => !IsReserved(id) && id != "NONE" && id != "NOASSERTION"
    case Paren(inner) => IsGrammatical(inner)
    case With(base, exception) => IsGrammatical(base) && (base.License? || base.Paren?) && !IsReserved(exception)
    case And(left, right) => IsGrammatical(left) && IsGrammatical(right) && !left.Or? && !right.Or? && !right.And?
    case Or(left, right) => IsGrammatical(left) && IsGrammatical(right) && !right.Or?
  }

  lemma Levels(t: Tree)
    ensures !t.With? ==> IsLicensed(t) == IsPrimary(t)
    ensures !t.And? ==> IsConjunction(t) == IsLicensed(t)
    ensures !t.Or? ==> IsExpression(t) == IsConjunction(t)
  {
  }

  lemma {:induction false} GrammarInWords(t: Tree)
    ensures IsExpression(t) <==> IsGrammatical(t)
    ensures IsConjunction(t) <==> IsGrammatical(t) && !t.Or?
    ensures IsLicensed(t) <==> IsGrammatical(t) && !t.Or? && !t.And?
    ensures IsPrimary(t) <==> IsGrammatical(t) && (t.License? || t.Paren?)
  {
    hide KindOf;
    Levels(t);
    match t {
      case License(id) => WordsOfKinds(id);
      case Paren(inner) => GrammarInWords(inner);
      case With(base, exception) =>
        WordsOfKinds(exception);
        GrammarInWords(base);
      case And(left, right) =>
        GrammarInWords(left);
        GrammarInWords(right);
      case Or(left, right) =>
        GrammarInWords(left);
        GrammarInWords(right);
    }
  }
}
