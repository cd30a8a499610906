/** License expressions as they are written: operators with one space around them, nothing inside parentheses' edges. */
module SpdxSpelling {
  import opened SpdxGrammar
  import opened SpdxText
  import opened SpdxAutomaton
  import Text = InvocationText

  function Written(t: Tree): string {
    match t
    case License(id) => id
    case Paren(inner) => "(" + Written(inner) + ")"
    case With(base, exception) => Written(base) + " WITH " + exception
    case And(left, right) => Written(left) + " AND " + Written(right)
    case Or(left, right) => Written(left) + " OR " + Written(right)
  }

  /** The rendering loop over further tokens. */
  function RenderOn(rendered: string, tokens: seq<string>): string
    decreases |tokens|
  {
    if tokens == [] then rendered else RenderOn(Append(rendered, tokens[0]), tokens[1..])
  }

  lemma {:induction false} RenderInParts(rendered: string, a: seq<string>, b: seq<string>)
    ensures RenderOn(rendered, a + b) == RenderOn(RenderOn(rendered, a), b)
    decreases |a|
  {
    hide Append;
    if a == [] {
      assert a + b == b;
    } else {
      assert (a + b)[1..] == a[1..] + b;
      RenderInParts(Append(rendered, a[0]), a[1..], b);
    }
  }

  lemma RenderOne(rendered: string, token: string)
    ensures RenderOn(rendered, [token]) == Append(rendered, token)
  {
    hide Append;
    assert [token][1..] == [];
  }

  lemma {:induction false} RenderingIsOn(tokens: seq<string>)
    ensures Rendered(tokens) == RenderOn([], tokens)
    decreases |tokens|
  {
    hide Append;
    if tokens != [] {
      var front, last := tokens[..|tokens| - 1], tokens[|tokens| - 1];
      assert tokens == front + [last];
      RenderingIsOn(front);
      RenderInParts([], front, [last]);
      RenderOne(RenderOn([], front), last);
    }
  }

  /** What stands between a text and the operand written behind it. */
  function Seam(before: string): string {
    if before == [] || before[|before| - 1] == '(' then [] else [' ']
  }

  /** A text that ends in an operand. */
  predicate EndsOperand(s: string) {
    s != [] && s[|s| - 1] != '(' && s[|s| - 1] != ' ' && !Text.IsSpace(s[|s| - 1])
  }

  lemma WordIsAppended(before: string, token: string)
    requires IsWord(token) && (before == [] || !Text.IsSpace(before[|before| - 1]))
    ensures Append(before, token) == before + Seam(before) + token && EndsOperand(before + Seam(before) + token)
  {
    hide IsWord, KindOf, Text.IsSpace;
    WordCharacters(token);
    WordIsNoMark(token);
    assert (before + Seam(before) + token)[|before + Seam(before) + token| - 1] == token[|token| - 1];
    assert before + [' '] + token == before + ([' '] + token);
  }

  lemma WordIsNoMark(token: string)
    requires IsWord(token)
    ensures !KindOf(token).OpenToken? && !KindOf(token).CloseToken?
  {
    WordCharacters(token);
  }

  lemma OpenIsAppended(before: string)
    requires before == [] || !Text.IsSpace(before[|before| - 1])
    ensures Append(before, OPEN) == before + Seam(before) + "("
    ensures Seam(before + Seam(before) + "(") == [] && !Text.IsSpace('(')
  {
    hide KindOf;
    KindOfMarks();
  }

  lemma CloseIsAppended(before: string)
    requires EndsOperand(before)
    ensures Append(before, CLOSE) == before + ")" && EndsOperand(before + ")")
  {
    hide KindOf;
    KindOfMarks();
    StripNothing(before);
  }

  lemma IdentifierIsWord(token: string)
    requires IsIdentifier(token)
    ensures IsWord(token)
  {
  }

  lemma JoinIsAssociative(base: string, left: string, between: string, right: string)
    ensures base + left + between + right == base + (left + between + right)
  {
  }

  lemma OperatorsInSpaces()
    ensures [' '] + AND + [' '] == " AND " && [' '] + OR + [' '] == " OR " && [' '] + WITH + [' '] == " WITH "
  {
  }

  lemma SpacesAround(here: string, operator: string, right: string)
    ensures here + [' '] + operator + [' '] + right == here + ([' '] + operator + [' ']) + right
  {
  }

  /** An operand that was rendered, an operator, and a word. */
  lemma RenderTwo(here: string, operator: string, token: string)
    requires EndsOperand(here) && IsWord(operator) && IsWord(token)
    ensures RenderOn(here, [operator] + [token]) == here + ([' '] + operator + [' ']) + token
    ensures EndsOperand(here + ([' '] + operator + [' ']) + token)
  {
    hide Append, IsWord, Text.IsSpace, RenderOn;
    RenderInParts(here, [operator], [token]);
    RenderOne(here, operator);
    WordIsAppended(here, operator);
    RenderOne(here + [' '] + operator, token);
    WordIsAppended(here + [' '] + operator, token);
    SpacesAround(here, operator, token);
  }

  /** A text that the tokens are rendered onto as this one. */
  ghost predicate Writes(before: string, tokens: seq<string>, written: string) {
    RenderOn(before, tokens) == before + Seam(before) + written && EndsOperand(before + Seam(before) + written)
  }

  lemma ParenIsWritten(before: string, inner: seq<string>, written: string)
    requires before == [] || !Text.IsSpace(before[|before| - 1])
    requires Writes(before + Seam(before) + "(", inner, written)
    ensures Writes(before, [OPEN] + inner + [CLOSE], "(" + written + ")")
  {
    hide Append, IsWord, Text.IsSpace, RenderOn, Seam, EndsOperand;
    RenderInParts(before, [OPEN] + inner, [CLOSE]);
    RenderInParts(before, [OPEN], inner);
    RenderOne(before, OPEN);
    OpenIsAppended(before);
    var lead := before + Seam(before) + "(";
    assert lead + [] + written == lead + written;
    RenderOne(lead + written, CLOSE);
    CloseIsAppended(lead + written);
    JoinIsAssociative(before + Seam(before), "(", written, ")");
  }

  lemma SidesAreWritten(before: string, left: seq<string>, first: string, operator: string, right: seq<string>, second: string)
    requires Writes(before, left, first) && IsWord(operator)
    requires Writes(before + Seam(before) + first + [' '] + operator, right, second)
    ensures Writes(before, left + [operator] + right, first + ([' '] + operator + [' ']) + second)
  {
    hide Append, IsWord, Text.IsSpace, RenderOn;
    var here := before + Seam(before) + first;
    RenderInParts(before, left + [operator], right);
    RenderInParts(before, left, [operator]);
    RenderOne(here, operator);
    WordIsAppended(here, operator);
    SpacesAround(here, operator, second);
    JoinIsAssociative(before + Seam(before), first, [' '] + operator + [' '], second);
  }

  lemma ExceptionIsWritten(before: string, base: seq<string>, first: string, exception: string)
    requires Writes(before, base, first) && IsWord(WITH) && IsWord(exception)
    ensures Writes(before, base + [WITH, exception], first + ([' '] + WITH + [' ']) + exception)
  {
    hide Append, IsWord, Text.IsSpace, RenderOn, Seam, EndsOperand;
    var here := before + Seam(before) + first;
    assert base + [WITH, exception] == base + ([WITH] + [exception]);
    RenderInParts(before, base, [WITH] + [exception]);
    RenderTwo(here, WITH, exception);
    JoinIsAssociative(before + Seam(before), first, [' '] + WITH + [' '], exception);
  }

  lemma OperatorIsBare(before: string, operator: string)
    requires EndsOperand(before) && IsWord(operator)
    ensures var here := before + [' '] + operator; !Text.IsSpace(here[|here| - 1])
  {
    hide IsWord, Text.IsSpace;
    WordCharacters(operator);
  }

  /** Rendering an expression's tokens writes it. */
  lemma {:induction false} RenderedIsWritten(before: string, t: Tree)
    requires Spelled(t) && (before == [] || !Text.IsSpace(before[|before| - 1]))
    ensures Writes(before, Printout(t), Written(t))
    decreases t
  {
    hide Append, IsWord, IsIdentifier, Text.IsSpace, RenderOn, KindOf, Writes, Seam, EndsOperand;
    OperatorsAreWords();
    OperatorsInSpaces();
    match t
    case License(id) => LicenseIsWritten(before, id);
    case Paren(inner) =>
      OpenIsAppended(before);
      RenderedIsWritten(before + Seam(before) + "(", inner);
      ParenIsWritten(before, Printout(inner), Written(inner));
    case With(base, exception) =>
      IdentifierIsWord(exception);
      RenderedIsWritten(before, base);
      ExceptionIsWritten(before, Printout(base), Written(base), exception);
    case And(left, right) =>
      RenderedIsWritten(before, left);
      OperandEnds(before, Printout(left), Written(left));
      OperatorIsBare(before + Seam(before) + Written(left), AND);
      RenderedIsWritten(before + Seam(before) + Written(left) + [' '] + AND, right);
      SidesAreWritten(before, Printout(left), Written(left), AND, Printout(right), Written(right));
    case Or(left, right) =>
      RenderedIsWritten(before, left);
      OperandEnds(before, Printout(left), Written(left));
      OperatorIsBare(before + Seam(before) + Written(left), OR);
      RenderedIsWritten(before + Seam(before) + Written(left) + [' '] + OR, right);
      SidesAreWritten(before, Printout(left), Written(left), OR, Printout(right), Written(right));
  }

  lemma LicenseIsWritten(before: string, id: string)
    requires IsIdentifier(id) && (before == [] || !Text.IsSpace(before[|before| - 1]))
    ensures Writes(before, [id], id)
  {
    hide Append, IsWord, IsIdentifier, Text.IsSpace, RenderOn, Seam, EndsOperand;
    IdentifierIsWord(id);
    RenderOne(before, id);
    WordIsAppended(before, id);
  }

  lemma OperandEnds(before: string, tokens: seq<string>, written: string)
    requires Writes(before, tokens, written)
    ensures EndsOperand(before + Seam(before) + written)
  {
  }

  lemma SpellingIsWritten(t: Tree)
    requires Spelled(t)
    ensures Spelling(t) == Written(t)
  {
    hide Append, Text.IsSpace, RenderOn, EndsOperand;
    RenderingIsOn(Printout(t));
    RenderedIsWritten([], t);
    assert [] + [] + Written(t) == Written(t);
  }

  /** A text is accepted exactly when it is a grammatical expression written out, of at most 1024 characters, each word of it
      at most 127 letters, digits, dots, plusses and hyphens that open with a letter or digit. */
  lemma AcceptedTexts(s: string)
    ensures Canonical(s) == Ok(s) <==> |s| <= 1024 && exists t :: IsGrammatical(t) && InWords(t) && s == Written(t)
    ensures Canonical(s).Ok? ==> Canonical(s) == Ok(s)
  {
    hide Parse, Words, Rendered, IsGrammatical, IsExpression, Spelled, InWords, Spelling, Written, IsSafe;
    CanonicalTextsAreSpellings(s);
    if Canonical(s) == Ok(s) {
      var t :| IsExpression(t) && Spelled(t) && Spelling(t) == s;
      TreesInWords(t);
    }
    if t :| IsGrammatical(t) && InWords(t) && s == Written(t) {
      TreesInWords(t);
      assert IsExpression(t) && Spelled(t) && Spelling(t) == s;
    }
  }

  lemma TreesInWords(t: Tree)
    ensures IsExpression(t) && Spelled(t) <==> IsGrammatical(t) && InWords(t)
    ensures Spelled(t) ==> Spelling(t) == Written(t)
  {
    hide IsGrammatical, IsExpression, Spelled, InWords, Spelling, Written;
    GrammarInWords(t);
    SpelledInWords(t);
    if Spelled(t) {
      SpellingIsWritten(t);
    }
  }

  /** Every refusal, in the order of the checks: unsafe characters or length, a malformed word or none, what the automaton refuses,
      and a text that is not how its tokens are written. */
  lemma RefusedTexts(s: string)
    ensures Canonical(s) == Raised(Unsafe) <==> !(1 <= |s| <= 1024 && forall i | 0 <= i < |s| :: ' ' <= s[i] <= '~')
    ensures Canonical(s) != Raised(Unsafe) ==>
      if Words(s).Raised? || Words(s).value == [] then Canonical(s) == Raised(Invalid) else
      var verdict := Automaton(Words(s).value, 0, Operand, 0);
      if verdict.Refused? then Canonical(s) == Raised(verdict.fault) && verdict.fault in {Invalid, Unknown}
      else Canonical(s) == Ok(s) || Canonical(s) == Raised(NonCanonical)
  {
    hide Words, Rendered, Automaton, ExpressionAt;
    WordsRaiseInvalid(s);
    if Words(s).Ok? {
      ParserIsTheAutomaton(Words(s).value);
      AutomatonFaults(Words(s).value, 0, Operand, 0);
    }
  }

  lemma {:induction false} WordsRaiseInvalid(s: string)
    ensures Words(s).Raised? ==> Words(s).fault == Invalid
    decreases |s|
  {
    hide IsWord;
    if s != [] {
      if s[0] == ' ' || s[0] == '(' || s[0] == ')' {
        WordsRaiseInvalid(s[1..]);
      } else if WordLength(s) > 0 {
        WordsRaiseInvalid(s[WordLength(s)..]);
      }
    }
  }

  lemma {:induction false} AutomatonFaults(tokens: seq<string>, i: nat, state: Expecting, depth: nat)
    ensures var verdict := Automaton(tokens, i, state, depth); verdict.Refused? ==> verdict.fault in {Invalid, Unknown}
    decreases |tokens| - i
  {
    if i < |tokens| {
      AutomatonFaults(tokens, i + 1, Operand, depth + 1);
      AutomatonFaults(tokens, i + 1, Operand, depth);
      AutomatonFaults(tokens, i + 1, AfterPrimary, depth);
      AutomatonFaults(tokens, i + 1, AfterLicensed, depth);
      AutomatonFaults(tokens, i + 1, Exception, depth);
      if depth > 0 {
        AutomatonFaults(tokens, i + 1, AfterPrimary, depth - 1);
      }
    }
  }

  predicate IsLicenseWord(word: string) {
    && 1 <= |word| <= 127
    && ('A' <= word[0] <= 'Z' || 'a' <= word[0] <= 'z' || '0' <= word[0] <= '9')
    && forall i | 0 <= i < |word| ::
         'A' <= word[i] <= 'Z' || 'a' <= word[i] <= 'z' || '0' <= word[i] <= '9' || word[i] == '.' || word[i] == '+' || word[i] == '-'
  }

  predicate InWords(t: Tree) {
    match t
    case License(id) => IsLicenseWord(id)
    case Paren(inner) => InWords(inner)
    case With(base, exception) => InWords(base) && IsLicenseWord(exception)
    case And(left, right) => InWords(left) && InWords(right)
    case Or(left, right) => InWords(left) && InWords(right)
  }

  lemma {:induction false} SpelledInWords(t: Tree)
    ensures Spelled(t) <==> InWords(t)
  {
    match t {
      case License(id) =>
      case Paren(inner) => SpelledInWords(inner);
      case With(base, exception) => SpelledInWords(base);
      case And(left, right) =>
        SpelledInWords(left);
        SpelledInWords(right);
      case Or(left, right) =>
        SpelledInWords(left);
        SpelledInWords(right);
    }
  }
}
