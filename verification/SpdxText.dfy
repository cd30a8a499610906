/** License expressions as text: tokens, rendering, and the canonical form. */
module SpdxText {
  import opened SpdxGrammar
  import Text = InvocationText

  const MAX_EXPRESSION_LENGTH: nat := 1024
  const MAX_IDENTIFIER_LENGTH: nat := 127

  datatype Outcome<+T> = Ok(value: T) | Raised(fault: Fault)

  predicate Separates(c: char) {
    c == ' ' || c == '(' || c == ')'
  }

  predicate IsAlphanumeric(c: char) {
    'A' <= c <= 'Z' || 'a' <= c <= 'z' || '0' <= c <= '9'
  }

  predicate InIdentifier(c: char) {
    IsAlphanumeric(c) || c == '.' || c == '+' || c == '-'
  }

  predicate IsIdentifier(word: string) {
    1 <= |word| <= MAX_IDENTIFIER_LENGTH && IsAlphanumeric(word[0]) && forall i | 0 <= i < |word| :: InIdentifier(word[i])
  }

  /** A word token: an operator or an identifier. */
  predicate IsWord(token: string) {
    KindOf(token) in {AndToken, OrToken, WithToken} || IsIdentifier(token)
  }

  predicate IsMark(token: string) {
    KindOf(token) in {OpenToken, CloseToken}
  }

  predicate AllTokens(tokens: seq<string>) {
    forall i | 0 <= i < |tokens| :: IsMark(tokens[i]) || IsWord(tokens[i])
  }

  // ----- Tokens -----

  function WordLength(s: string): (n: nat)
    ensures n <= |s| && (n < |s| ==> Separates(s[n])) && forall i | 0 <= i < n :: !Separates(s[i])
  {
    if s == [] || Separates(s[0]) then 0 else 1 + WordLength(s[1..])
  }

  /** The tokens of a text, or nothing when some word is malformed. */
  function Words(s: string): Outcome<seq<string>>
    decreases |s|
  {
    if s == [] then Ok([])
    else if s[0] == ' ' then Words(s[1..])
    else if s[0] == '(' || s[0] == ')' then Then([s[0]], Words(s[1..]))
    else
      var n := WordLength(s);
      assert n > 0;
      if IsWord(s[..n]) then Then(s[..n], Words(s[n..])) else Raised(Invalid)
  }

  function Then(token: string, rest: Outcome<seq<string>>): Outcome<seq<string>> {
    if rest.Ok? then Ok([token] + rest.value) else rest
  }

  /** How a text of the form first piece + rest is read. */
  lemma WordsOfPieces(piece: string, rest: string)
    requires piece != []
    ensures piece == [' '] ==> Words(piece + rest) == Words(rest)
    ensures piece == ['('] || piece == [')'] ==> Words(piece + rest) == Then(piece, Words(rest))
    ensures IsWhole(piece, rest) ==>
      Words(piece + rest) == if IsWord(piece) then Then(piece, Words(rest)) else Raised(Invalid)
  {
    hide IsWord;
    var s := piece + rest;
    assert s[0] == piece[0] && s[|piece|..] == rest && s[..|piece|] == piece;
    if IsWhole(piece, rest) {
      WordEndsAt(s, |piece|);
    }
  }

  /** A whole word in front of the rest. */
  predicate IsWhole(piece: string, rest: string) {
    piece != [] && (forall c | c in piece :: !Separates(c)) && (rest != [] ==> Separates(rest[0]))
  }

  function Tokens(s: string): Outcome<seq<string>> {
    if Words(s) == Ok([]) then Raised(Invalid) else Words(s)
  }

  function Joined(before: seq<string>, rest: Outcome<seq<string>>): Outcome<seq<string>> {
    if rest.Ok? then Ok(before + rest.value) else rest
  }

  /** `_tokenize_spdx`. */
  method Tokenize(expression: string) returns (r: Outcome<seq<string>>)
    ensures r == Tokens(expression)
  {
    hide IsWord, WordLength, Words, Joined, Then;
    NoWords();
    var tokens: seq<string> := [];
    var offset := 0;
    assert expression[0..] == expression;
    JoinNothing(Words(expression));
    while offset < |expression|
      invariant offset <= |expression|
      invariant Words(expression) == Joined(tokens, Words(expression[offset..]))
    {
      var character := expression[offset];
      if character == ' ' {
        SplitAt(expression, offset, offset + 1);
        offset := offset + 1;
      } else if character == '(' || character == ')' {
        SplitAt(expression, offset, offset + 1);
        JoinOne(tokens, [character], Words(expression[offset + 1..]));
        tokens := tokens + [[character]];
        offset := offset + 1;
      } else {
        var end := offset;
        while end < |expression| && !Separates(expression[end])
          invariant offset <= end <= |expression|
          invariant forall i | offset <= i < end :: !Separates(expression[i])
        {
          end := end + 1;
        }
        var token := expression[offset..end];
        SplitAt(expression, offset, end);
        assert IsWhole(token, expression[end..]);
        if !IsWord(token) {
          JoinFault(tokens, Invalid);
          return Raised(Invalid);
        }
        JoinOne(tokens, token, Words(expression[end..]));
        tokens := tokens + [token];
        offset := end;
      }
    }
    assert expression[offset..] == [];
    JoinLast(tokens);
    if tokens == [] {
      return Raised(Invalid);
    }
    return Ok(tokens);
  }

  lemma NoWords()
    ensures Words([]) == Ok([])
  {
  }

  lemma JoinLast(tokens: seq<string>)
    ensures Joined(tokens, Ok([])) == Ok(tokens)
  {
    assert tokens + [] == tokens;
  }

  lemma JoinFault(tokens: seq<string>, fault: Fault)
    ensures Joined(tokens, Raised(fault)) == Raised(fault)
  {
  }

  lemma SplitAt(s: string, i: nat, n: nat)
    requires i < n <= |s|
    ensures s[i..] == s[i..n] + s[n..] && s[i..n][0] == s[i]
    ensures n == i + 1 ==> s[i..n] == [s[i]]
    ensures s[i..n] == [' '] ==> Words(s[i..]) == Words(s[n..])
    ensures s[i..n] == ['('] || s[i..n] == [')'] ==> Words(s[i..]) == Then(s[i..n], Words(s[n..]))
    ensures IsWhole(s[i..n], s[n..]) ==>
      Words(s[i..]) == if IsWord(s[i..n]) then Then(s[i..n], Words(s[n..])) else Raised(Invalid)
  {
    hide Words, IsWord, IsWhole;
    assert s[i..] == s[i..n] + s[n..];
    WordsOfPieces(s[i..n], s[n..]);
  }

  lemma JoinNothing(rest: Outcome<seq<string>>)
    ensures Joined([], rest) == rest
  {
    assert rest.Ok? ==> [] + rest.value == rest.value;
  }

  lemma JoinOne(before: seq<string>, token: string, rest: Outcome<seq<string>>)
    ensures Joined(before, Then(token, rest)) == Joined(before + [token], rest)
  {
    if rest.Ok? {
      assert before + ([token] + rest.value) == before + [token] + rest.value;
    }
  }

  lemma WordEndsAt(s: string, n: nat)
    requires n <= |s| && (n < |s| ==> Separates(s[n])) && forall i | 0 <= i < n :: !Separates(s[i])
    ensures WordLength(s) == n
  {
  }

  /** Tokenizing loses nothing but spaces. */
  lemma {:induction false} TokensKeepEverythingButSpaces(s: string)
    ensures Words(s).Ok? ==> Flat(Words(s).value) == NoSpaces(s) && AllTokens(Words(s).value)
    decreases |s|
  {
    hide IsWord, IsIdentifier;
    if s != [] {
      if s[0] == ' ' {
        TokensKeepEverythingButSpaces(s[1..]);
      } else if s[0] == '(' || s[0] == ')' {
        TokensKeepEverythingButSpaces(s[1..]);
        assert [s[0]] == OPEN || [s[0]] == CLOSE;
        KindOfMarks();
      } else {
        var n := WordLength(s);
        TokensKeepEverythingButSpaces(s[n..]);
        WordHasNoSpaces(s, n);
      }
    }
  }

  function Flat(tokens: seq<string>): string {
    if tokens == [] then [] else tokens[0] + Flat(tokens[1..])
  }

  function NoSpaces(s: string): string {
    if s == [] then [] else (if s[0] == ' ' then [] else [s[0]]) + NoSpaces(s[1..])
  }

  lemma {:induction false} WordHasNoSpaces(s: string, n: nat)
    requires n <= |s| && forall i | 0 <= i < n :: !Separates(s[i])
    ensures NoSpaces(s) == s[..n] + NoSpaces(s[n..])
  {
    if n > 0 {
      WordHasNoSpaces(s[1..], n - 1);
      assert s[..n] == [s[0]] + s[1..][..n - 1] && s[1..][n - 1..] == s[n..];
    }
  }

  // ----- Rendering -----

  predicate EndsWith(s: string, c: char) {
    s != [] && s[|s| - 1] == c
  }

  /** One turn of the rendering loop. */
  function Append(rendered: string, token: string): string {
    match KindOf(token)
    case OpenToken =>
      (if rendered != [] && !EndsWith(rendered, ' ') && !EndsWith(rendered, '(') then rendered + [' '] else rendered) + token
    case CloseToken => Text.StripRight(rendered) + token
    case _ => (if rendered != [] && !EndsWith(rendered, '(') then rendered + [' '] else rendered) + token
  }

  function Rendered(tokens: seq<string>): string {
    if tokens == [] then [] else Append(Rendered(tokens[..|tokens| - 1]), tokens[|tokens| - 1])
  }

  /** `_render_spdx`. */
  method Render(tokens: seq<string>) returns (rendered: string)
    ensures rendered == Rendered(tokens)
  {
    rendered := "";
    for i := 0 to |tokens|
      invariant rendered == Rendered(tokens[..i])
    {
      var token := tokens[i];
      assert tokens[..i + 1][..i] == tokens[..i];
      match KindOf(token) {
        case OpenToken =>
          if rendered != [] && !EndsWith(rendered, ' ') && !EndsWith(rendered, '(') {
            rendered := rendered + [' '];
          }
          rendered := rendered + token;
        case CloseToken =>
          rendered := Text.StripRight(rendered) + token;
        case _ =>
          if rendered != [] && !EndsWith(rendered, '(') {
            rendered := rendered + [' '];
          }
          rendered := rendered + token;
      }
    }
    assert tokens[..|tokens|] == tokens;
  }

  /** Whether `a + b` splits into tokens at the seam. */
  predicate Splits(a: string, b: string) {
    a == [] || b == [] || Separates(a[|a| - 1]) || Separates(b[0])
  }

  lemma {:induction false} WordsOfJoin(a: string, b: string)
    requires Splits(a, b) && Words(a).Ok?
    ensures Words(a + b) == Joined(Words(a).value, Words(b))
    decreases |a|
  {
    hide IsWord, Words;
    NoWords();
    if a == [] {
      assert a + b == b;
      JoinNothing(Words(b));
    } else {
      var n := if Separates(a[0]) then 1 else WordLength(a);
      var piece, rest := a[..n], a[n..];
      assert a == piece + rest && a + b == piece + (rest + b);
      WordsOfPieces(piece, rest);
      WordsOfPieces(piece, rest + b);
      assert rest != [] ==> rest[|rest| - 1] == a[|a| - 1];
      if !Separates(a[0]) {
        assert IsWhole(piece, rest);
        assert IsWhole(piece, rest + b);
      } else {
        assert piece == [a[0]];
      }
      WordsOfJoin(rest, b);
      if Words(b).Ok? {
        assert [piece] + (Words(rest).value + Words(b).value) == [piece] + Words(rest).value + Words(b).value;
      }
    }
  }

  lemma WordsOfToken(token: string)
    requires IsMark(token) || IsWord(token)
    ensures Words(token) == Ok([token]) && Words([' '] + token) == Ok([token])
  {
    hide IsWord, Words;
    NoWords();
    assert token + [] == token;
    assert [token] + [] == [token];
    if IsMark(token) {
      MarkCharacters(token);
    } else {
      WordCharacters(token);
      assert IsWhole(token, []);
    }
    WordsOfPieces(token, []);
    WordsOfPieces([' '], token);
  }

  lemma MarkCharacters(token: string)
    requires IsMark(token)
    ensures token == ['('] || token == [')']
    ensures KindOf(token).OpenToken? <==> token == ['(']
    ensures Separates(token[0]) && !Text.IsSpace(token[0]) && ' ' <= token[0] <= '~'
  {
    assert token == OPEN || token == CLOSE;
  }

  lemma WordCharacters(token: string)
    requires IsWord(token)
    ensures token != [] && forall i | 0 <= i < |token| :: !Separates(token[i]) && !Text.IsSpace(token[i])
    ensures forall i | 0 <= i < |token| :: ' ' < token[i] <= '~'
  {
  }

  lemma StripNothing(s: string)
    requires s == [] || !Text.IsSpace(s[|s| - 1])
    ensures Text.StripRight(s) == s
  {
  }

  /** Rendering one more token adds exactly that token. */
  lemma WordsOfAppend(rendered: string, token: string)
    requires Words(rendered).Ok? && (rendered == [] || !Text.IsSpace(rendered[|rendered| - 1]))
    requires IsMark(token) || IsWord(token)
    ensures Words(Append(rendered, token)) == Ok(Words(rendered).value + [token])
    ensures var r := Append(rendered, token); r != [] && !Text.IsSpace(r[|r| - 1])
  {
    hide IsWord, IsMark, Words, Text.IsSpace, KindOf, Separates, Append, Splits, Joined;
    WordsOfToken(token);
    JoinWord(Words(rendered).value, token);
    AppendForms(rendered, token);
    if Append(rendered, token) == rendered + token {
      WordsOfJoin(rendered, token);
    } else {
      SpaceSplits(rendered, token);
      WordsOfJoin(rendered, [' '] + token);
      assert rendered + ([' '] + token) == rendered + [' '] + token;
    }
  }

  lemma SpaceSplits(a: string, b: string)
    ensures Splits(a, [' '] + b)
  {
  }

  lemma JoinWord(before: seq<string>, token: string)
    ensures Joined(before, Ok([token])) == Ok(before + [token])
  {
  }

  /** Appending puts the token behind a seam the tokenizer splits at, or behind one space. */
  lemma AppendForms(rendered: string, token: string)
    requires rendered == [] || !Text.IsSpace(rendered[|rendered| - 1])
    requires IsMark(token) || IsWord(token)
    ensures var r := Append(rendered, token);
      && ((r == rendered + token && Splits(rendered, token)) || r == rendered + [' '] + token)
      && token != [] && !Text.IsSpace(token[|token| - 1])
  {
    hide IsWord, KindOf, Text.IsSpace;
    StripNothing(rendered);
    if IsMark(token) {
      MarkCharacters(token);
    } else {
      WordCharacters(token);
      WordIsNotClose(token);
    }
  }

  lemma WordIsNotClose(token: string)
    requires IsWord(token)
    ensures !KindOf(token).CloseToken?
  {
    WordCharacters(token);
  }

  /** Tokenizing a rendering gives the tokens back. */
  lemma {:induction false} TokensOfRendering(tokens: seq<string>)
    requires AllTokens(tokens)
    ensures Words(Rendered(tokens)) == Ok(tokens)
    ensures Rendered(tokens) == [] <==> tokens == []
    ensures tokens != [] ==> !Text.IsSpace(Rendered(tokens)[|Rendered(tokens)| - 1])
    ensures tokens != [] ==> Tokens(Rendered(tokens)) == Ok(tokens)
  {
    hide IsWord, IsMark, Append, Text.IsSpace;
    if tokens != [] {
      var before, last := tokens[..|tokens| - 1], tokens[|tokens| - 1];
      TokensOfRendering(before);
      WordsOfAppend(Rendered(before), last);
      assert before + [last] == tokens;
    }
  }

  // ----- The canonical form -----

  predicate IsSafe(s: string) {
    1 <= |s| <= MAX_EXPRESSION_LENGTH && forall i | 0 <= i < |s| :: ' ' <= s[i] <= '~'
  }

  /** `canonical_license_expression`. */
  function Canonical(s: string): Outcome<string> {
    if !IsSafe(s) then Raised(Unsafe) else
    var tokens := Tokens(s);
    if tokens.Raised? then Raised(tokens.fault) else
    var parsed := Parse(tokens.value);
    if parsed.Failed? then Raised(parsed.fault)
    else if Rendered(tokens.value) != s then Raised(NonCanonical)
    else Ok(s)
  }

  /** The identifiers and exceptions of a tree are words the tokenizer accepts. */
  predicate Spelled(t: Tree) {
    match t
    case License(id) => IsIdentifier(id)
    case Paren(inner) => Spelled(inner)
    case With(base, exception) => Spelled(base) && IsIdentifier(exception)
    case And(left, right) => Spelled(left) && Spelled(right)
    case Or(left, right) => Spelled(left) && Spelled(right)
  }

  function Spelling(t: Tree): string {
    Rendered(Printout(t))
  }

  lemma OperatorsAreWords()
    ensures IsWord(AND) && IsWord(OR) && IsWord(WITH) && IsMark(OPEN) && IsMark(CLOSE)
  {
    KindOfMarks();
  }

  lemma {:induction false} SpelledPrintout(t: Tree)
    requires Spelled(t)
    ensures AllTokens(Printout(t))
  {
    hide KindOf, IsIdentifier;
    OperatorsAreWords();
    match t {
      case License(id) =>
      case Paren(inner) => SpelledPrintout(inner);
      case With(base, exception) => SpelledPrintout(base);
      case And(left, right) => SpelledPrintout(left); SpelledPrintout(right);
      case Or(left, right) => SpelledPrintout(left); SpelledPrintout(right);
    }
  }

  /** A tree printed with tokens is spelled with them. */
  lemma {:induction false} PrintoutIsSpelled(t: Tree)
    requires (IsPrimary(t) || IsLicensed(t) || IsConjunction(t) || IsExpression(t)) && AllTokens(Printout(t))
    ensures Spelled(t)
  {
    hide KindOf, IsIdentifier;
    var tokens := Printout(t);
    match t {
      case License(id) =>
        assert tokens[0] == id;
      case Paren(inner) =>
        PartOfTokens(tokens, 1, |tokens| - 1);
        assert tokens[1..|tokens| - 1] == Printout(inner);
        PrintoutIsSpelled(inner);
      case With(base, exception) =>
        PartOfTokens(tokens, 0, |tokens| - 2);
        assert tokens[..|tokens| - 2] == Printout(base);
        assert tokens[|tokens| - 1] == exception;
        PrintoutIsSpelled(base);
      case And(left, right) =>
        SidesOfTokens(tokens, Printout(left), AND, Printout(right));
        PrintoutIsSpelled(left);
        PrintoutIsSpelled(right);
      case Or(left, right) =>
        SidesOfTokens(tokens, Printout(left), OR, Printout(right));
        PrintoutIsSpelled(left);
        PrintoutIsSpelled(right);
    }
  }

  lemma PartOfTokens(tokens: seq<string>, i: nat, n: nat)
    requires AllTokens(tokens) && i <= n <= |tokens|
    ensures AllTokens(tokens[i..n])
  {
    hide IsWord, IsMark;
  }

  lemma SidesOfTokens(tokens: seq<string>, left: seq<string>, operator: string, right: seq<string>)
    requires AllTokens(tokens) && tokens == left + [operator] + right
    ensures AllTokens(left) && AllTokens(right)
  {
    hide IsWord, IsMark;
    assert left == tokens[..|left|] && right == tokens[|left| + 1..];
  }

  lemma AppendIsPrintable(rendered: string, token: string)
    requires (forall i | 0 <= i < |rendered| :: ' ' <= rendered[i] <= '~') && (IsMark(token) || IsWord(token))
    ensures forall i | 0 <= i < |Append(rendered, token)| :: ' ' <= Append(rendered, token)[i] <= '~'
  {
    if IsWord(token) {
      WordCharacters(token);
    }
    StripIsPrefix(rendered);
  }

  lemma {:induction false} StripIsPrefix(s: string)
    ensures Text.StripRight(s) <= s
  {
    hide Text.IsSpace;
    if s != [] && Text.IsSpace(s[|s| - 1]) {
      StripIsPrefix(s[..|s| - 1]);
    }
  }

  lemma {:induction false} RenderingIsPrintable(tokens: seq<string>)
    requires AllTokens(tokens)
    ensures forall i | 0 <= i < |Rendered(tokens)| :: ' ' <= Rendered(tokens)[i] <= '~'
  {
    hide IsWord, IsMark, Append;
    if tokens != [] {
      RenderingIsPrintable(tokens[..|tokens| - 1]);
      AppendIsPrintable(Rendered(tokens[..|tokens| - 1]), tokens[|tokens| - 1]);
    }
  }

  /** A text is canonical exactly when it is the spelling of an expression tree and not too long. */
  lemma CanonicalTextsAreSpellings(s: string)
    ensures Canonical(s) == Ok(s) <==>
      |s| <= MAX_EXPRESSION_LENGTH && exists t :: IsExpression(t) && Spelled(t) && Spelling(t) == s
  {
    hide IsExpression, Parse, Words, Rendered, IsWord, IsMark, Spelled, AllTokens;
    if Canonical(s) == Ok(s) {
      var tokens := Tokens(s).value;
      var t := Parse(tokens).tree;
      ParsedWhole(tokens);
      ParserReadsPrintouts(tokens, t);
      TokensKeepEverythingButSpaces(s);
      ExpressionIsSpelled(t);
      assert IsExpression(t) && Spelled(t) && Spelling(t) == s;
    } else if |s| <= MAX_EXPRESSION_LENGTH {
      forall t | IsExpression(t) && Spelled(t) ensures Spelling(t) != s {
        if Spelling(t) == s {
          SpellingIsCanonical(t);
        }
      }
    }
  }

  lemma ExpressionIsSpelled(t: Tree)
    requires IsExpression(t) && AllTokens(Printout(t))
    ensures Spelled(t)
  {
    hide IsExpression, AllTokens;
    PrintoutIsSpelled(t);
  }

  lemma ParsedWhole(tokens: seq<string>)
    ensures Parse(tokens).Parsed? ==> Parse(tokens).next == |tokens|
  {
  }

  lemma SpellingIsCanonical(t: Tree)
    requires IsExpression(t) && Spelled(t) && |Spelling(t)| <= MAX_EXPRESSION_LENGTH
    ensures Canonical(Spelling(t)) == Ok(Spelling(t))
  {
    hide IsExpression, Parse, Words, Rendered, IsWord, IsMark, Spelled, AllTokens;
    SpelledPrintout(t);
    TokensOfRendering(Printout(t));
    RenderingIsPrintable(Printout(t));
    ParserReadsPrintouts(Printout(t), t);
  }

  /** Two trees with one spelling are the same tree. */
  lemma SpellingIsUnambiguous(t: Tree, u: Tree)
    requires IsExpression(t) && IsExpression(u) && Spelled(t) && Spelled(u) && Spelling(t) == Spelling(u)
    ensures t == u
  {
    hide IsExpression, Words, Rendered, IsWord, IsMark, Spelled, AllTokens;
    SpelledPrintout(t);
    SpelledPrintout(u);
    TokensOfRendering(Printout(t));
    TokensOfRendering(Printout(u));
    PrintoutIsUnambiguous(t, u);
  }
}
