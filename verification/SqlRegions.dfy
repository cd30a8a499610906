/** Which stretches of schema SQL are copied as they are: any text between quotes, in brackets or in a comment. */
module SqlRegions {
  import opened Common
  import opened SqlPieces
  import opened SqlCanonical
  import opened SqlFixpoint

  // ----- Quotes -----

  /** The text with every closing mark doubled, as SQL writes it between quotes. */
  function Doubled(text: string, mark: char): string {
    if text == [] then [] else (if text[0] == mark then [mark, mark] else [text[0]]) + Doubled(text[1..], mark)
  }

  lemma {:induction false} DoubledEnds(text: string, mark: char, rest: string)
    requires rest == [] || rest[0] != mark
    ensures QuoteEnd(Doubled(text, mark) + [mark] + rest, mark, true) == Some(|Doubled(text, mark)| + 1)
  {
    var s := Doubled(text, mark) + [mark] + rest;
    if text == [] {
      assert s == [mark] + rest;
    } else {
      DoubledEnds(text[1..], mark, rest);
      var tail := Doubled(text[1..], mark) + [mark] + rest;
      if text[0] == mark {
        assert s == [mark, mark] + tail && s[2..] == tail;
      } else {
        assert s == [text[0]] + tail && s[1..] == tail;
      }
    }
  }

  /** Any text at all, quoted with ', " or `, is one region, copied as it stands. */
  lemma QuotedTextIsOnePiece(text: string, mark: char, rest: string)
    requires mark == '\'' || mark == '"' || mark == '`'
    requires rest == [] || rest[0] != mark
    ensures FirstPiece([mark] + Doubled(text, mark) + [mark] + rest) == Ok(Copied([mark] + Doubled(text, mark) + [mark]))
  {
    var s := [mark] + Doubled(text, mark) + [mark] + rest;
    DoubledEnds(text, mark, rest);
    assert s[1..] == Doubled(text, mark) + [mark] + rest;
    assert s[..1 + |Doubled(text, mark)| + 1] == [mark] + Doubled(text, mark) + [mark];
  }

  lemma {:induction false} BracketEnds(text: string, rest: string)
    requires ']' !in text
    ensures QuoteEnd(text + [']'] + rest, ']', false) == Some(|text| + 1)
  {
    if text == [] {
      assert text + [']'] + rest == [']'] + rest;
    } else {
      assert text[0] in text && (text + [']'] + rest)[1..] == text[1..] + [']'] + rest;
      BracketEnds(text[1..], rest);
    }
  }

  /** A bracketed name ends at its first closing bracket. */
  lemma BracketedTextIsOnePiece(text: string, rest: string)
    requires ']' !in text
    ensures FirstPiece(['['] + text + [']'] + rest) == Ok(Copied(['['] + text + [']']))
  {
    var s := ['['] + text + [']'] + rest;
    BracketEnds(text, rest);
    assert s[1..] == text + [']'] + rest;
    assert s[..1 + |text| + 1] == ['['] + text + [']'];
  }

  lemma {:induction false} NoMarkNoEnd(text: string, mark: char, doubles: bool)
    requires mark !in text
    ensures QuoteEnd(text, mark, doubles).None?
  {
    if text != [] {
      assert text[0] in text;
      NoMarkNoEnd(text[1..], mark, doubles);
    }
  }

  /** A region without its closing mark is refused. */
  lemma OpenQuoteIsRefused(text: string, open: char, mark: char)
    requires (open == '[' && mark == ']') || (open == mark && (mark == '\'' || mark == '"' || mark == '`'))
    requires mark !in text
    ensures FirstPiece([open] + text) == Raised(UnterminatedQuote)
  {
    NoMarkNoEnd(text, mark, open != '[');
    assert ([open] + text)[1..] == text;
  }

  // ----- Comments -----

  lemma {:induction false} LineEnds(text: string, rest: string)
    requires '\n' !in text
    ensures LineEnd(text) == |text| && LineEnd(text + ['\n'] + rest) == |text| + 1
  {
    if text == [] {
      assert text + ['\n'] + rest == ['\n'] + rest;
    } else {
      assert text[0] in text && (text + ['\n'] + rest)[1..] == text[1..] + ['\n'] + rest;
      LineEnds(text[1..], rest);
    }
  }

  /** A line comment is one region up to and with its line feed, or up to the end of the text. */
  lemma LineCommentIsOnePiece(text: string, rest: string)
    requires '\n' !in text
    ensures FirstPiece(['-', '-'] + text + ['\n'] + rest) == Ok(Copied(['-', '-'] + text + ['\n']))
    ensures FirstPiece(['-', '-'] + text) == Ok(Copied(['-', '-'] + text))
  {
    LineEnds(text, rest);
    var s, t := ['-', '-'] + text + ['\n'] + rest, ['-', '-'] + text;
    assert s[2..] == text + ['\n'] + rest && t[2..] == text;
    assert s[..2 + |text| + 1] == ['-', '-'] + text + ['\n'] && t[..2 + |text|] == t;
  }

  /** The comment's text, its end mark in place, has no end mark before it. */
  predicate EndsFirstHere(text: string) {
    forall i | 0 <= i < |text| :: !(text[i] == '*' && (if i + 1 < |text| then text[i + 1] == '/' else false))
  }

  lemma {:induction false} BlockEnds(text: string, rest: string)
    requires EndsFirstHere(text)
    ensures BlockEnd(text + ['*', '/'] + rest) == Some(|text| + 2)
  {
    var s := text + ['*', '/'] + rest;
    if text == [] {
      assert s == ['*', '/'] + rest;
    } else {
      assert s[1..] == text[1..] + ['*', '/'] + rest;
      assert forall i | 0 <= i < |text[1..]| :: text[1..][i] == text[i + 1];
      BlockEnds(text[1..], rest);
      assert s[1] == if |text| > 1 then text[1] else '*';
    }
  }

  /** A block comment is one region up to its first end mark. */
  lemma BlockCommentIsOnePiece(text: string, rest: string)
    requires EndsFirstHere(text)
    ensures FirstPiece(['/', '*'] + text + ['*', '/'] + rest) == Ok(Copied(['/', '*'] + text + ['*', '/']))
  {
    BlockEnds(text, rest);
    var s := ['/', '*'] + text + ['*', '/'] + rest;
    assert s[2..] == text + ['*', '/'] + rest;
    assert s[..2 + |text| + 2] == ['/', '*'] + text + ['*', '/'];
  }

  lemma {:induction false} NoBlockEnd(text: string)
    requires EndsFirstHere(text)
    ensures BlockEnd(text).None?
  {
    if |text| >= 2 {
      assert forall i | 0 <= i < |text[1..]| :: text[1..][i] == text[i + 1];
      NoBlockEnd(text[1..]);
    }
  }

  lemma OpenCommentIsRefused(text: string)
    requires EndsFirstHere(text)
    ensures FirstPiece(['/', '*'] + text) == Raised(UnterminatedComment)
  {
    NoBlockEnd(text);
    assert (['/', '*'] + text)[2..] == text;
  }

  // ----- Everything else -----

  /** A single character is whitespace, or stands for itself unless it opens a quote or, with the next one, a comment. */
  lemma OtherCharacters(c: char, rest: string)
    ensures c == ' ' || c == '\t' || c == '\n' || c == '\r' || c == '\U{0C}' ==> FirstPiece([c] + rest) == Ok(Blank(c))
    ensures c !in " \t\n\r\U{0C}'\"`[" && !(c == '-' && rest != [] && rest[0] == '-') && !(c == '/' && rest != [] && rest[0] == '*') ==>
      FirstPiece([c] + rest) == Ok(Plain(c))
  {
  }

  // ----- The clause stands nowhere else -----

  lemma KindIsSpelled(s: string, i: nat) returns (kind: string)
    requires KindEnd(s, i).Some?
    ensures kind in {" TABLE", " INDEX", " TRIGGER", " VIEW"} && Spells(s, i, kind) && KindEnd(s, i) == Some(i + |kind|)
    ensures IsPattern(kind)
  {
    hide Spells;
    PatternsAreUpper();
    kind :=
      if Spells(s, i, " TABLE") then " TABLE"
      else if Spells(s, i, " INDEX") then " INDEX"
      else if Spells(s, i, " TRIGGER") then " TRIGGER" else " VIEW";
  }

  lemma HeadIsSpelled(s: string, unique: bool)
    requires Spells(s, 0, "CREATE") && (unique ==> Spells(s, 6, " UNIQUE"))
    ensures var before := if unique then "CREATE UNIQUE" else "CREATE";
      |before| <= |s| && SameLetters(s[..|before|], before)
  {
    hide Spells, SameLetters;
    PatternsAreUpper();
    NothingIsSpelled(s);
    SpelledThrough(s, "", "CREATE");
    assert "" + "CREATE" == "CREATE";
    if unique {
      SpelledThrough(s, "CREATE", " UNIQUE");
      assert "CREATE" + " UNIQUE" == "CREATE UNIQUE";
    }
  }

  lemma NothingIsSpelled(s: string)
    ensures SameLetters(s[..0], "")
  {
  }

  /** A clause is found only behind CREATE, UNIQUE or not, and one of the four kinds, in any case. */
  lemma ClauseOnlyThere(s: string, isWord: char -> bool) returns (unique: bool, kind: string)
    requires ClauseAt(s, isWord).Some?
    ensures kind in {" TABLE", " INDEX", " TRIGGER", " VIEW"} && |Head(unique, kind) + CLAUSE| <= |s|
    ensures SameLetters(s[..|Head(unique, kind) + CLAUSE|], Head(unique, kind) + CLAUSE)
    ensures ClauseAt(s, isWord) == Some(|Head(unique, kind)|)
    ensures |Head(unique, kind) + CLAUSE| < |s| ==> !isWord(s[|Head(unique, kind) + CLAUSE|])
  {
    hide Spells, SameLetters, CLAUSE, KindEnd, IsPattern;
    unique := Spells(s, 6, " UNIQUE");
    var before := if unique then "CREATE UNIQUE" else "CREATE";
    kind := KindIsSpelled(s, |before|);
    PatternsAreUpper();
    HeadIsSpelled(s, unique);
    SpelledThrough(s, before, kind);
    SpelledThrough(s, before + kind, CLAUSE);
  }

  lemma SpelledThrough(s: string, done: string, word: string)
    requires |done| <= |s| && SameLetters(s[..|done|], done)
    requires Spells(s, |done|, word) && IsPattern(word)
    ensures |done + word| <= |s| && SameLetters(s[..|done + word|], done + word)
  {
    hide Matches, Folded;
    forall i | 0 <= i < |done + word| ensures Folded(s[i]) == Folded((done + word)[i]) {
      if i < |done| {
        assert s[..|done|][i] == s[i];
      } else {
        var k := i - |done|;
        assert Matches(s[|done| + k], word[k]);
        MatchesByFolding(s[i], word[k]);
        MatchesByFolding(word[k], word[k]);
        MatchesItself(word[k]);
      }
    }
  }

  lemma MatchesItself(c: char)
    ensures Matches(c, c)
  {
  }
}
