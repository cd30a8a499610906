/** On which inputs canonicalizing schema SQL twice is canonicalizing it once. */
module SqlIdempotence {
  import opened Common
  import opened SqlPieces
  import opened SqlCanonical
  import opened SqlFixpoint

  // ----- Two clauses in a row -----

  /** The text opens with a clause that is directly followed by another one. */
  predicate OpensWithTwoClauses(t: string, isWord: char -> bool) {
    var at := ClauseAt(t, isWord);
    at.Some? &&
    var m := at.value + |CLAUSE|;
    Spells(t, m, CLAUSE) && (m + |CLAUSE| < |t| ==> !isWord(t[m + |CLAUSE|]))
  }

  lemma SpellsLocally(s: string, t: string, n: nat, i: nat, word: string)
    requires n <= |s| && n <= |t| && s[..n] == t[..n] && i + |word| <= n
    ensures Spells(s, i, word) <==> Spells(t, i, word)
  {
    assert forall k | 0 <= k < n :: s[k] == s[..n][k] && t[k] == t[..n][k];
  }

  lemma SpellsShifted(s: string, t: string, n: nat, m: nat, word: string)
    requires n <= |s| && m <= |t| && s[n..] == t[m..]
    ensures Spells(s, n, word) <==> Spells(t, m, word)
  {
    assert forall k | 0 <= k < |s| - n :: s[n + k] == s[n..][k] && t[m + k] == t[m..][k];
  }

  /** Where the kind ends depends on no character behind it. */
  lemma KindIsLocal(s: string, t: string, i: nat)
    requires KindEnd(t, i).Some? && KindEnd(t, i).value <= |t| && KindEnd(t, i).value <= |s|
    requires s[..KindEnd(t, i).value] == t[..KindEnd(t, i).value]
    ensures KindEnd(s, i) == KindEnd(t, i)
  {
    hide Spells, Matches;
    var n := KindEnd(t, i).value;
    SpellsLocally(s, t, n, i, " VIEW");
    if n == i + 5 {
      assert s[i + 1] == s[..n][i + 1] && t[i + 1] == t[..n][i + 1];
      SecondLetter(t, i, " VIEW");
      LettersDiffer(t[i + 1]);
      NotSpelledBySecond(s, i, " TABLE");
      NotSpelledBySecond(s, i, " INDEX");
      NotSpelledBySecond(s, i, " TRIGGER");
    } else {
      SpellsLocally(s, t, n, i, " TABLE");
      SpellsLocally(s, t, n, i, " INDEX");
      if n == i + 8 {
        SpellsLocally(s, t, n, i, " TRIGGER");
      }
    }
  }

  lemma SecondLetter(s: string, i: nat, word: string)
    requires Spells(s, i, word) && |word| > 1
    ensures i + 1 < |s| && Matches(s[i + 1], word[1])
  {
  }

  lemma NotSpelledBySecond(s: string, i: nat, word: string)
    requires |word| > 1 && i + 1 < |s| && !Matches(s[i + 1], word[1])
    ensures !Spells(s, i, word)
  {
  }

  lemma LettersDiffer(c: char)
    ensures Matches(c, 'V') ==> !Matches(c, 'T') && !Matches(c, 'I')
    ensures Matches(c, 'U') ==> !Matches(c, 'T') && !Matches(c, 'I') && !Matches(c, 'V')
  {
  }

  lemma KindOpens(t: string, i: nat)
    requires KindEnd(t, i).Some?
    ensures i + 1 < KindEnd(t, i).value <= |t|
    ensures Matches(t[i + 1], 'T') || Matches(t[i + 1], 'I') || Matches(t[i + 1], 'V')
  {
    hide Matches, Spells;
    if Spells(t, i, " TABLE") {
      SecondLetter(t, i, " TABLE");
      SpellsWithin(t, i, " TABLE");
    } else if Spells(t, i, " INDEX") {
      SecondLetter(t, i, " INDEX");
      SpellsWithin(t, i, " INDEX");
    } else if Spells(t, i, " TRIGGER") {
      SecondLetter(t, i, " TRIGGER");
      SpellsWithin(t, i, " TRIGGER");
    } else {
      SecondLetter(t, i, " VIEW");
      SpellsWithin(t, i, " VIEW");
    }
  }

  /** With its clause removed, a text opens with a clause exactly when it opened with two. */
  lemma SecondClause(t: string, isWord: char -> bool)
    ensures ClauseAt(WithoutClause(t, isWord), isWord).Some? <==> OpensWithTwoClauses(t, isWord)
  {
    hide Spells, KindEnd, Matches;
    var at := ClauseAt(t, isWord);
    if at.Some? {
      var n, m := at.value, at.value + |CLAUSE|;
      var c := WithoutClause(t, isWord);
      assert c[..n] == t[..n] && c[n..] == t[m..];
      var unique := Spells(t, 6, " UNIQUE");
      var i := if unique then 13 else 6;
      KindOpens(t, i);
      SpellsLocally(c, t, n, 0, "CREATE");
      if unique {
        SpellsLocally(c, t, n, 6, " UNIQUE");
      } else {
        assert c[7] == c[..n][7] && t[7] == t[..n][7];
        LettersDiffer(c[7]);
        NotSpelledBySecond(c, 6, " UNIQUE");
      }
      KindIsLocal(c, t, i);
      SpellsShifted(c, t, n, m, CLAUSE);
      if m + |CLAUSE| < |t| {
        assert c[n + |CLAUSE|] == c[n..][|CLAUSE|] && t[m + |CLAUSE|] == t[m..][|CLAUSE|];
      }
    }
  }

  // ----- The condition -----

  /** Canonicalizing twice is canonicalizing once exactly on the inputs that do not end in two semicolons outside quotes and
      comments, whatever whitespace stands between and behind them, and do not open with two IF NOT EXISTS in a row. */
  lemma CanonicalIsIdempotentWhen(sql: string, isWord: char -> bool)
    ensures Canonical(sql, isWord).Ok? ==>
      var ps := Lex(sql).value;
      Canonical(Canonical(sql, isWord).value, isWord) == Canonical(sql, isWord) <==>
        !EndsInTwoSemicolons(Shape(ps)) && !OpensWithTwoClauses(TrimmedText(ps), isWord)
  {
    hide Lex, Lexable, Tidy, Text, ClauseAt, ShapeFrom, Spaced, WithoutClause, OpensWithTwoClauses, Trimmed;
    if Canonical(sql, isWord).Ok? {
      var qs := FirstPass(sql, isWord);
      SecondPass(qs, isWord);
      SecondClause(TrimmedText(Lex(sql).value), isWord);
    }
  }

  // ----- A concrete input with two clauses -----

  /** Words of inert characters with single spaces between them. */
  predicate Neat(x: string) {
    && x != [] && x[0] != ' ' && x[|x| - 1] != ' '
    && (forall k | 0 <= k < |x| :: Inert(x[k]))
    && (forall k | 1 <= k < |x| :: x[k] != ' ' || x[k - 1] != ' ')
  }

  lemma NeatJoin(x: string, y: string)
    requires Neat(x) && Neat(y)
    ensures Neat(x + [' '] + y)
  {
    hide Inert;
    SpaceIsInert();
  }

  lemma SpaceIsInert()
    ensures Inert(' ')
  {
  }

  lemma {:induction false} NeatIsTidy(x: string, started: bool, afterBlank: bool)
    requires x == [] ==> !afterBlank
    requires x != [] ==> x[|x| - 1] != ' ' && (x[0] == ' ' ==> started && !afterBlank)
    requires forall k | 1 <= k < |x| :: x[k] != ' ' || x[k - 1] != ' '
    ensures Tidy(Singles(x), started, afterBlank)
  {
    if x != [] {
      assert forall k | 1 <= k < |x[1..]| :: x[1..][k] == x[k + 1] && x[1..][k - 1] == x[k];
      NeatIsTidy(x[1..], true, x[0] == ' ');
      assert Singles(x)[1..] == Singles(x[1..]);
    }
  }

  /** Neat text that does not end in a semicolon loses at most a clause. */
  lemma NeatTextIsTrimmed(x: string, isWord: char -> bool)
    requires Neat(x) && |x| <= MAX_SCHEMA_SQL_LENGTH && x[|x| - 1] != ';'
    ensures Canonical(x, isWord) == Ok(WithoutClause(x, isWord))
  {
    hide Inert, Lex, Lexable, Tidy, Text, ShapeFrom, Spaced, WithoutClause;
    NothingIsLexable();
    SinglesAreLexable(x, []);
    assert Singles(x) + [] == Singles(x) && x + [] == x;
    LexableIsLexed(Singles(x));
    NeatIsTidy(x, false, false);
    TidyIsSpaced(Singles(x), false, false);
    assert [] + Singles(x) == Singles(x);
    ShapeIsShape(Singles(x), false, false);
    SpacedEnd(Shape(Singles(x)));
  }

  lemma NeatWords()
    ensures Neat("CREATE") && Neat("TABLE") && Neat("IF") && Neat("NOT") && Neat("EXISTS") && Neat("a")
  {
  }

  lemma NeatClause(x: string)
    requires Neat(x)
    ensures Neat(x + CLAUSE)
  {
    hide Neat;
    NeatWords();
    NeatJoin(x, "IF");
    NeatJoin(x + [' '] + "IF", "NOT");
    NeatJoin(x + [' '] + "IF" + [' '] + "NOT", "EXISTS");
    assert x + CLAUSE == x + [' '] + "IF" + [' '] + "NOT" + [' '] + "EXISTS";
  }

  const TABLE_A: string := "CREATE TABLE a"
  const TABLE_A_ONCE: string := "CREATE TABLE IF NOT EXISTS a"
  const TABLE_A_TWICE: string := "CREATE TABLE IF NOT EXISTS IF NOT EXISTS a"

  lemma TableWithoutClause()
    ensures TABLE_A == Head(false, " TABLE") + " a"
  {
  }

  lemma TableWithClause()
    ensures TABLE_A_ONCE == Head(false, " TABLE") + CLAUSE + " a"
  {
  }

  lemma TableWithTwoClauses()
    ensures TABLE_A_TWICE == Head(false, " TABLE") + CLAUSE + (CLAUSE + " a")
  {
  }

  lemma TextsByClause()
    ensures TABLE_A == Head(false, " TABLE") + " a"
    ensures TABLE_A_ONCE == Head(false, " TABLE") + CLAUSE + " a"
    ensures TABLE_A_TWICE == Head(false, " TABLE") + CLAUSE + (CLAUSE + " a")
  {
    hide TABLE_A, TABLE_A_ONCE, TABLE_A_TWICE, CLAUSE;
    TableWithoutClause();
    TableWithClause();
    TableWithTwoClauses();
  }

  /** A neat table definition loses its first clause. */
  lemma NeatWithClause(text: string, rest: string, isWord: char -> bool)
    requires var x := Head(false, " TABLE") + CLAUSE + rest; Neat(x) && |x| <= MAX_SCHEMA_SQL_LENGTH && x[|x| - 1] != ';'
    requires text == Head(false, " TABLE") + CLAUSE + rest && rest != [] && !isWord(rest[0])
    ensures Canonical(text, isWord) == Ok(Head(false, " TABLE") + rest)
  {
    hide Neat, WithoutClause, Canonical;
    NeatTextIsTrimmed(text, isWord);
    ClauseIsRemoved(false, " TABLE", rest, isWord);
  }

  lemma NeatTables()
    ensures Neat(TABLE_A_ONCE) && Neat(TABLE_A_TWICE)
  {
    hide Neat;
    var head := Head(false, " TABLE");
    NeatWords();
    NeatJoin("CREATE", "TABLE");
    assert head == "CREATE" + [' '] + "TABLE";
    NeatClause(head);
    NeatClause(head + CLAUSE);
    NeatJoin(head + CLAUSE, "a");
    NeatJoin(head + CLAUSE + CLAUSE, "a");
    TextsByClause();
    SpacedA(head + CLAUSE);
    SpacedA(head + CLAUSE + CLAUSE);
    ClauseThenA(head + CLAUSE);
  }

  lemma SpacedA(x: string)
    ensures x + " a" == x + [' '] + "a"
  {
  }

  lemma ClauseThenA(x: string)
    ensures x + (CLAUSE + " a") == x + CLAUSE + " a"
  {
  }

  /** A doubled IF NOT EXISTS loses one per pass, so the canonicalizer is not idempotent; a space is no word character. */
  lemma TwoClauses(isWord: char -> bool)
    requires !isWord(' ')
    ensures Canonical("CREATE TABLE IF NOT EXISTS IF NOT EXISTS a", isWord) == Ok("CREATE TABLE IF NOT EXISTS a")
    ensures Canonical("CREATE TABLE IF NOT EXISTS a", isWord) == Ok("CREATE TABLE a")
  {
    hide Neat, Canonical;
    NeatTables();
    TextsByClause();
    ClauseThenA(Head(false, " TABLE"));
    NeatWithClause(TABLE_A_TWICE, CLAUSE + " a", isWord);
    NeatWithClause(TABLE_A_ONCE, " a", isWord);
  }
}
