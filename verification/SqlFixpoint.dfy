/** When canonicalizing a canonical schema text changes nothing. */
module SqlFixpoint {
  import opened Common
  import opened SqlPieces
  import opened SqlCanonical

  // ----- Tidy pieces: single spaces between solid pieces -----

  ghost predicate Tidy(ps: seq<Piece>, started: bool, afterBlank: bool) {
    if ps == [] then !afterBlank
    else if ps[0].Blank? then ps[0] == Blank(' ') && started && !afterBlank && Tidy(ps[1..], true, true)
    else Tidy(ps[1..], true, false)
  }

  lemma {:induction false} TidyIsSpaced(ps: seq<Piece>, started: bool, afterBlank: bool)
    requires Tidy(ps, started, afterBlank) && (afterBlank ==> started)
    ensures Spaced(ShapeFrom(ps, started, afterBlank)) == (if afterBlank then [Blank(' ')] else []) + ps
  {
    if ps != [] {
      TidyIsSpaced(ps[1..], true, ps[0].Blank?);
      if !ps[0].Blank? {
        SpacedCons(Solid(afterBlank, ps[0]), ShapeFrom(ps[1..], true, false));
      }
    }
  }

  lemma {:induction false} SpacedIsTidy(shape: seq<Solid>, started: bool)
    requires IsShape(shape, started)
    ensures Tidy(Spaced(shape), started, false)
  {
    hide Tidy, SpacedOne;
    NothingIsTidy(started);
    if shape != [] {
      assert IsShape(shape[1..], true) && !shape[0].piece.Blank? && (shape[0].gap ==> started);
      SpacedIsTidy(shape[1..], true);
      TidyBehind(shape[0], Spaced(shape[1..]), started);
    }
  }

  lemma NothingIsTidy(started: bool)
    ensures Tidy([], started, false)
  {
  }

  lemma TidyBehind(s: Solid, rest: seq<Piece>, started: bool)
    requires Tidy(rest, true, false) && !s.piece.Blank? && (s.gap ==> started)
    ensures Tidy(SpacedOne(s) + rest, started, false)
  {
    var solid := [s.piece] + rest;
    assert solid[1..] == rest;
    var spaced := [Blank(' ')] + solid;
    assert spaced[1..] == solid;
    assert SpacedOne(s) + rest == if s.gap then spaced else solid;
  }

  lemma {:induction false} TidySuffix(ps: seq<Piece>, started: bool, afterBlank: bool, k: nat)
    requires Tidy(ps, started, afterBlank) && 0 < k <= |ps|
    ensures Tidy(ps[k..], true, ps[k - 1].Blank?)
  {
    if k > 1 {
      TidySuffix(ps[1..], true, ps[0].Blank?, k - 1);
      assert ps[1..][k - 1..] == ps[k..];
    }
  }

  lemma {:induction false} TidySplice(a: seq<Piece>, b: seq<Piece>, c: seq<Piece>, started: bool, afterBlank: bool)
    requires a != [] && Tidy(a + b, started, afterBlank) && Tidy(c, true, a[|a| - 1].Blank?)
    ensures Tidy(a + c, started, afterBlank)
  {
    assert (a + b)[1..] == a[1..] + b && (a + c)[1..] == a[1..] + c;
    if |a| > 1 {
      TidySplice(a[1..], b, c, true, a[0].Blank?);
    } else {
      assert a[1..] + c == c;
    }
  }

  lemma {:induction false} LexablePrefix(ps: seq<Piece>, qs: seq<Piece>)
    requires Lexable(ps + qs)
    ensures Lexable(ps)
  {
    hide FirstPiece;
    if ps != [] {
      assert (ps + qs)[1..] == ps[1..] + qs;
      LexablePrefix(ps[1..], qs);
      TextOfJoin(ps[1..], qs);
      PrefixHead(Text(ps[1..]), Text(qs));
      PieceIsStable(ps[0], Text(ps[1..] + qs), Text(ps[1..]));
    }
  }

  lemma PrefixHead(x: string, y: string)
    ensures HeadAgrees(x + y, x)
  {
  }

  lemma {:induction false} TextOfJoin(ps: seq<Piece>, qs: seq<Piece>)
    ensures Text(ps + qs) == Text(ps) + Text(qs)
  {
    if ps == [] {
      assert ps + qs == qs;
    } else {
      assert (ps + qs)[1..] == ps[1..] + qs;
      TextOfJoin(ps[1..], qs);
    }
  }

  // ----- Removing the clause -----

  /** A character that is a piece by itself whatever follows it. */
  predicate Inert(c: char) {
    c == ' ' || (!IsWhite(c) && !OpensQuote(c) && c != '-' && c != '/')
  }

  function Single(c: char): Piece {
    if c == ' ' then Blank(' ') else Plain(c)
  }

  function Singles(x: string): seq<Piece> {
    seq(|x|, i requires 0 <= i < |x| => Single(x[i]))
  }

  lemma InertIsSingle(c: char, rest: string)
    requires Inert(c)
    ensures FirstPiece([c] + rest) == Ok(Single(c)) && TextOf(Single(c)) == [c]
  {
  }

  /** Inert characters at the front of a text are its first pieces. */
  lemma {:induction false} InertAreSingles(ps: seq<Piece>, m: nat)
    requires Lexable(ps) && m <= |Text(ps)| && forall k | 0 <= k < m :: Inert(Text(ps)[k])
    ensures m <= |ps| && ps[..m] == Singles(Text(ps)[..m]) && Lexable(ps[m..]) && Text(ps[m..]) == Text(ps)[m..]
  {
    hide Inert, Lexable, Text;
    if m == 0 {
      assert ps[0..] == ps && Text(ps)[0..] == Text(ps);
    } else {
      var t := Text(ps);
      InertHead(ps);
      assert t[1..] == Text(ps[1..]);
      InertAreSingles(ps[1..], m - 1);
      assert ps[1..][m - 1..] == ps[m..] && t[1..][m - 1..] == t[m..];
      assert t[..m] == [t[0]] + t[1..][..m - 1] && ps[..m] == [ps[0]] + ps[1..][..m - 1];
    }
  }

  lemma InertHead(ps: seq<Piece>)
    requires Lexable(ps) && Text(ps) != [] && Inert(Text(ps)[0])
    ensures ps != [] && ps[0] == Single(Text(ps)[0]) && Text(ps) == [Text(ps)[0]] + Text(ps[1..]) && Lexable(ps[1..])
  {
    hide FirstPiece, Inert;
    var t := Text(ps);
    assert t == [t[0]] + t[1..];
    InertIsSingle(t[0], t[1..]);
  }

  lemma {:induction false} SinglesAreLexable(x: string, rest: seq<Piece>)
    requires Lexable(rest) && forall k | 0 <= k < |x| :: Inert(x[k])
    ensures Lexable(Singles(x) + rest) && Text(Singles(x) + rest) == x + Text(rest)
  {
    hide FirstPiece, Inert;
    if x == [] {
      assert Singles(x) + rest == rest && x + Text(rest) == Text(rest);
    } else {
      SinglesAreLexable(x[1..], rest);
      var all := Singles(x) + rest;
      assert all[1..] == Singles(x[1..]) + rest;
      InertIsSingle(x[0], Text(all[1..]));
      assert x + Text(rest) == [x[0]] + (x[1..] + Text(rest));
    }
  }

  predicate IsUpper(c: char) {
    'A' <= c <= 'Z'
  }

  lemma MatchIsInert(c: char, letter: char)
    requires Matches(c, letter) && (IsUpper(letter) || letter == ' ')
    ensures Inert(c) && c != ';' && (IsUpper(letter) ==> c != ' ')
  {
  }

  lemma SpelledIsInert(s: string, i: nat, word: string)
    requires Spells(s, i, word) && word != [] && forall k | 0 <= k < |word| :: IsUpper(word[k]) || word[k] == ' '
    ensures forall k | i <= k < i + |word| :: Inert(s[k])
    ensures s[i + |word| - 1] != ';' && (IsUpper(word[|word| - 1]) ==> s[i + |word| - 1] != ' ')
  {
    hide Inert, IsUpper, Matches;
    forall k | i <= k < i + |word| ensures Inert(s[k]) {
      assert Matches(s[i + (k - i)], word[k - i]);
      MatchIsInert(s[k], word[k - i]);
    }
    MatchIsInert(s[i + (|word| - 1)], word[|word| - 1]);
  }

  lemma KindIsInert(s: string, i: nat)
    ensures KindEnd(s, i).Some? ==> i < KindEnd(s, i).value <= |s| && s[KindEnd(s, i).value - 1] !in {' ', ';'}
    ensures KindEnd(s, i).Some? ==> forall k | i <= k < KindEnd(s, i).value :: Inert(s[k])
  {
    hide Inert, Spells;
    if Spells(s, i, " TABLE") {
      SpelledIsInert(s, i, " TABLE");
      SpellsWithin(s, i, " TABLE");
    } else if Spells(s, i, " INDEX") {
      SpelledIsInert(s, i, " INDEX");
      SpellsWithin(s, i, " INDEX");
    } else if Spells(s, i, " TRIGGER") {
      SpelledIsInert(s, i, " TRIGGER");
      SpellsWithin(s, i, " TRIGGER");
    } else if Spells(s, i, " VIEW") {
      SpelledIsInert(s, i, " VIEW");
      SpellsWithin(s, i, " VIEW");
    }
  }

  lemma SpellsWithin(s: string, i: nat, word: string)
    requires Spells(s, i, word)
    ensures i + |word| <= |s|
  {
  }

  lemma ClauseIsInert(s: string, isWord: char -> bool)
    requires ClauseAt(s, isWord).Some?
    ensures var n := ClauseAt(s, isWord).value; var m := n + |CLAUSE|;
      && (forall k | 0 <= k < m :: Inert(s[k])) && s[n - 1] !in {' ', ';'} && s[m - 1] !in {' ', ';'}
  {
    hide Inert, Spells, KindEnd;
    var i := if Spells(s, 6, " UNIQUE") then 13 else 6;
    SpelledIsInert(s, 0, "CREATE");
    if Spells(s, 6, " UNIQUE") {
      SpelledIsInert(s, 6, " UNIQUE");
    }
    KindIsInert(s, i);
    SpelledIsInert(s, KindEnd(s, i).value, CLAUSE);
  }

  /** Removing the clause leaves tidy pieces tidy and recognisable. */
  lemma WithoutClauseIsTidy(ps: seq<Piece>, isWord: char -> bool) returns (qs: seq<Piece>)
    requires Lexable(ps) && Tidy(ps, false, false) && ps != []
    ensures Lexable(qs) && Tidy(qs, false, false) && Text(qs) == WithoutClause(Text(ps), isWord) && Text(qs) != []
    ensures EndsInSemicolon(qs) <==> EndsInSemicolon(ps)
  {
    hide Lexable, Tidy, Text, ClauseAt, Inert;
    var t := Text(ps);
    var at := ClauseAt(t, isWord);
    if at.None? {
      SomeText(ps);
      return ps;
    }
    var n, m := at.value, at.value + |CLAUSE|;
    ClauseIsInert(t, isWord);
    InertAreSingles(ps, m);
    qs := Singles(t[..n]) + ps[m..];
    SinglesAreLexable(t[..n], ps[m..]);
    assert ps[..n] == Singles(t[..n]) by {
      assert ps[..n] == ps[..m][..n] && Singles(t[..n]) == Singles(t[..m])[..n];
    }
    assert ps[n - 1] == Single(t[n - 1]) && ps[m - 1] == Single(t[m - 1]) by {
      assert ps[n - 1] == ps[..m][n - 1] && ps[m - 1] == ps[..m][m - 1];
    }
    TidySuffix(ps, false, false, m);
    assert ps == ps[..n] + ps[n..];
    TidySplice(ps[..n], ps[n..], ps[m..], false, false);
    assert qs[n - 1] == Single(t[n - 1]);
  }

  lemma SomeText(ps: seq<Piece>)
    requires Lexable(ps) && ps != []
    ensures Text(ps) != []
  {
  }

  // ----- The second pass -----

  lemma {:induction false} CollapseDoesNotGrow(ps: seq<Piece>, started: bool, pending: bool)
    requires forall i | 0 <= i < |ps| :: TextOf(ps[i]) != []
    ensures |Text(Spaced(ShapeFrom(ps, started, pending)))| <= |Text(ps)| + if pending then 1 else 0
  {
    if ps != [] {
      if ps[0].Blank? {
        CollapseDoesNotGrow(ps[1..], started, started);
      } else {
        var shape := ShapeFrom(ps[1..], true, false);
        CollapseDoesNotGrow(ps[1..], true, false);
        SpacedCons(Solid(pending, ps[0]), shape);
        TextOfJoin(SpacedOne(Solid(pending, ps[0])), Spaced(shape));
        assert Text([ps[0]]) == TextOf(ps[0]);
        assert [Blank(' '), ps[0]][1..] == [ps[0]];
      }
    }
  }

  /** The last two pieces that are not whitespace are plain semicolons. */
  predicate EndsInTwoSemicolons(shape: seq<Solid>) {
    |shape| > 1 && shape[|shape| - 1].piece == Plain(';') && shape[|shape| - 2].piece == Plain(';')
  }

  /** The first pass leaves tidy pieces, no longer than the input. */
  lemma FirstPass(sql: string, isWord: char -> bool) returns (qs: seq<Piece>)
    requires Canonical(sql, isWord).Ok?
    ensures Lexable(qs) && Tidy(qs, false, false) && Text(qs) == Canonical(sql, isWord).value
    ensures 0 < |Text(qs)| <= MAX_SCHEMA_SQL_LENGTH
    ensures EndsInSemicolon(qs) <==> EndsInTwoSemicolons(Shape(Lex(sql).value))
  {
    hide Lex, Lexable, Tidy, Text, ShapeFrom, Spaced, ClauseAt;
    var ps := Lex(sql).value;
    var shape := Shape(ps);
    LexIsLossless(sql);
    LexedIsProper(sql);
    ShapeIsShape(ps, false, false);
    SpacedIsLexable(ps, false, false);
    CollapseDoesNotGrow(ps, false, false);
    var trimmed := Trimmed(shape);
    if trimmed != shape {
      assert shape == trimmed + [shape[|shape| - 1]];
      SpacedAppend(trimmed, shape[|shape| - 1]);
      LexablePrefix(Spaced(trimmed), SpacedOne(shape[|shape| - 1]));
      TextOfJoin(Spaced(trimmed), SpacedOne(shape[|shape| - 1]));
    }
    assert IsShape(trimmed, false);
    SpacedEnd(trimmed);
    SpacedIsTidy(trimmed, false);
    NoText();
    qs := WithoutClauseIsTidy(Spaced(trimmed), isWord);
  }

  lemma NoText()
    ensures Text([]) == []
  {
  }

  /** A second pass over tidy pieces changes nothing exactly when they neither end in a plain semicolon nor open with
      another clause. */
  lemma SecondPass(qs: seq<Piece>, isWord: char -> bool)
    requires Lexable(qs) && Tidy(qs, false, false) && 0 < |Text(qs)| <= MAX_SCHEMA_SQL_LENGTH
    ensures Canonical(Text(qs), isWord) == Ok(Text(qs)) <==> !EndsInSemicolon(qs) && ClauseAt(Text(qs), isWord).None?
  {
    hide Lex, Lexable, Tidy, ShapeFrom, Spaced, ClauseAt, Text;
    var c := Text(qs);
    LexableIsLexed(qs);
    TidyIsSpaced(qs, false, false);
    assert [] + qs == qs;
    var shape := Shape(qs);
    ShapeIsShape(qs, false, false);
    SpacedEnd(shape);
    NoText();
    if EndsInSemicolon(qs) {
      var front, last := shape[..|shape| - 1], shape[|shape| - 1];
      assert shape == front + [last];
      SpacedAppend(front, last);
      TextOfJoin(Spaced(front), SpacedOne(last));
      SomethingSolid(last);
    }
  }

  lemma SomethingSolid(s: Solid)
    requires s.piece == Plain(';')
    ensures Text(SpacedOne(s)) != []
  {
  }

  /** A canonical text is a fixpoint exactly when it neither ends in a semicolon outside quotes and comments nor opens with
      IF NOT EXISTS once more. */
  lemma FixpointsAmongCanonical(sql: string, isWord: char -> bool)
    requires Canonical(sql, isWord).Ok?
    ensures var c := Canonical(sql, isWord).value;
      Lex(c).Ok? &&
      (Canonical(c, isWord) == Ok(c) <==> !EndsInSemicolon(Lex(c).value) && ClauseAt(c, isWord).None?)
  {
    hide Canonical, Lex, Lexable, Tidy, Text, ClauseAt;
    var qs := FirstPass(sql, isWord);
    LexableIsLexed(qs);
    SecondPass(qs, isWord);
  }

  // ----- The clause -----

  function Head(unique: bool, kind: string): string {
    (if unique then "CREATE UNIQUE" else "CREATE") + kind
  }

  lemma SpellsItself(before: string, word: string, rest: string)
    ensures Spells(before + word + rest, |before|, word)
  {
    var s := before + word + rest;
    forall k | 0 <= k < |word| ensures Matches(s[|before| + k], word[k]) {
      assert s[|before| + k] == word[k];
    }
  }

  lemma KindFound(before: string, kind: string, rest: string)
    requires kind in {" TABLE", " INDEX", " TRIGGER", " VIEW"}
    ensures KindEnd(before + kind + rest, |before|) == Some(|before| + |kind|)
  {
    var s := before + kind + rest;
    SpellsItself(before, kind, rest);
    assert forall k | 0 <= k < |kind| :: s[|before| + k] == kind[k];
    if kind != " TABLE" {
      assert !Matches(kind[2], 'A');
      assert !Spells(s, |before|, " TABLE") by { NotSpelled(s, |before|, " TABLE", 2); }
    }
    if kind == " TRIGGER" || kind == " VIEW" {
      assert !Spells(s, |before|, " INDEX") by { NotSpelled(s, |before|, " INDEX", 1); }
    }
    if kind == " VIEW" {
      assert !Spells(s, |before|, " TRIGGER") by { NotSpelled(s, |before|, " TRIGGER", 1); }
    }
  }

  lemma NotSpelled(s: string, i: nat, word: string, k: nat)
    requires k < |word| && i + k < |s| && !Matches(s[i + k], word[k])
    ensures !Spells(s, i, word)
  {
  }

  /** A leading IF NOT EXISTS goes, from every kind of CREATE statement, exactly when no word character follows it. */
  lemma ClauseIsRemoved(unique: bool, kind: string, rest: string, isWord: char -> bool)
    requires kind in {" TABLE", " INDEX", " TRIGGER", " VIEW"}
    ensures var text := Head(unique, kind) + CLAUSE + rest;
      WithoutClause(text, isWord) == if rest != [] && isWord(rest[0]) then text else Head(unique, kind) + rest
  {
    hide KindEnd, Spells;
    var before := if unique then "CREATE UNIQUE" else "CREATE";
    var text := Head(unique, kind) + CLAUSE + rest;
    var tail := kind + (CLAUSE + rest);
    assert text == before + kind + (CLAUSE + rest);
    KindFound(before, kind, CLAUSE + rest);
    SpellsItself(before + kind, CLAUSE, rest);
    UniqueFound(unique, kind, CLAUSE + rest);
    assert text[..|before + kind|] == Head(unique, kind);
    assert text[|before + kind| + |CLAUSE|..] == rest;
  }

  lemma UniqueFound(unique: bool, kind: string, rest: string)
    requires kind in {" TABLE", " INDEX", " TRIGGER", " VIEW"}
    ensures var text := Head(unique, kind) + rest;
      Spells(text, 0, "CREATE") && (Spells(text, 6, " UNIQUE") <==> unique)
  {
    hide Spells, Matches;
    if unique {
      assert Head(unique, kind) + rest == "CREATE UNIQUE" + (kind + rest);
      UniqueHead(kind + rest);
    } else {
      assert Head(unique, kind) + rest == "CREATE" + (kind + rest);
      assert (kind + rest)[1] == kind[1];
      PlainHead(kind + rest);
    }
  }

  lemma UniqueHead(rest: string)
    ensures Spells("CREATE UNIQUE" + rest, 0, "CREATE") && Spells("CREATE UNIQUE" + rest, 6, " UNIQUE")
  {
    hide Spells;
    assert "CREATE UNIQUE" + rest == "" + "CREATE" + (" UNIQUE" + rest);
    SpellsItself("", "CREATE", " UNIQUE" + rest);
    assert "CREATE UNIQUE" + rest == "CREATE" + " UNIQUE" + rest;
    SpellsItself("CREATE", " UNIQUE", rest);
  }

  lemma PlainHead(rest: string)
    requires |rest| > 1 && rest[1] in {'T', 'I', 'V'}
    ensures Spells("CREATE" + rest, 0, "CREATE") && !Spells("CREATE" + rest, 6, " UNIQUE")
  {
    hide Spells;
    assert "CREATE" + rest == "" + "CREATE" + rest;
    SpellsItself("", "CREATE", rest);
    assert ("CREATE" + rest)[7] == rest[1];
    NotSpelled("CREATE" + rest, 6, " UNIQUE", 1);
  }

  /** Two trailing semicolons lose one per pass. */
  lemma TwoSemicolons(isWord: char -> bool)
    ensures Canonical("a;;", isWord) == Ok("a;") && Canonical("a;", isWord) == Ok("a")
  {
    hide Lex, FirstPiece, Lexable, Spaced, ShapeFrom, Text;
    var two, one, none := [Solid(false, Plain('a')), Solid(false, Plain(';')), Solid(false, Plain(';'))],
      [Solid(false, Plain('a')), Solid(false, Plain(';'))], [Solid(false, Plain('a'))];
    PlainText("a;;", two);
    PlainText("a;", one);
    PlainText("a", none);
    assert two[..2] == one && one[..1] == none;
  }

  lemma NothingIsLexable()
    ensures Lexable([]) && Text([]) == []
  {
  }

  lemma PlainText(x: string, shape: seq<Solid>)
    requires |x| == |shape| && forall i | 0 <= i < |x| :: Inert(x[i]) && x[i] != ' ' && shape[i] == Solid(false, Plain(x[i]))
    ensures Lex(x).Ok? && Shape(Lex(x).value) == shape && Text(Spaced(shape)) == x
  {
    hide Inert, FirstPiece, Lexable, Spaced, ShapeFrom, Text, Lex;
    NothingIsLexable();
    SinglesAreLexable(x, []);
    assert Singles(x) + [] == Singles(x) && x + [] == x;
    LexableIsLexed(Singles(x));
    ShapeOfPlain(shape, false);
    assert Spaced(shape) == Singles(x);
  }

  lemma {:induction false} ShapeOfPlain(shape: seq<Solid>, started: bool)
    requires forall i | 0 <= i < |shape| :: shape[i].piece.Plain? && !shape[i].gap
    ensures |Spaced(shape)| == |shape| && ShapeFrom(Spaced(shape), started, false) == shape
    ensures forall i | 0 <= i < |shape| :: Spaced(shape)[i] == shape[i].piece
  {
    if shape != [] {
      ShapeOfPlain(shape[1..], true);
      assert Spaced(shape) == [shape[0].piece] + Spaced(shape[1..]);
      assert Spaced(shape)[1..] == Spaced(shape[1..]);
      assert [shape[0]] + shape[1..] == shape;
    }
  }

  // ----- Letters in any case -----

  /** The upper-case letter a character stands for where case is ignored: İ, ı and ſ stand for I and S as well. */
  function Folded(c: char): char {
    if 'a' <= c <= 'z' then c - 'a' + 'A'
    else if c == '\U{130}' || c == '\U{131}' then 'I'
    else if c == '\U{17F}' then 'S'
    else c
  }

  predicate IsPattern(word: string) {
    forall k | 0 <= k < |word| :: IsUpper(word[k]) || word[k] == ' '
  }

  /** One pattern letter matches exactly the characters that stand for it. */
  lemma MatchesByFolding(c: char, letter: char)
    requires IsUpper(letter) || letter == ' '
    ensures Matches(c, letter) <==> Folded(c) == letter
  {
    if 'a' <= c <= 'z' {
      assert (c - 'a' + 'A') as int == c as int - 'a' as int + 'A' as int;
    }
  }

  predicate SameLetters(s: string, t: string) {
    |s| == |t| && forall i | 0 <= i < |s| :: Folded(s[i]) == Folded(t[i])
  }

  lemma SpelledAlike(s: string, t: string, i: nat, word: string)
    requires SameLetters(s, t) && IsPattern(word)
    ensures Spells(s, i, word) <==> Spells(t, i, word)
  {
    hide Matches, Folded, IsUpper;
    if i + |word| <= |s| {
      forall k | 0 <= k < |word| ensures Matches(s[i + k], word[k]) <==> Matches(t[i + k], word[k]) {
        MatchesByFolding(s[i + k], word[k]);
        MatchesByFolding(t[i + k], word[k]);
        var at := i + k;
        assert Folded(s[at]) == Folded(t[at]);
      }
    }
  }

  lemma PatternsAreUpper()
    ensures IsPattern("CREATE") && IsPattern(" UNIQUE") && IsPattern(" TABLE") && IsPattern(" INDEX") && IsPattern(" TRIGGER")
    ensures IsPattern(" VIEW") && IsPattern(CLAUSE)
  {
  }

  /** Where the clause stands does not depend on the case of any letter. */
  lemma CaseIsIgnored(s: string, t: string, isWord: char -> bool)
    requires SameLetters(s, t) && forall i | 0 <= i < |s| :: isWord(s[i]) == isWord(t[i])
    ensures ClauseAt(s, isWord) == ClauseAt(t, isWord)
  {
    hide Spells, Folded, IsPattern;
    PatternsAreUpper();
    SpelledAlike(s, t, 0, "CREATE");
    SpelledAlike(s, t, 6, " UNIQUE");
    var i := if Spells(s, 6, " UNIQUE") then 13 else 6;
    SpelledAlike(s, t, i, " TABLE");
    SpelledAlike(s, t, i, " INDEX");
    SpelledAlike(s, t, i, " TRIGGER");
    SpelledAlike(s, t, i, " VIEW");
    if KindEnd(s, i).Some? {
      SpelledAlike(s, t, KindEnd(s, i).value, CLAUSE);
    }
  }

  /** The clause is found in any case. */
  lemma ClauseIsFoundInAnyCase(unique: bool, kind: string, rest: string, s: string, isWord: char -> bool)
    requires kind in {" TABLE", " INDEX", " TRIGGER", " VIEW"}
    requires SameLetters(s, Head(unique, kind) + CLAUSE + rest)
    requires forall i | 0 <= i < |s| :: isWord(s[i]) == isWord((Head(unique, kind) + CLAUSE + rest)[i])
    ensures WithoutClause(s, isWord) ==
      if rest != [] && isWord(rest[0]) then s else s[..|Head(unique, kind)|] + s[|Head(unique, kind)| + 14..]
  {
    hide KindEnd, Spells, Folded;
    CaseIsIgnored(s, Head(unique, kind) + CLAUSE + rest, isWord);
    ClauseStandsBehindTheKind(unique, kind, rest, isWord);
  }

  lemma ClauseStandsBehindTheKind(unique: bool, kind: string, rest: string, isWord: char -> bool)
    requires kind in {" TABLE", " INDEX", " TRIGGER", " VIEW"}
    ensures ClauseAt(Head(unique, kind) + CLAUSE + rest, isWord) ==
      if rest != [] && isWord(rest[0]) then None else Some(|Head(unique, kind)|)
  {
    hide KindEnd, Spells;
    var before := if unique then "CREATE UNIQUE" else "CREATE";
    var text := Head(unique, kind) + CLAUSE + rest;
    assert text == before + kind + (CLAUSE + rest);
    KindFound(before, kind, CLAUSE + rest);
    SpellsItself(before + kind, CLAUSE, rest);
    UniqueFound(unique, kind, CLAUSE + rest);
    if rest != [] {
      assert text[|before + kind| + |CLAUSE|] == rest[0];
    }
  }

  // ----- What is refused -----

  /** The faults of the canonicalizer, exactly. */
  lemma CanonicalFaults(sql: string, isWord: char -> bool)
    ensures Canonical(sql, isWord) == Raised(OutOfBounds) <==> sql == [] || |sql| > 65_536
    ensures sql != [] && |sql| <= 65_536 ==>
      && (Canonical(sql, isWord) == Raised(Empty) <==> Lex(sql).Ok? && TrimmedText(Lex(sql).value) == [])
      && (Canonical(sql, isWord) == Raised(UnterminatedQuote) <==> Lex(sql) == Raised(UnterminatedQuote))
      && (Canonical(sql, isWord) == Raised(UnterminatedComment) <==> Lex(sql) == Raised(UnterminatedComment))
  {
    hide FirstPiece, ClauseAt, TrimmedText;
    LexFaults(sql);
  }

  lemma {:induction false} LexFaults(s: string)
    ensures Lex(s).Raised? ==> Lex(s).fault.UnterminatedQuote? || Lex(s).fault.UnterminatedComment?
    decreases |s|
  {
    if s != [] && FirstPiece(s).Ok? {
      FirstPieceIsPrefix(s);
      LexFaults(s[|TextOf(FirstPiece(s).value)|..]);
    }
  }
}
