/** The schema SQL canonicalizer: the collapse loop, the trailing semicolon, and the leading IF NOT EXISTS. */
module SqlCanonical {
  import opened Common
  import opened SqlPieces

  const MAX_SCHEMA_SQL_LENGTH: nat := 65536

  // ----- The canonical text -----

  predicate EndsInSemicolon(ps: seq<Piece>) {
    ps != [] && ps[|ps| - 1] == Plain(';')
  }

  /** One trailing plain semicolon goes, and with it the gap before it. */
  function Trimmed(shape: seq<Solid>): seq<Solid> {
    if shape != [] && shape[|shape| - 1].piece == Plain(';') then shape[..|shape| - 1] else shape
  }

  /** Case-insensitive match of one upper-case letter, or of a space by itself. */
  predicate Matches(c: char, letter: char) {
    || c == letter
    || ('A' <= letter <= 'Z' && 'a' <= c <= 'z' && c as int - 'a' as int == letter as int - 'A' as int)
    || (letter == 'I' && (c == '\U{130}' || c == '\U{131}'))
    || (letter == 'S' && c == '\U{17F}')
  }

  predicate Spells(s: string, i: nat, word: string) {
    i + |word| <= |s| && forall k | 0 <= k < |word| :: Matches(s[i + k], word[k])
  }

  function KindEnd(s: string, i: nat): Option<nat> {
    if Spells(s, i, " TABLE") then Some(i + 6)
    else if Spells(s, i, " INDEX") then Some(i + 6)
    else if Spells(s, i, " TRIGGER") then Some(i + 8)
    else if Spells(s, i, " VIEW") then Some(i + 5)
    else None
  }

  const CLAUSE: string := " IF NOT EXISTS"

  /** Where a leading IF NOT EXISTS clause stands; `isWord` is Python's word-character class. */
  function ClauseAt(s: string, isWord: char -> bool): (at: Option<nat>)
    ensures at.Some? ==> at.value > 0 && at.value + |CLAUSE| <= |s|
  {
    if !Spells(s, 0, "CREATE") then None else
    var kind := KindEnd(s, if Spells(s, 6, " UNIQUE") then 13 else 6);
    if kind.None? || !Spells(s, kind.value, CLAUSE) then None
    else if kind.value + |CLAUSE| < |s| && isWord(s[kind.value + |CLAUSE|]) then None
    else kind
  }

  function WithoutClause(s: string, isWord: char -> bool): string {
    var at := ClauseAt(s, isWord);
    if at.Some? then s[..at.value] + s[at.value + |CLAUSE|..] else s
  }

  /** The text before the clause is looked for: whitespace collapsed, one trailing semicolon gone. */
  function TrimmedText(ps: seq<Piece>): string {
    Text(Spaced(Trimmed(Shape(ps))))
  }

  /** `canonicalize_backup_schema_sql`. */
  function Canonical(sql: string, isWord: char -> bool): Outcome<string> {
    if sql == [] || |sql| > MAX_SCHEMA_SQL_LENGTH then Raised(OutOfBounds) else
    var ps := Lex(sql);
    if ps.Raised? then Raised(ps.fault) else
    var text := TrimmedText(ps.value);
    if text == [] then Raised(Empty) else Ok(WithoutClause(text, isWord))
  }

  // ----- The loop -----

  /** The pieces the loop still outputs. */
  function Ahead(s: string, started: bool, pending: bool): Outcome<seq<Piece>> {
    var ps := Lex(s);
    if ps.Raised? then Raised(ps.fault) else Ok(Spaced(ShapeFrom(ps.value, started, pending)))
  }

  function Behind(done: seq<Piece>, rest: Outcome<seq<Piece>>): Outcome<seq<Piece>> {
    if rest.Ok? then Ok(done + rest.value) else rest
  }

  ghost predicate AheadAfter(s: string, p: Piece, started: bool, pending: bool) {
    && |TextOf(p)| <= |s|
    && Ahead(s, started, pending) ==
       if p.Blank? then Ahead(s[|TextOf(p)|..], started, started)
       else Behind(SpacedOne(Solid(pending, p)), Ahead(s[|TextOf(p)|..], true, false))
  }

  lemma AheadOfPiece(s: string, started: bool, pending: bool)
    requires s != []
    ensures FirstPiece(s).Raised? ==> Ahead(s, started, pending) == Raised(FirstPiece(s).fault)
    ensures FirstPiece(s).Ok? ==> AheadAfter(s, FirstPiece(s).value, started, pending)
  {
    hide FirstPiece;
    if FirstPiece(s).Ok? {
      FirstPieceIsPrefix(s);
      var p := FirstPiece(s).value;
      var rest := s[|TextOf(p)|..];
      if Lex(rest).Ok? {
        assert ([p] + Lex(rest).value)[1..] == Lex(rest).value;
        SpacedCons(Solid(pending, p), ShapeFrom(Lex(rest).value, true, false));
      }
    }
  }

  lemma SpacedCons(s: Solid, shape: seq<Solid>)
    ensures Spaced([s] + shape) == SpacedOne(s) + Spaced(shape)
  {
    assert ([s] + shape)[1..] == shape;
  }

  lemma BehindTwice(done: seq<Piece>, more: seq<Piece>, rest: Outcome<seq<Piece>>)
    ensures Behind(done, Behind(more, rest)) == Behind(done + more, rest)
  {
    if rest.Ok? {
      assert done + (more + rest.value) == done + more + rest.value;
    }
  }

  /** Per output character, whether it may be dropped or matched as plain text. */
  function FlagsOf(p: Piece): seq<bool> {
    seq(|TextOf(p)|, i => !p.Copied?)
  }

  function Flags(ps: seq<Piece>): seq<bool> {
    if ps == [] then [] else Flags(ps[..|ps| - 1]) + FlagsOf(ps[|ps| - 1])
  }

  lemma {:induction false} TextOfAppend(ps: seq<Piece>, p: Piece)
    ensures Text(ps + [p]) == Text(ps) + TextOf(p)
  {
    if ps == [] {
      assert ps + [p] == [p] && [p][1..] == [];
    } else {
      assert (ps + [p])[1..] == ps[1..] + [p];
      TextOfAppend(ps[1..], p);
    }
  }

  lemma FlagsOfAppend(ps: seq<Piece>, p: Piece)
    ensures Flags(ps + [p]) == Flags(ps) + FlagsOf(p)
  {
    assert (ps + [p])[..|ps|] == ps;
  }

  /** A piece as the lexer makes it. */
  predicate Proper(p: Piece) {
    match p
    case Blank(c) => IsWhite(c)
    case Plain(c) => !IsWhite(c)
    case Copied(region) => region != []
  }

  lemma FirstPieceIsProper(s: string)
    requires s != [] && FirstPiece(s).Ok?
    ensures Proper(FirstPiece(s).value)
  {
  }

  lemma {:induction false} LexedIsProper(s: string)
    ensures Lex(s).Ok? ==> forall i | 0 <= i < |Lex(s).value| :: Proper(Lex(s).value[i])
    decreases |s|
  {
    hide FirstPiece;
    if s != [] && Lex(s).Ok? {
      FirstPieceIsProper(s);
      FirstPieceIsPrefix(s);
      LexedIsProper(s[|TextOf(FirstPiece(s).value)|..]);
    }
  }

  /** The output buffer of the canonicalizer: characters with their flags. */
  class Buffer {
    var output: string
    var plain: seq<bool>
    ghost var pieces: seq<Piece>

    constructor ()
      ensures Valid() && pieces == []
    {
      output, plain, pieces := [], [], [];
    }

    ghost predicate Valid()
      reads this
    {
      && output == Text(pieces) && plain == Flags(pieces) && |output| == |plain|
      && forall i | 0 <= i < |pieces| :: Proper(pieces[i])
    }

    method Emit(text: string, isPlain: bool, ghost p: Piece)
      requires Valid() && text == TextOf(p) && Proper(p) && isPlain == !p.Copied?
      modifies this
      ensures Valid() && pieces == old(pieces) + [p]
    {
      TextOfAppend(pieces, p);
      FlagsOfAppend(pieces, p);
      output := output + text;
      plain := plain + seq(|text|, i => isPlain);
      pieces := pieces + [p];
    }

    lemma LastCharacter()
      requires Valid() && pieces != []
      ensures output != [] && output == Text(pieces[..|pieces| - 1]) + TextOf(pieces[|pieces| - 1])
      ensures plain == Flags(pieces[..|pieces| - 1]) + FlagsOf(pieces[|pieces| - 1])
      ensures plain != [] && plain[|plain| - 1] == !pieces[|pieces| - 1].Copied?
      ensures var p := pieces[|pieces| - 1]; !p.Copied? ==> TextOf(p) == [output[|output| - 1]]
      ensures pieces[|pieces| - 1].Blank? <==> plain[|plain| - 1] && IsWhite(output[|output| - 1])
    {
      var p := pieces[|pieces| - 1];
      TextOfAppend(pieces[..|pieces| - 1], p);
      assert pieces == pieces[..|pieces| - 1] + [p];
    }

    lemma EmptyOutput()
      requires Valid()
      ensures output == [] <==> pieces == []
    {
      if pieces != [] {
        LastCharacter();
      }
    }

    /** Drops the last character, which is a whole piece. */
    method Pop()
      requires Valid() && pieces != [] && !pieces[|pieces| - 1].Copied?
      modifies this
      ensures Valid() && pieces == old(pieces)[..|old(pieces)| - 1]
    {
      LastCharacter();
      output := output[..|output| - 1];
      plain := plain[..|plain| - 1];
      pieces := pieces[..|pieces| - 1];
      assert output == Text(pieces);
      assert plain == Flags(pieces);
    }

    /** The whitespace-popping loop. */
    method PopWhitespace()
      requires Valid()
      modifies this
      ensures Valid() && pieces == WithoutTrailingBlanks(old(pieces))
    {
      hide Text, Flags, Proper, IsWhite, Valid;
      EmptyOutput();
      if pieces != [] {
        LastCharacter();
      }
      while output != [] && plain[|plain| - 1] && IsWhite(output[|output| - 1])
        invariant Valid() && (output == [] <==> pieces == []) && (output != [] ==> plain != [])
        invariant output != [] ==> (pieces[|pieces| - 1].Blank? <==> plain[|plain| - 1] && IsWhite(output[|output| - 1]))
        invariant WithoutTrailingBlanks(pieces) == WithoutTrailingBlanks(old(pieces))
        decreases |pieces|
      {
        Pop();
        EmptyOutput();
        if pieces != [] {
          LastCharacter();
        }
      }
    }
  }

  function WithoutTrailingBlanks(ps: seq<Piece>): seq<Piece> {
    if ps != [] && ps[|ps| - 1].Blank? then WithoutTrailingBlanks(ps[..|ps| - 1]) else ps
  }

  lemma SpacedAppend(shape: seq<Solid>, s: Solid)
    ensures Spaced(shape + [s]) == Spaced(shape) + SpacedOne(s)
  {
    if shape == [] {
      assert shape + [s] == [s] && [s][1..] == [];
    } else {
      assert (shape + [s])[1..] == shape[1..] + [s];
      SpacedAppend(shape[1..], s);
    }
  }

  /** A shape spaced out ends in its last solid piece. */
  lemma SpacedEnd(shape: seq<Solid>)
    requires forall i | 0 <= i < |shape| :: !shape[i].piece.Blank?
    ensures WithoutTrailingBlanks(Spaced(shape)) == Spaced(shape)
    ensures shape == [] <==> Spaced(shape) == []
    ensures shape != [] ==> Spaced(shape)[|Spaced(shape)| - 1] == shape[|shape| - 1].piece
  {
    if shape != [] {
      assert shape == shape[..|shape| - 1] + [shape[|shape| - 1]];
      SpacedAppend(shape[..|shape| - 1], shape[|shape| - 1]);
    }
  }

  /** Dropping the last solid piece and the gap before it. */
  lemma SpacedWithoutLast(shape: seq<Solid>)
    requires shape != [] && forall i | 0 <= i < |shape| :: !shape[i].piece.Blank?
    ensures var ps := Spaced(shape);
      ps != [] && WithoutTrailingBlanks(ps[..|ps| - 1]) == Spaced(shape[..|shape| - 1])
  {
    var front, last := shape[..|shape| - 1], shape[|shape| - 1];
    assert shape == front + [last];
    SpacedAppend(front, last);
    SpacedEnd(front);
    var ps := Spaced(shape);
    if last.gap {
      assert ps[..|ps| - 1] == Spaced(front) + [Blank(' ')];
      assert (Spaced(front) + [Blank(' ')])[..|Spaced(front)|] == Spaced(front);
    } else {
      assert ps[..|ps| - 1] == Spaced(front);
    }
  }

  /** Scans to the end of a quoted region. */
  method FindQuoteEnd(sql: string, start: nat, close: char, doubles: bool) returns (r: Option<nat>)
    requires start <= |sql|
    ensures r == Plus(start, QuoteEnd(sql[start..], close, doubles))
  {
    hide QuoteEnd, Plus;
    var index := start;
    while index < |sql|
      invariant start <= index <= |sql|
      invariant Plus(start, QuoteEnd(sql[start..], close, doubles)) == Plus(index, QuoteEnd(sql[index..], close, doubles))
    {
      QuoteStep(sql, index, close, doubles);
      if sql[index] != close {
        index := index + 1;
        continue;
      }
      if doubles && index + 1 < |sql| && sql[index + 1] == close {
        index := index + 2;
        continue;
      }
      return Some(index + 1);
    }
    QuoteStep(sql, index, close, doubles);
    return None;
  }

  lemma QuoteStep(sql: string, i: nat, close: char, doubles: bool)
    requires i <= |sql|
    ensures Plus(i, QuoteEnd(sql[i..], close, doubles)) ==
      if i == |sql| then None
      else if sql[i] != close then Plus(i + 1, QuoteEnd(sql[i + 1..], close, doubles))
      else if doubles && i + 1 < |sql| && sql[i + 1] == close then Plus(i + 2, QuoteEnd(sql[i + 2..], close, doubles))
      else Some(i + 1)
  {
    var s := sql[i..];
    if s != [] {
      assert s[0] == sql[i] && s[1..] == sql[i + 1..];
      if |s| > 1 {
        assert s[1] == sql[i + 1] && s[2..] == sql[i + 2..];
      }
    }
  }

  /** The collapse loop. */
  method CollapseLoop(sql: string) returns (r: Outcome<Buffer>)
    ensures match Ahead(sql, false, false)
      case Raised(fault) => r == Raised(fault)
      case Ok(ps) => r.Ok? && fresh(r.value) && r.value.Valid() && r.value.pieces == ps
  {
    hide Ahead, Lex, FirstPiece, Behind, Proper, Buffer.Valid, Text, Flags, IsWhite;
    var buffer := new Buffer();
    var pending := false;
    var index := 0;
    assert sql[0..] == sql;
    buffer.EmptyOutput();
    BehindNothing(Ahead(sql, false, false));
    while index < |sql|
      invariant fresh(buffer) && buffer.Valid() && index <= |sql| && (pending ==> buffer.output != [])
      invariant Ahead(sql, false, false) == Behind(buffer.pieces, Ahead(sql[index..], buffer.output != [], pending))
    {
      var character := sql[index];
      ghost var s := sql[index..];
      AheadOfPiece(s, buffer.output != [], pending);
      if IsWhite(character) {
        WhiteIsBlank(s);
        assert s[1..] == sql[index + 1..];
        pending := buffer.output != [];
        index := index + 1;
        continue;
      }
      var end := PieceEnd(sql, index);
      if end.Raised? {
        BehindFault(buffer.pieces, end.fault);
        return Raised(end.fault);
      }
      ghost var p := FirstPiece(s).value;
      FirstPieceIsProper(s);
      FirstPieceIsPrefix(s);
      assert s[|TextOf(p)|..] == sql[end.value.0..] && TextOf(p) == sql[index..end.value.0];
      BehindTwice(buffer.pieces, SpacedOne(Solid(pending, p)), Ahead(sql[end.value.0..], true, false));
      ghost var was := buffer.pieces;
      if pending && buffer.output != [] {
        ProperSpace();
        buffer.Emit([' '], true, Blank(' '));
      }
      buffer.Emit(sql[index..end.value.0], end.value.1, p);
      buffer.EmptyOutput();
      assert buffer.pieces == was + SpacedOne(Solid(pending, p));
      pending := false;
      index := end.value.0;
    }
    NothingAhead(buffer.pieces, buffer.output != [], pending);
    assert sql[index..] == [];
    return Ok(buffer);
  }

  lemma WhiteIsBlank(s: string)
    requires s != [] && IsWhite(s[0])
    ensures FirstPiece(s) == Ok(Blank(s[0]))
  {
  }

  lemma ProperSpace()
    ensures Proper(Blank(' '))
  {
  }

  lemma BehindNothing(rest: Outcome<seq<Piece>>)
    ensures Behind([], rest) == rest
  {
    assert rest.Ok? ==> [] + rest.value == rest.value;
  }

  lemma BehindFault(done: seq<Piece>, fault: Fault)
    ensures Behind(done, Raised(fault)) == Raised(fault)
  {
  }

  lemma NothingAhead(done: seq<Piece>, started: bool, pending: bool)
    ensures Behind(done, Ahead([], started, pending)) == Ok(done)
  {
    assert done + [] == done;
  }

  /** Where the token at an index ends, and whether it is plain. */
  method PieceEnd(sql: string, index: nat) returns (r: Outcome<(nat, bool)>)
    requires index < |sql| && !IsWhite(sql[index])
    ensures match FirstPiece(sql[index..])
      case Raised(fault) => r == Raised(fault)
      case Ok(p) => r == Ok((index + |TextOf(p)|, !p.Copied?))
  {
    hide LineEnd, BlockEnd, QuoteEnd;
    ghost var s := sql[index..];
    assert s[0] == sql[index] && s[1..] == sql[index + 1..];
    if index + 1 < |sql| {
      assert s[1] == sql[index + 1] && s[2..] == sql[index + 2..];
      if sql[index] == '-' && sql[index + 1] == '-' {
        return Ok((index + 2 + LineEnd(sql[index + 2..]), false));
      }
      if sql[index] == '/' && sql[index + 1] == '*' {
        var end := BlockEnd(sql[index + 2..]);
        return if end.None? then Raised(UnterminatedComment) else Ok((index + 2 + end.value, false));
      }
    }
    if OpensQuote(sql[index]) {
      var end := FindQuoteEnd(sql, index + 1, CloseOf(sql[index]), sql[index] != '[');
      return if end.None? then Raised(UnterminatedQuote) else Ok((end.value, false));
    }
    return Ok((index + 1, true));
  }

  /** The canonicalizer as it runs. */
  method Canonicalize(sql: string, isWord: char -> bool) returns (r: Outcome<string>)
    ensures r == Canonical(sql, isWord)
  {
    hide Lex, ShapeFrom, Spaced, WithoutClause, Text, WithoutTrailingBlanks;
    if sql == [] || |sql| > MAX_SCHEMA_SQL_LENGTH {
      return Raised(OutOfBounds);
    }
    var collapsed := CollapseLoop(sql);
    if collapsed.Raised? {
      return Raised(collapsed.fault);
    }
    var buffer := collapsed.value;
    ghost var shape := Shape(Lex(sql).value);
    ShapeIsShape(Lex(sql).value, false, false);
    SpacedEnd(shape);
    buffer.PopWhitespace();
    buffer.EmptyOutput();
    if buffer.pieces != [] {
      buffer.LastCharacter();
      SpacedWithoutLast(shape);
    }
    if buffer.output != [] && buffer.plain[|buffer.plain| - 1] && buffer.output[|buffer.output| - 1] == ';' {
      assert buffer.pieces[|buffer.pieces| - 1] == Plain(';');
      buffer.Pop();
      buffer.PopWhitespace();
    }
    if buffer.output == [] {
      return Raised(Empty);
    }
    return Ok(WithoutClause(buffer.output, isWord));
  }
}
