/** Schema SQL as a list of pieces: whitespace, plain characters, and the quoted regions and comments copied as they are. */
module SqlPieces {
  import opened Common

  datatype Fault = UnterminatedComment | UnterminatedQuote | Empty | OutOfBounds

  datatype Outcome<+T> = Ok(value: T) | Raised(fault: Fault)

  datatype Piece = Blank(c: char) | Plain(c: char) | Copied(region: string)

  predicate IsWhite(c: char) {
    c == ' ' || c == '\t' || c == '\n' || c == '\U{0C}' || c == '\r'
  }

  predicate OpensQuote(c: char) {
    c == '\'' || c == '"' || c == '`' || c == '['
  }

  /** Length of a line comment's rest, its line feed included. */
  function LineEnd(s: string): (n: nat)
    ensures n <= |s|
  {
    if s == [] then 0 else if s[0] == '\n' then 1 else 1 + LineEnd(s[1..])
  }

  function Plus(n: nat, m: Option<nat>): Option<nat> {
    if m.Some? then Some(n + m.value) else None
  }

  /** Length up to the end of a block comment. */
  function BlockEnd(s: string): (r: Option<nat>)
    ensures r.Some? ==> r.value <= |s|
  {
    if |s| < 2 then None else if s[0] == '*' && s[1] == '/' then Some(2) else Plus(1, BlockEnd(s[1..]))
  }

  /** Length up to the end of a quoted region; a doubled closing mark stands for itself. */
  function QuoteEnd(s: string, close: char, doubles: bool): (r: Option<nat>)
    ensures r.Some? ==> r.value <= |s|
    decreases |s|
  {
    if s == [] then None
    else if s[0] != close then Plus(1, QuoteEnd(s[1..], close, doubles))
    else if doubles && |s| > 1 && s[1] == close then Plus(2, QuoteEnd(s[2..], close, doubles))
    else Some(1)
  }

  function CloseOf(c: char): char {
    if c == '[' then ']' else c
  }

  function FirstPiece(s: string): Outcome<Piece>
    requires s != []
  {
    if IsWhite(s[0]) then Ok(Blank(s[0]))
    else if |s| > 1 && s[0] == '-' && s[1] == '-' then Ok(Copied(s[..2 + LineEnd(s[2..])]))
    else if |s| > 1 && s[0] == '/' && s[1] == '*' then
      var end := BlockEnd(s[2..]);
      if end.None? then Raised(UnterminatedComment) else Ok(Copied(s[..2 + end.value]))
    else if OpensQuote(s[0]) then
      var end := QuoteEnd(s[1..], CloseOf(s[0]), s[0] != '[');
      if end.None? then Raised(UnterminatedQuote) else Ok(Copied(s[..1 + end.value]))
    else Ok(Plain(s[0]))
  }

  function TextOf(p: Piece): string {
    match p
    case Blank(c) => [c]
    case Plain(c) => [c]
    case Copied(region) => region
  }

  function Text(ps: seq<Piece>): string {
    if ps == [] then [] else TextOf(ps[0]) + Text(ps[1..])
  }

  lemma FirstPieceIsPrefix(s: string)
    requires s != [] && FirstPiece(s).Ok?
    ensures var text := TextOf(FirstPiece(s).value);
      && text != [] && text <= s && s == text + s[|text|..]
      && (FirstPiece(s).value.Blank? <==> IsWhite(s[0]))
  {
  }

  function Prepend(p: Piece, rest: Outcome<seq<Piece>>): Outcome<seq<Piece>> {
    if rest.Ok? then Ok([p] + rest.value) else rest
  }

  /** All pieces of a text, or the first region that does not end. */
  function Lex(s: string): Outcome<seq<Piece>>
    decreases |s|
  {
    if s == [] then Ok([]) else
    var first := FirstPiece(s);
    if first.Raised? then Raised(first.fault) else
    FirstPieceIsPrefix(s);
    Prepend(first.value, Lex(s[|TextOf(first.value)|..]))
  }

  /** Cutting a text into pieces loses nothing. */
  lemma {:induction false} LexIsLossless(s: string)
    ensures Lex(s).Ok? ==> Text(Lex(s).value) == s && Lexable(Lex(s).value)
    decreases |s|
  {
    hide FirstPiece;
    if s != [] && Lex(s).Ok? {
      FirstPieceIsPrefix(s);
      var first := FirstPiece(s).value;
      LexIsLossless(s[|TextOf(first)|..]);
      assert Lex(s).value[1..] == Lex(s[|TextOf(first)|..]).value;
    }
  }

  /** A list of pieces that its own text is cut into. */
  ghost predicate Lexable(ps: seq<Piece>) {
    ps == [] || (TextOf(ps[0]) != [] && FirstPiece(Text(ps)) == Ok(ps[0]) && Lexable(ps[1..]))
  }

  lemma {:induction false} LexableIsLexed(ps: seq<Piece>)
    requires Lexable(ps)
    ensures Lex(Text(ps)) == Ok(ps)
  {
    hide FirstPiece;
    if ps != [] {
      LexableIsLexed(ps[1..]);
      assert Text(ps)[|TextOf(ps[0])|..] == Text(ps[1..]);
      assert [ps[0]] + ps[1..] == ps;
    }
  }

  // ----- A piece ends where it does because of at most one character behind it -----

  /** What may stand behind a piece in place of `a`: nothing, the same first character, or whitespace for whitespace. */
  predicate HeadAgrees(a: string, b: string) {
    b == [] || (a != [] && (a[0] == b[0] || (IsWhite(a[0]) && IsWhite(b[0]))))
  }

  lemma {:induction false} LineEndIsStable(x: string, a: string, b: string)
    requires LineEnd(x + a) == |x| && HeadAgrees(a, b)
    ensures LineEnd(x + b) == |x|
  {
    if x == [] {
      assert x + a == a && x + b == b;
      assert a == [];
    } else if x[0] != '\n' {
      assert (x + a)[1..] == x[1..] + a && (x + b)[1..] == x[1..] + b;
      LineEndIsStable(x[1..], a, b);
    } else {
      assert |x| == 1;
    }
  }

  lemma {:induction false} BlockEndIsStable(x: string, a: string, b: string)
    requires BlockEnd(x + a) == Some(|x|)
    ensures BlockEnd(x + b) == Some(|x|)
  {
    assert |x| >= 2 by {
      if |x| < 2 {
        BlockEndIsLong(x + a);
      }
    }
    if x[0] != '*' || x[1] != '/' {
      assert (x + a)[1..] == x[1..] + a && (x + b)[1..] == x[1..] + b;
      BlockEndIsStable(x[1..], a, b);
    }
  }

  lemma {:induction false} BlockEndIsLong(s: string)
    ensures BlockEnd(s).Some? ==> BlockEnd(s).value >= 2
  {
    if |s| >= 2 {
      BlockEndIsLong(s[1..]);
    }
  }

  lemma {:induction false} QuoteEndIsStable(x: string, a: string, b: string, close: char, doubles: bool)
    requires QuoteEnd(x + a, close, doubles) == Some(|x|) && HeadAgrees(a, b) && !IsWhite(close)
    ensures QuoteEnd(x + b, close, doubles) == Some(|x|)
    decreases |x|
  {
    hide IsWhite;
    if x != [] {
      if x[0] != close {
        assert (x + a)[1..] == x[1..] + a && (x + b)[1..] == x[1..] + b;
        QuoteEndIsStable(x[1..], a, b, close, doubles);
      } else if doubles && |x| > 1 && x[1] == close {
        assert (x + a)[2..] == x[2..] + a && (x + b)[2..] == x[2..] + b;
        QuoteEndIsStable(x[2..], a, b, close, doubles);
      } else if |x| == 1 {
        assert (x + b)[1..] == b && (x + a)[1..] == a;
      }
    } else {
      assert x + a == a;
      QuoteEndIsLong(a, close, doubles);
    }
  }

  lemma {:induction false} QuoteEndIsLong(s: string, close: char, doubles: bool)
    ensures QuoteEnd(s, close, doubles).Some? ==> QuoteEnd(s, close, doubles).value >= 1
  {
  }

  lemma PieceIsStable(p: Piece, a: string, b: string)
    requires TextOf(p) != [] && FirstPiece(TextOf(p) + a) == Ok(p) && HeadAgrees(a, b)
    ensures FirstPiece(TextOf(p) + b) == Ok(p)
  {
    hide LineEnd, BlockEnd, QuoteEnd;
    var x := TextOf(p);
    var s := x + a;
    if p.Copied? {
      if |s| > 1 && s[0] == '-' && s[1] == '-' {
        LineCommentIsStable(x, a, b);
      } else if |s| > 1 && s[0] == '/' && s[1] == '*' {
        BlockCommentIsStable(x, a, b);
      } else {
        QuoteIsStable(x, a, b);
      }
    }
  }

  lemma LineCommentIsStable(x: string, a: string, b: string)
    requires x != [] && |x + a| > 1 && (x + a)[..2] == ['-', '-'] && HeadAgrees(a, b) && FirstPiece(x + a) == Ok(Copied(x))
    ensures FirstPiece(x + b) == Ok(Copied(x))
  {
    hide LineEnd, HeadAgrees;
    CommentHead(x, a);
    assert (x + a)[2..] == x[2..] + a && (x + b)[2..] == x[2..] + b;
    LineEndIsStable(x[2..], a, b);
    assert (x + b)[..|x|] == x;
  }

  lemma BlockCommentIsStable(x: string, a: string, b: string)
    requires x != [] && |x + a| > 1 && (x + a)[..2] == ['/', '*'] && FirstPiece(x + a) == Ok(Copied(x))
    ensures FirstPiece(x + b) == Ok(Copied(x))
  {
    hide BlockEnd;
    CommentHead(x, a);
    assert (x + a)[2..] == x[2..] + a && (x + b)[2..] == x[2..] + b;
    BlockEndIsStable(x[2..], a, b);
    assert (x + b)[..|x|] == x;
  }

  lemma QuoteIsStable(x: string, a: string, b: string)
    requires x != [] && OpensQuote(x[0]) && HeadAgrees(a, b) && FirstPiece(x + a) == Ok(Copied(x))
    ensures FirstPiece(x + b) == Ok(Copied(x))
  {
    hide QuoteEnd, HeadAgrees;
    assert (x + a)[1..] == x[1..] + a && (x + b)[1..] == x[1..] + b;
    QuoteIsNoComment(x, a);
    QuoteIsNoComment(x, b);
    QuoteEndIsLong(x[1..] + a, CloseOf(x[0]), x[0] != '[');
    QuoteEndIsStable(x[1..], a, b, CloseOf(x[0]), x[0] != '[');
    assert (x + b)[..|x|] == x;
  }

  lemma CommentHead(x: string, a: string)
    requires x != [] && FirstPiece(x + a) == Ok(Copied(x)) && |x + a| > 1 && !OpensQuote(x[0]) && !IsWhite(x[0])
    ensures |x| >= 2
  {
  }

  lemma QuoteIsNoComment(x: string, b: string)
    requires x != [] && OpensQuote(x[0])
    ensures (x + b)[0] != '-' && (x + b)[0] != '/' && !IsWhite((x + b)[0])
  {
  }

  // ----- Shapes -----

  /** A piece that is not whitespace, and whether whitespace separates it from the one before. */
  datatype Solid = Solid(gap: bool, piece: Piece)

  /** What the loop keeps of the pieces ahead, given whether it has output and whether whitespace is pending. */
  function ShapeFrom(ps: seq<Piece>, started: bool, pending: bool): seq<Solid> {
    if ps == [] then []
    else if ps[0].Blank? then ShapeFrom(ps[1..], started, started)
    else [Solid(pending, ps[0])] + ShapeFrom(ps[1..], true, false)
  }

  function Shape(ps: seq<Piece>): seq<Solid> {
    ShapeFrom(ps, false, false)
  }

  function SpacedOne(s: Solid): seq<Piece> {
    if s.gap then [Blank(' '), s.piece] else [s.piece]
  }

  /** The pieces of a shape, one space per gap. */
  function Spaced(shape: seq<Solid>): seq<Piece> {
    if shape == [] then [] else SpacedOne(shape[0]) + Spaced(shape[1..])
  }

  ghost predicate IsShape(shape: seq<Solid>, started: bool) {
    && (forall i | 0 <= i < |shape| :: !shape[i].piece.Blank?)
    && (!started && shape != [] ==> !shape[0].gap)
  }

  lemma {:induction false} ShapeIsShape(ps: seq<Piece>, started: bool, pending: bool)
    requires pending ==> started
    ensures IsShape(ShapeFrom(ps, started, pending), started)
  {
    if ps != [] {
      ShapeIsShape(ps[1..], if ps[0].Blank? then started else true, if ps[0].Blank? then started else false);
    }
  }

  /** Spacing a shape out and taking the shape again changes nothing. */
  lemma {:induction false} ShapeOfSpaced(shape: seq<Solid>, started: bool)
    requires IsShape(shape, started)
    ensures ShapeFrom(Spaced(shape), started, false) == shape
  {
    if shape != [] {
      ShapeOfSpaced(shape[1..], true);
      var rest := Spaced(shape[1..]);
      assert Spaced(shape) == SpacedOne(shape[0]) + rest;
      if shape[0].gap {
        var tail := [shape[0].piece] + rest;
        assert Spaced(shape) == [Blank(' ')] + tail && Spaced(shape)[1..] == tail && tail[1..] == rest;
      } else {
        assert Spaced(shape)[1..] == rest;
      }
      assert [shape[0]] + shape[1..] == shape;
    }
  }

  lemma {:induction false} GapAhead(ps: seq<Piece>)
    ensures var shape := ShapeFrom(ps, true, true); shape == [] || shape[0].gap
  {
    if ps != [] && ps[0].Blank? {
      GapAhead(ps[1..]);
    }
  }

  /** Collapsing whitespace keeps every piece recognisable. */
  lemma {:induction false} SpacedIsLexable(ps: seq<Piece>, started: bool, pending: bool)
    requires Lexable(ps)
    ensures Lexable(Spaced(ShapeFrom(ps, started, pending)))
  {
    hide FirstPiece, HeadAgrees;
    if ps != [] {
      if ps[0].Blank? {
        SpacedIsLexable(ps[1..], started, started);
      } else {
        var shape := ShapeFrom(ps[1..], true, false);
        SpacedIsLexable(ps[1..], true, false);
        SpacedHead(ps[1..]);
        PieceIsStable(ps[0], Text(ps[1..]), Text(Spaced(shape)));
        LexableBehind(Solid(pending, ps[0]), shape);
        assert ShapeFrom(ps, started, pending)[1..] == shape;
      }
    }
  }

  lemma LexableBehind(s: Solid, shape: seq<Solid>)
    requires Lexable(Spaced(shape)) && TextOf(s.piece) != []
    requires FirstPiece(TextOf(s.piece) + Text(Spaced(shape))) == Ok(s.piece)
    ensures Lexable(SpacedOne(s) + Spaced(shape))
  {
    var rest := Spaced(shape);
    var solid := [s.piece] + rest;
    assert solid[1..] == rest && Text(solid) == TextOf(s.piece) + Text(rest);
    assert Lexable(solid);
    var spaced := [Blank(' ')] + solid;
    assert spaced[1..] == solid;
    assert SpacedOne(s) + rest == if s.gap then spaced else solid;
  }

  /** Behind a piece, collapsing changes the first character only from whitespace to a space or to the end. */
  lemma SpacedHead(ps: seq<Piece>)
    requires Lexable(ps)
    ensures HeadAgrees(Text(ps), Text(Spaced(ShapeFrom(ps, true, false))))
  {
    hide FirstPiece;
    if ps != [] {
      BlankIsWhite(ps);
      if ps[0].Blank? {
        GapAhead(ps[1..]);
      }
    }
  }

  lemma BlankIsWhite(ps: seq<Piece>)
    requires Lexable(ps) && ps != []
    ensures ps[0].Blank? ==> IsWhite(Text(ps)[0])
  {
    FirstPieceIsPrefix(Text(ps));
  }

  // ----- The collapse loop's meaning -----

  function CollapsedPieces(ps: seq<Piece>): seq<Piece> {
    Spaced(Shape(ps))
  }

  /** What the collapse loop outputs. */
  function Collapse(s: string): Outcome<string> {
    var ps := Lex(s);
    if ps.Raised? then Raised(ps.fault) else Ok(Text(CollapsedPieces(ps.value)))
  }

  /** The output is cut into the same pieces in the same order, with one space for each gap. */
  lemma CollapseKeepsPieces(s: string)
    requires Lex(s).Ok?
    ensures Collapse(s).Ok? && Lex(Collapse(s).value) == Ok(CollapsedPieces(Lex(s).value))
    ensures Shape(CollapsedPieces(Lex(s).value)) == Shape(Lex(s).value)
  {
    hide Lex, Lexable, Spaced, ShapeFrom, IsShape;
    var ps := Lex(s).value;
    LexIsLossless(s);
    SpacedIsLexable(ps, false, false);
    LexableIsLexed(CollapsedPieces(ps));
    ShapeIsShape(ps, false, false);
    ShapeOfSpaced(Shape(ps), false);
  }

  /** Collapsing twice is collapsing once. */
  lemma CollapseIsIdempotent(s: string)
    ensures Collapse(s).Ok? ==> Collapse(Collapse(s).value) == Collapse(s)
  {
    hide Lex, Spaced, ShapeFrom;
    if Collapse(s).Ok? {
      CollapseKeepsPieces(s);
    }
  }

  /** Two texts collapse to the same text exactly when they have the same pieces with gaps in the same places. */
  lemma CollapseIsExact(s: string, t: string)
    requires Lex(s).Ok? && Lex(t).Ok?
    ensures Collapse(s) == Collapse(t) <==> Shape(Lex(s).value) == Shape(Lex(t).value)
  {
    hide Lex, Spaced, ShapeFrom;
    CollapseKeepsPieces(s);
    CollapseKeepsPieces(t);
  }

  /** The pieces that are not whitespace. */
  function Solids(ps: seq<Piece>): seq<Piece> {
    if ps == [] then [] else (if ps[0].Blank? then [] else [ps[0]]) + Solids(ps[1..])
  }

  function Pieces(shape: seq<Solid>): seq<Piece> {
    if shape == [] then [] else [shape[0].piece] + Pieces(shape[1..])
  }

  lemma {:induction false} SolidsAreShape(ps: seq<Piece>, started: bool, pending: bool)
    ensures Solids(ps) == Pieces(ShapeFrom(ps, started, pending))
  {
    if ps != [] {
      SolidsAreShape(ps[1..], if ps[0].Blank? then started else true, if ps[0].Blank? then started else false);
    }
  }

  /** Every quoted region, comment and plain character comes out verbatim and in order. */
  lemma CollapseCopiesSolids(s: string)
    ensures Collapse(s).Ok? ==> Lex(Collapse(s).value).Ok? && Solids(Lex(Collapse(s).value).value) == Solids(Lex(s).value)
  {
    hide Lex, Spaced, ShapeFrom, Solids, Pieces;
    if Collapse(s).Ok? {
      CollapseKeepsPieces(s);
      SolidsAreShape(Lex(s).value, false, false);
      SolidsAreShape(CollapsedPieces(Lex(s).value), false, false);
    }
  }

  // ----- Respacing -----

  function Blanks(w: string): seq<Piece> {
    if w == [] then [] else [Blank(w[0])] + Blanks(w[1..])
  }

  ghost predicate AllWhite(w: string) {
    w != [] && forall c | c in w :: IsWhite(c)
  }

  lemma LexableBlank(c: char, rest: seq<Piece>)
    requires IsWhite(c) && Lexable(rest)
    ensures Lexable([Blank(c)] + rest) && Text([Blank(c)] + rest) == [c] + Text(rest)
  {
    var all := [Blank(c)] + rest;
    assert all[1..] == rest && Text(all) == [c] + Text(rest);
  }

  lemma BlanksStep(w: string, after: seq<Piece>)
    requires w != []
    ensures Blanks(w) + after == [Blank(w[0])] + (Blanks(w[1..]) + after)
  {
  }

  lemma {:induction false} BlanksAreLexable(w: string, after: seq<Piece>)
    requires (forall i | 0 <= i < |w| :: IsWhite(w[i])) && Lexable(after)
    ensures Lexable(Blanks(w) + after) && Text(Blanks(w) + after) == w + Text(after)
  {
    hide Lexable, Text, IsWhite, Blanks;
    if w == [] {
      assert Blanks(w) + after == after by { NoBlanks(after); }
      assert w + Text(after) == Text(after);
    } else {
      BlanksStep(w, after);
      BlanksAreLexable(w[1..], after);
      LexableBlank(w[0], Blanks(w[1..]) + after);
      assert w + Text(after) == [w[0]] + (w[1..] + Text(after));
    }
  }

  lemma NoBlanks(after: seq<Piece>)
    ensures Blanks([]) + after == after
  {
  }

  lemma {:induction false} LexableAfter(before: seq<Piece>, after: seq<Piece>)
    requires Lexable(before + after)
    ensures Lexable(after)
  {
    hide FirstPiece;
    if before == [] {
      assert before + after == after;
    } else {
      assert (before + after)[1..] == before[1..] + after;
      LexableAfter(before[1..], after);
    }
  }

  lemma {:induction false} RespacedIsLexable(before: seq<Piece>, w: string, v: string, after: seq<Piece>)
    requires Lexable(before + (Blanks(w) + after)) && AllWhite(w) && AllWhite(v)
    ensures Lexable(before + (Blanks(v) + after))
    ensures HeadAgrees(Text(before + (Blanks(w) + after)), Text(before + (Blanks(v) + after)))
  {
    hide FirstPiece, IsWhite, HeadAgrees;
    var was, now := before + (Blanks(w) + after), before + (Blanks(v) + after);
    if before == [] {
      assert was == Blanks(w) + after && now == Blanks(v) + after;
      LexableAfter(Blanks(w), after);
      WhiteHeadsAgree(w, v, after);
    } else {
      var rest, next := before[1..] + (Blanks(w) + after), before[1..] + (Blanks(v) + after);
      assert was[1..] == rest && now[1..] == next && now[0] == was[0] == before[0];
      RespacedIsLexable(before[1..], w, v, after);
      PieceIsStable(before[0], Text(rest), Text(next));
      SameHead(TextOf(before[0]), Text(rest), Text(next));
    }
  }

  lemma SameHead(x: string, a: string, b: string)
    requires x != []
    ensures HeadAgrees(x + a, x + b)
  {
  }

  lemma WhiteHeadsAgree(w: string, v: string, after: seq<Piece>)
    requires AllWhite(w) && AllWhite(v) && Lexable(after)
    ensures Lexable(Blanks(v) + after)
    ensures HeadAgrees(Text(Blanks(w) + after), Text(Blanks(v) + after))
  {
    hide Lexable, Text, IsWhite;
    BlanksAreLexable(w, after);
    BlanksAreLexable(v, after);
    assert w[0] in w && v[0] in v;
  }

  lemma {:induction false} BlanksShape(w: string, after: seq<Piece>, started: bool, pending: bool)
    requires w != []
    ensures ShapeFrom(Blanks(w) + after, started, pending) == ShapeFrom(after, started, started)
  {
    var all := Blanks(w) + after;
    assert all[1..] == Blanks(w[1..]) + after;
    if |w| > 1 {
      BlanksShape(w[1..], after, started, started);
    } else {
      assert all[1..] == after;
    }
  }

  lemma {:induction false} RespacedShape(before: seq<Piece>, w: string, v: string, after: seq<Piece>, started: bool, pending: bool)
    requires w != [] && v != []
    ensures ShapeFrom(before + (Blanks(w) + after), started, pending) == ShapeFrom(before + (Blanks(v) + after), started, pending)
  {
    hide ShapeFrom, Blanks;
    if before == [] {
      assert before + (Blanks(w) + after) == Blanks(w) + after && before + (Blanks(v) + after) == Blanks(v) + after;
      BlanksShape(w, after, started, pending);
      BlanksShape(v, after, started, pending);
    } else {
      var blank := before[0].Blank?;
      RespacedShape(before[1..], w, v, after, if blank then started else true, if blank then started else false);
      ShapeOfNext(before, Blanks(w) + after, started, pending);
      ShapeOfNext(before, Blanks(v) + after, started, pending);
    }
  }

  lemma ShapeOfNext(before: seq<Piece>, rest: seq<Piece>, started: bool, pending: bool)
    requires before != []
    ensures var blank := before[0].Blank?;
      var ahead := ShapeFrom(before[1..] + rest, if blank then started else true, if blank then started else false);
      ShapeFrom(before + rest, started, pending) == if blank then ahead else [Solid(pending, before[0])] + ahead
  {
    assert (before + rest)[1..] == before[1..] + rest;
  }

  /** Replacing one run of whitespace outside quotes and comments by another does not change the result. */
  lemma RespacingIsInvisible(s: string, before: seq<Piece>, w: string, v: string, after: seq<Piece>)
    requires Lex(s) == Ok(before + (Blanks(w) + after)) && AllWhite(w) && AllWhite(v)
    ensures var respaced := Text(before + (Blanks(v) + after));
      Lex(respaced) == Ok(before + (Blanks(v) + after)) && Collapse(respaced) == Collapse(s)
  {
    hide Lex, Lexable, ShapeFrom, Spaced;
    LexIsLossless(s);
    RespacedIsLexable(before, w, v, after);
    LexableIsLexed(before + (Blanks(v) + after));
    RespacedShape(before, w, v, after, false, false);
  }
}
