/** What a glob matches, and that its pattern matches the same. */
module GlobMeaning {
  import opened Text
  import opened Glob
  import opened Regex

  /** The strings a glob stands for: `?` is one character and `*` any number
      of characters that are no hierarchy separator, braces list
      alternatives, brackets list characters. */
  ghost predicate PieceMatches(p: Piece, s: string)
    decreases p, 0
  {
    match p
    case Char(c) =>
      if c == '?' then |s| == 1 && s[0] != '.'
      else if c == '*' then '.' !in s
      else s == [c]
    case Escaped(c) => s == [c]
    case Braces(alternatives) => exists a <- alternatives :: GlobMatches(a.pieces, s)
    case Brackets(body) => |s| == 1 && Char(s[0]) in body
  }

  ghost predicate GlobMatches(g: seq<Piece>, s: string)
    decreases g, 1
  {
    if g == [] then s == ""
    else exists k | 0 <= k <= |s| :: PieceMatches(g[0], s[..k]) && GlobMatches(g[1..], s[k..])
  }

  // ----- globs whose meaning is plain -----

  predicate IsLiteralChar(c: char) { IsValid(c) && c != '|' }

  predicate SimplePiece(p: Piece) {
    match p
    case Char(c) => c == '?' || c == '*' || IsLiteralChar(c)
    case Escaped(c) => IsEscapable(c)
    case Braces(alternatives) => alternatives != [] && forall a <- alternatives :: Simple(a.pieces)
    case Brackets(body) => body != [] && forall q <- body :: q.Char? && IsLetterOrDigit(q.c)
  }

  /** Literals, `?`, `*`, brace lists and alphanumeric classes. */
  predicate Simple(g: seq<Piece>) { forall p <- g :: SimplePiece(p) }

  lemma {:induction false} SimplePieceIsWellFormed(p: Piece)
    requires SimplePiece(p)
    ensures WellFormedPiece(p)
    decreases p, 0
  {
    match p
    case Braces(alternatives) =>
      forall a <- alternatives ensures WellFormed(a.pieces) { SimpleIsWellFormed(a.pieces); }
    case _ =>
  }

  lemma {:induction false} SimpleIsWellFormed(g: seq<Piece>)
    requires Simple(g)
    ensures WellFormed(g)
    decreases g, 1
  {
    forall p <- g ensures WellFormedPiece(p) { SimplePieceIsWellFormed(p); }
  }

  // ----- the tree of the pattern -----

  function Chars(body: seq<Piece>): seq<char>
    requires forall q <- body :: q.Char?
  {
    seq(|body|, i requires 0 <= i < |body| => body[i].c)
  }

  function RePiece(p: Piece): Re
    requires SimplePiece(p)
    decreases p, 0
  {
    match p
    case Char(c) => if c == '?' then NoneOf(['.']) else if c == '*' then Star(NoneOf(['.'])) else Lit(c)
    case Escaped(c) => Lit(c)
    case Braces(alternatives) => ReAlternatives(alternatives)
    case Brackets(body) => OneOf(Chars(body))
  }

  function ReGlob(g: seq<Piece>): Re
    requires Simple(g)
    decreases g, 1
  {
    if g == [] then Empty else Cat(RePiece(g[0]), ReGlob(g[1..]))
  }

  function ReAlternatives(alternatives: seq<Alternative>): Re
    requires alternatives != [] && forall a <- alternatives :: Simple(a.pieces)
    decreases alternatives, 2
  {
    var first := ReGlob(alternatives[0].pieces);
    if |alternatives| == 1 then first else Alt(first, ReAlternatives(alternatives[1..]))
  }

  // ----- the pattern reads back as this tree -----

  predicate EndsCat(rest: string) { rest == [] || rest[0] == '|' || rest[0] == ')' }

  lemma {:induction false} ReadClass(body: seq<Piece>, rest: string)
    requires forall q <- body :: q.Char? && IsLetterOrDigit(q.c)
    ensures ParseClass(Emit(body) + ("]" + rest)) == Some((Chars(body), rest))
  {
    if body == [] {
      assert Emit(body) + ("]" + rest) == "]" + rest;
    } else {
      ReadClass(body[1..], rest);
      var c := body[0].c;
      assert EmitPiece(body[0]) == [c];
      assert Emit(body) + ("]" + rest) == [c] + (Emit(body[1..]) + ("]" + rest));
      assert Chars(body) == [c] + Chars(body[1..]);
    }
  }

  lemma ReadBrackets(body: seq<Piece>, rest: string)
    requires SimplePiece(Brackets(body))
    ensures ParseAtom(EmitPiece(Brackets(body)) + rest) == Some((OneOf(Chars(body)), rest))
  {
    hide ParseClass;
    ReadClass(body, rest);
    var s := EmitPiece(Brackets(body)) + rest;
    assert s[1..] == Emit(body) + ("]" + rest);
    assert Emit(body)[0] == body[0].c by { assert EmitPiece(body[0]) == [body[0].c]; }
    assert s[1] == body[0].c;
  }

  lemma ReadNotDot(rest: string)
    ensures ParseAtom("[^.]" + rest) == Some((NoneOf(['.']), rest))
  {
    var s := "[^.]" + rest;
    assert s[2..] == ['.', ']'] + rest;
    assert s[2..][1..] == [']'] + rest;
    assert s[2..][1..][1..] == rest;
    assert ParseClass(s[2..][1..]) == Some(([], rest));
    assert ['.'] + [] == ['.'];
    assert ParseClass(s[2..]) == Some((['.'], rest));
  }

  /** A piece is read as one atom, starred for `*`. */
  lemma {:induction false} ReadPiece(p: Piece, rest: string)
    requires SimplePiece(p) && !IsPostfix(rest)
    ensures ParseItem(EmitPiece(p) + rest) == Some((RePiece(p), rest))
    ensures !EndsCat(EmitPiece(p) + rest) && !IsPostfix(EmitPiece(p) + rest)
    decreases p, 0
  {
    hide ParseAtom, ParseAlt, ParseClass;
    match p
    case Char(c) =>
      if c == '?' {
        ReadNotDot(rest);
      } else if c == '*' {
        ReadNotDot("*" + rest);
        assert "[^.]*" + rest == "[^.]" + ("*" + rest);
      } else {
        ReadLiteral(c, rest);
      }
    case Escaped(c) => ReadEscape(c, rest);
    case Braces(alternatives) =>
      var s := EmitAlternatives(alternatives) + (")" + rest);
      ReadAlternatives(alternatives, ")" + rest);
      ReadGroup(s, ReAlternatives(alternatives), rest);
      assert EmitPiece(p) + rest == "(" + s;
    case Brackets(body) =>
      ReadBrackets(body, rest);
  }

  lemma ReadGroup(s: string, r: Re, rest: string)
    requires ParseAlt(s) == Some((r, ")" + rest))
    ensures ParseAtom("(" + s) == Some((r, rest))
  {
    hide ParseAlt;
    assert ("(" + s)[1..] == s;
    assert (")" + rest)[1..] == rest;
  }

  lemma ReadLiteral(c: char, rest: string)
    requires IsLiteralChar(c)
    ensures ParseAtom(EmitPiece(Char(c)) + rest) == Some((Lit(c), rest))
    ensures !EndsCat(EmitPiece(Char(c)) + rest) && !IsPostfix(EmitPiece(Char(c)) + rest)
  {
    if IsQuotedLiteral(c) {
      assert EmitPiece(Char(c)) == ['\\', c];
      assert (['\\', c] + rest)[2..] == rest;
    } else {
      assert EmitPiece(Char(c)) == [c];
      assert ([c] + rest)[1..] == rest;
    }
  }

  lemma ReadEscape(c: char, rest: string)
    requires IsEscapable(c)
    ensures ParseAtom(EmitPiece(Escaped(c)) + rest) == Some((Lit(c), rest))
    ensures !EndsCat(EmitPiece(Escaped(c)) + rest) && !IsPostfix(EmitPiece(Escaped(c)) + rest)
  {
    assert (['\\', c] + rest)[2..] == rest;
  }

  lemma {:induction false} ReadGlob(g: seq<Piece>, rest: string)
    requires Simple(g) && EndsCat(rest)
    ensures ParseCat(Emit(g) + rest) == Some((ReGlob(g), rest)) && !IsPostfix(Emit(g) + rest)
    decreases g, 1
  {
    hide ParseItem, EmitPiece, RePiece, SimplePiece;
    if g == [] {
      assert Emit(g) + rest == rest;
    } else {
      ReadGlob(g[1..], rest);
      ReadPiece(g[0], Emit(g[1..]) + rest);
      assert Emit(g) + rest == EmitPiece(g[0]) + (Emit(g[1..]) + rest);
    }
  }

  lemma {:induction false} ReadAlternatives(alternatives: seq<Alternative>, rest: string)
    requires alternatives != [] && (forall a <- alternatives :: Simple(a.pieces))
    requires rest == [] || rest[0] == ')'
    ensures ParseAlt(EmitAlternatives(alternatives) + rest) == Some((ReAlternatives(alternatives), rest))
    decreases alternatives, 2
  {
    hide ParseCat, Emit, ReGlob, Simple;
    var g := alternatives[0].pieces;
    if |alternatives| == 1 {
      ReadGlob(g, rest);
    } else {
      var more := EmitAlternatives(alternatives[1..]) + rest;
      ReadAlternatives(alternatives[1..], rest);
      ReadGlob(g, "|" + more);
      assert EmitAlternatives(alternatives) + rest == Emit(g) + ("|" + more);
      assert ("|" + more)[1..] == more;
    }
  }

  lemma PatternReads(g: seq<Piece>)
    requires Simple(g)
    ensures ParseRe(Emit(g)) == Some(ReGlob(g))
  {
    hide ParseCat, Emit, ReGlob, Simple;
    ReadGlob(g, "");
    assert Emit(g) + "" == Emit(g);
  }

  // ----- the tree matches what the glob stands for -----

  lemma {:induction false} TreeMatchesPiece(p: Piece, s: string)
    requires SimplePiece(p)
    ensures Match(RePiece(p), s) <==> PieceMatches(p, s)
    decreases p, 0
  {
    match p
    case Char(c) => if c == '*' { StarOfClass(['.'], s); }
    case Escaped(c) =>
    case Braces(alternatives) => TreeMatchesSome(alternatives, s);
    case Brackets(body) => assert forall i | 0 <= i < |body| :: Chars(body)[i] == body[i].c && body[i] == Char(body[i].c);
  }

  lemma {:induction false} TreeMatchesGlob(g: seq<Piece>, s: string)
    requires Simple(g)
    ensures Match(ReGlob(g), s) <==> GlobMatches(g, s)
    decreases g, 1
  {
    hide RePiece, PieceMatches, SimplePiece;
    if g != [] {
      forall k | 0 <= k <= |s|
        ensures Match(RePiece(g[0]), s[..k]) <==> PieceMatches(g[0], s[..k])
        ensures Match(ReGlob(g[1..]), s[k..]) <==> GlobMatches(g[1..], s[k..])
      {
        TreeMatchesPiece(g[0], s[..k]);
        TreeMatchesGlob(g[1..], s[k..]);
      }
    }
  }

  lemma {:induction false} TreeMatchesSome(alternatives: seq<Alternative>, s: string)
    requires alternatives != [] && forall a <- alternatives :: Simple(a.pieces)
    ensures Match(ReAlternatives(alternatives), s) <==> exists a <- alternatives :: GlobMatches(a.pieces, s)
    decreases alternatives, 2
  {
    hide ReGlob, GlobMatches, Simple;
    TreeMatchesGlob(alternatives[0].pieces, s);
    if |alternatives| > 1 {
      TreeMatchesSome(alternatives[1..], s);
      assert alternatives == [alternatives[0]] + alternatives[1..];
    }
  }

  /** The pattern of a simple glob matches exactly what the glob stands for. */
  lemma PatternMeansGlob(engine: Engine, g: seq<Piece>, s: string)
    requires IsRe2(engine) && Simple(g)
    ensures Translate(Flat(g)) == Some((Emit(g), !AllPlain(g)))
    ensures engine(Emit(g), s) <==> GlobMatches(g, s)
  {
    hide Simple, WellFormed, Emit, ReGlob, AllPlain, GlobMatches, Translate;
    SimpleIsWellFormed(g);
    assert Flat(g) + "" == Flat(g) && Emit(g) + "" == Emit(g);
    GlobHasPattern(Flat(g), g, "");
    PatternReads(g);
    TreeMatchesGlob(g, s);
  }

  // ----- a node of a query as a label filter -----

  /** Does a node of a query select a label value? A pattern that is more than
      a literal is matched, any other is compared. */
  predicate NodeSelects(engine: Engine, node: string, value: string) {
    match Translate(node)
    case None => false
    case Some((pattern, regexed)) => if regexed then engine(pattern, value) else value == pattern
  }

  /** The one string that a glob of literals stands for. */
  function Literal(g: seq<Piece>): string
    requires AllPlain(g)
  {
    if g == [] then ""
    else
      assert IsPlain(g[0]);
      [g[0].c] + Literal(g[1..])
  }

  predicate HasBackslash(p: Piece) { p.Escaped? || (p.Char? && IsQuotedLiteral(p.c)) }

  predicate NoBackslash(g: seq<Piece>) { forall p <- g :: !HasBackslash(p) }

  lemma {:induction false} LiteralIsMatched(g: seq<Piece>, s: string)
    requires AllPlain(g)
    ensures GlobMatches(g, s) <==> s == Literal(g)
  {
    if g != [] {
      var p := g[0];
      assert IsPlain(p) && AllPlain(g[1..]) by { assert g == [p] + g[1..]; }
      forall k | 0 <= k <= |s| ensures GlobMatches(g[1..], s[k..]) <==> s[k..] == Literal(g[1..]) {
        LiteralIsMatched(g[1..], s[k..]);
      }
      if s == Literal(g) {
        assert s[..1] == [p.c] && s[1..] == Literal(g[1..]);
      }
      if GlobMatches(g, s) {
        var k :| 0 <= k <= |s| && PieceMatches(p, s[..k]) && GlobMatches(g[1..], s[k..]);
        assert s == s[..k] + s[k..];
      }
    }
  }

  /** The pattern of a literal is the literal, longer by its backslashes. */
  lemma {:induction false} LiteralPattern(g: seq<Piece>)
    requires AllPlain(g)
    ensures NoBackslash(g) ==> Emit(g) == Literal(g)
    ensures !NoBackslash(g) ==> |Emit(g)| > |Literal(g)|
    ensures |Emit(g)| >= |Literal(g)|
  {
    if g != [] {
      assert g == [g[0]] + g[1..];
      assert IsPlain(g[0]) && AllPlain(g[1..]);
      assert NoBackslash(g) <==> !HasBackslash(g[0]) && NoBackslash(g[1..]);
      LiteralPattern(g[1..]);
    }
  }

  /** A simple node selects exactly what it stands for, unless it is a
      literal with a character that gets a backslash. */
  lemma NodeIsExact(engine: Engine, g: seq<Piece>)
    requires IsRe2(engine) && Simple(g)
    ensures (forall value :: NodeSelects(engine, Flat(g), value) <==> GlobMatches(g, value)) <==> !AllPlain(g) || NoBackslash(g)
  {
    hide Simple, AllPlain, NoBackslash, GlobMatches, Emit, Flat, IsRe2, Translate;
    PatternMeansGlob(engine, g, "");
    forall value ensures engine(Emit(g), value) <==> GlobMatches(g, value) { PatternMeansGlob(engine, g, value); }
    if AllPlain(g) {
      LiteralPattern(g);
      forall value ensures GlobMatches(g, value) <==> value == Literal(g) { LiteralIsMatched(g, value); }
      assert GlobMatches(g, Literal(g));
      assert NodeSelects(engine, Flat(g), Literal(g)) <==> NoBackslash(g);
    }
  }
}
