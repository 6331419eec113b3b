/** Which tokens the lexer finds: every kind of token, before text that it does
    not go on with, is the next token of the pass. */
module Tokenizing {
  import opened Text
  import opened Syntax
  import opened Scan
  import opened Ident
  import opened Grammar
  import opened Lexing
  import opened RoundTrip

  /** Some tokens and then those of a stream. */
  function Then(toks: seq<string>, s: Stream): Stream { Stream(toks + s.toks, s.bad) }

  lemma ThenThen(a: seq<string>, b: seq<string>, s: Stream)
    ensures Then(a, Then(b, s)) == Then(a + b, s)
  {
  }

  /** The lexer cuts `t` off the text `t + tail`. */
  predicate Cuts(t: string, tail: string) {
    t != "" && !IsSpaceChar(t[0]) && t[0] != '#' && TokenLength(t + tail) == |t|
  }

  /** A token that is cut off comes first, and the rest is lexed as before. */
  lemma CutComesFirst(t: string, tail: string)
    requires Cuts(t, tail)
    ensures Lex(t + tail) == Then([t], Lex(tail))
  {
    hide TokenLength, IsSpaceChar;
    var s := t + tail;
    NothingSkipped(s);
    assert s[0..] == s && s[..|t|] == t && s[|t|..] == tail;
    assert LexStep(s) == Found("", t, tail);
  }

  lemma NothingSkipped(s: string)
    requires s != [] && !IsSpaceChar(s[0]) && s[0] != '#'
    ensures SkipBlank(s) == 0
  {
    hide IsSpaceChar;
    assert SpacesEnd(s, 0) == 0;
  }

  lemma SameStepSameTokens(s: string, t: string)
    requires SameStep(LexStep(s), LexStep(t))
    ensures Lex(s) == Lex(t)
  {
    hide LexStep;
  }

  /** Spaces and comment lines are skipped. */
  lemma {:induction false} BlankIsSkipped(b: string, s: string)
    requires IsBlank(b)
    ensures Lex(b + s) == Lex(s)
    decreases |b|
  {
    hide LexStep, SkipBlank, Lex;
    if b == [] {
      assert b + s == s;
    } else if IsSpaceChar(b[0]) {
      BlankIsSkipped(b[1..], s);
      assert b + s == [b[0]] + (b[1..] + s);
      SpaceIsSkipped(b[0], b[1..] + s);
    } else {
      var n := IndexOf(b, '\n');
      BlankIsSkipped(b[n + 1..], s);
      assert b + s == b[..n + 1] + (b[n + 1..] + s);
      CommentIsSkipped(b[..n + 1], b[n + 1..] + s);
    }
  }

  lemma SpaceIsSkipped(c: char, s: string)
    requires IsSpaceChar(c)
    ensures Lex([c] + s) == Lex(s)
  {
    hide LexStep, SkipBlank, IsSpaceChar, Lex;
    var t := [c] + s;
    var i, j := SpacesEnd(t, 0), SpacesEnd(s, 0);
    assert t[1..] == s;
    assert i == j + 1 by { SpacesShift(c, s, 0); }
    SkipSpaces(t, i);
    SkipSpaces(s, j);
    assert t[i..] == s[j..];
    SameStepSameTokens(t[i..], t);
    SameStepSameTokens(s[j..], s);
  }

  lemma {:induction false} SpacesShift(c: char, s: string, i: nat)
    requires i <= |s| && IsSpaceChar(c)
    ensures SpacesEnd([c] + s, i + 1) == SpacesEnd(s, i) + 1
    ensures SpacesEnd([c] + s, 0) == SpacesEnd([c] + s, 1)
    decreases |s| - i
  {
    hide IsSpaceChar;
    if i < |s| {
      assert ([c] + s)[i + 1] == s[i];
      SpacesShift(c, s, i + 1);
    }
  }

  lemma CommentIsSkipped(line: string, s: string)
    requires line != [] && line[0] == '#' && IndexOf(line, '\n') == |line| - 1
    ensures Lex(line + s) == Lex(s)
  {
    hide LexStep, SkipBlank, IndexOf;
    var t, n := line + s, |line| - 2;
    assert line[0] != '\n';
    assert t[1..][n] == '\n' by { assert line[|line| - 1] == '\n'; }
    forall k | 0 <= k < n ensures t[1..][k] != '\n' { assert line[..|line| - 1][k + 1] == t[1..][k]; }
    IndexOfFirst(t[1..], '\n', n);
    SkipComment(t, n);
    assert t[1..][n + 1..] == s;
    SameStepSameTokens(s, t);
  }

  // ----- punctuation -----

  lemma MarkIsCut(c: char, tail: string)
    requires IsPunctuation(c)
    ensures Cuts([c], tail)
  {
    assert ([c] + tail)[0] == c;
  }

  // ----- names -----

  /** A whole identifier, whatever text that cannot go on with one follows. */
  ghost predicate IsName(t: string) { IsIdentPrefix(t) && forall tail | EndsIdent(tail) :: NameLength(t, tail) == |t| }

  function NameLength(t: string, tail: string): nat
    requires IsIdentPrefix(t)
  {
    assert (t + tail)[0] == t[0];
    IdentLength(t + tail)
  }

  lemma IdentStart(t: string, tail: string)
    requires IsIdentPrefix(t)
    ensures IsIdentPrefix(t + tail) && !IsPunctuation(t[0]) && !IsSpaceChar(t[0]) && t[0] != '#'
  {
    assert (t + tail)[0] == t[0];
  }

  lemma IdentIsCut(t: string, tail: string)
    requires IsIdentPrefix(t) && NameLength(t, tail) == |t|
    ensures Cuts(t, tail)
  {
    hide IdentLength, IsIdentPrefix;
    IdentStart(t, tail);
    assert (t + tail)[0] == t[0];
  }

  lemma NameIsCut(t: string, tail: string)
    requires IsName(t) && EndsIdent(tail)
    ensures Cuts(t, tail)
  {
    hide NameLength;
    IdentIsCut(t, tail);
  }

  /** The escaped form of any string without two dots in a row is a name, and
      no other is. */
  lemma EscapedIsName(s: string)
    requires IsByteString(s) && s != []
    ensures IsName(Escape(s)) <==> !HasDotPair(s, true)
  {
    hide IdentLength, HasDotPair, EndsIdent, Escape, IsIdentPrefix;
    forall tail | EndsIdent(tail)
      ensures IsIdentPrefix(Escape(s)) && (NameLength(Escape(s), tail) == |Escape(s)| <==> !HasDotPair(s, true))
    {
      EscapedIsOneToken(s, tail);
      EscapedStart(s);
    }
    assert EndsIdent("") by { NothingEndsIdent(); }
  }

  lemma EscapedStart(s: string)
    requires s != []
    ensures IsIdentPrefix(Escape(s))
  {
  }

  lemma NothingEndsIdent()
    ensures EndsIdent("")
  {
  }

  predicate IsPlainName(t: string) {
    t != "" && IsFirstIdentChar(t[0]) && forall k | 0 <= k < |t| :: IsIdentChar(t[k]) && t[k] != '.'
  }

  /** Letters, digits, underscores and colons are written as they are. */
  lemma {:induction false} PlainIsItsEscape(s: string, first: bool)
    requires forall k | 0 <= k < |s| :: IsIdentChar(s[k])
    requires first && s != [] ==> IsFirstIdentChar(s[0])
    ensures EscapeFrom(s, first) == s && IsByteString(s)
  {
    hide IsIdentChar;
    if s != [] {
      PlainIsItsEscape(s[1..], false);
      assert EscapeChar(s[0], first) == [s[0]];
      assert s[0] as int < 256 by { IdentCharIsByte(s[0]); }
    }
  }

  lemma IdentCharIsByte(c: char)
    requires IsIdentChar(c)
    ensures c as int < 256
  {
  }

  lemma PlainIsName(t: string)
    requires IsPlainName(t)
    ensures IsName(t)
  {
    hide IsIdentChar, IsName;
    PlainIsItsEscape(t, true);
    EscapedIsName(t);
  }

  // ----- what an identifier is made of -----

  /** A piece of an identifier at position `i`: a character (but no dot before
      a dot), a dash, bar or question mark, an escaped character, a backslash
      that ends the text, and, after a dot, a star, a brace list or a bracket
      expression. */
  predicate IsPiece(s: string, i: nat, dotted: bool, u: string) {
    && i + |u| <= |s| && s[i..i + |u|] == u
    && (|| (|u| == 1 && IsIdentChar(u[0]) && !(u == "." && i + 1 < |s| && s[i + 1] == '.'))
        || (|u| == 1 && IsGraphiteChar(u[0]))
        || (|u| == 2 && u[0] == '\\')
        || (u == "\\" && i + 1 == |s|)
        || (dotted && u != "" && WildcardLength(s[i..]) == |u|))
  }

  /** The length of a star, brace list or bracket expression, or -1. */
  function WildcardLength(s: string): (n: int)
    requires s != []
    ensures n == -1 || 0 < n <= |s|
    ensures n > 0 ==> s[0] in {'*', '{', '['}
  {
    match s[0]
    case '*' => 1
    case '{' => ValueListLength(s)
    case '[' => CharRangeLength(s)
    case _ => -1
  }

  /** The pieces from `i` on, up to `j`, where no piece follows. */
  ghost predicate IsRun(s: string, i: nat, dotted: bool, pieces: seq<string>, j: nat)
    decreases |pieces|
  {
    if pieces == [] then i == j <= |s| && forall u :: !IsPiece(s, i, dotted, u)
    else
      && IsPiece(s, i, dotted, pieces[0])
      && IsRun(s, i + |pieces[0]|, dotted || pieces[0] == ".", pieces[1..], j)
  }

  predicate IsDashed(u: string) { |u| == 1 && IsGraphiteChar(u[0]) }

  /** Where an identifier without a dot ends: before its first dash, bar or
      question mark. */
  function PlainEnd(pieces: seq<string>, i: nat): nat {
    if pieces == [] || IsDashed(pieces[0]) then i else PlainEnd(pieces[1..], i + |pieces[0]|)
  }

  /** The piece that the loop takes at `i`, or none. */
  function PieceAt(s: string, i: nat, dotted: bool): Option<string>
    requires i <= |s|
  {
    if i == |s| || (s[i] == '.' && i < |s| - 1 && s[i + 1] == '.') then None
    else if IsIdentChar(s[i]) || IsGraphiteChar(s[i]) then Some([s[i]])
    else if s[i] == '\\' then Some(if i + 2 > |s| then s[i..] else s[i..i + 2])
    else if dotted && WildcardLength(s[i..]) > 0 then Some(s[i..i + WildcardLength(s[i..])])
    else None
  }

  lemma Classes(c: char)
    ensures IsIdentChar(c) ==> !IsGraphiteChar(c) && c !in {'\\', '*', '{', '['}
    ensures IsGraphiteChar(c) ==> c !in {'\\', '*', '{', '['}
    ensures IsIdentChar('.') && !IsGraphiteChar('.')
  {
  }

  lemma PieceIsExact(s: string, i: nat, dotted: bool, u: string)
    requires i <= |s|
    ensures IsPiece(s, i, dotted, u) <==> PieceAt(s, i, dotted) == Some(u)
  {
    hide WildcardLength, IsIdentChar, IsGraphiteChar;
    if i < |s| && u != "" && i + |u| <= |s| && s[i..i + |u|] == u {
      var c := s[i];
      Classes(c);
      NoGraphite();
      assert u[0] == c == s[i..][0];
      assert |u| == 1 ==> u == [c] && (u == "." <==> c == '.') && (u == "\\" <==> c == '\\');
      assert i + 1 == |s| ==> s[i..] == [c];
    } else {
      assert !IsPiece(s, i, dotted, u);
      PieceIsThere(s, i, dotted);
    }
  }

  lemma PieceIsThere(s: string, i: nat, dotted: bool)
    requires i <= |s|
    ensures match PieceAt(s, i, dotted)
            case None => true
            case Some(u) => i < |s| && u != "" && i + |u| <= |s| && s[i..i + |u|] == u
  {
    hide WildcardLength, IsIdentChar, IsGraphiteChar;
  }

  /** The scan after a piece. */
  function After(st: IdentScan, u: string): (r: IdentScan)
    requires st.guess <= st.i
    ensures r.guess <= r.i
  {
    IdentScan(st.i + |u|, st.isGraphite || u == ".", if IsDashed(u) && !st.isGraphite && st.guess < 0 then st.i else st.guess)
  }

  lemma BodyStep(s: string, st: IdentScan)
    requires st.i <= |s| && st.guess <= st.i
    ensures var p := PieceAt(s, st.i, st.isGraphite);
            && (p.None? ==> IdentBody(s, st) == st)
            && (p.Some? ==> p.value != "" && st.i + |p.value| <= |s| && IdentBody(s, st) == IdentBody(s, After(st, p.value)))
  {
    hide WildcardLength, IsIdentChar, IsGraphiteChar, IdentBody, After, PieceAt;
    var i := st.i;
    PieceKinds(s, i, st.isGraphite);
    if i == |s| || (s[i] == '.' && i < |s| - 1 && s[i + 1] == '.') {
      StopStep(s, st);
    } else if IsIdentChar(s[i]) || IsGraphiteChar(s[i]) {
      CharStep(s, st);
    } else if s[i] == '\\' {
      BackslashStep(s, st);
    } else {
      OtherStep(s, st);
    }
  }

  lemma OtherStep(s: string, st: IdentScan)
    requires st.i < |s| && st.guess <= st.i && !IsIdentChar(s[st.i]) && !IsGraphiteChar(s[st.i]) && s[st.i] != '\\'
    ensures var p := PieceAt(s, st.i, st.isGraphite);
            && (p.None? ==> IdentBody(s, st) == st)
            && (p.Some? ==> p.value != "" && st.i + |p.value| <= |s| && IdentBody(s, st) == IdentBody(s, After(st, p.value)))
  {
    hide WildcardLength, IsIdentChar, IsGraphiteChar, IdentBody, After, PieceAt;
    PieceOfWildcard(s, st.i, st.isGraphite);
    WildcardStep(s, st);
  }

  lemma PieceKinds(s: string, i: nat, dotted: bool)
    requires i <= |s|
    ensures var pair := i < |s| - 1 && s[i] == '.' && s[i + 1] == '.';
            && (i == |s| || pair ==> PieceAt(s, i, dotted) == None)
            && (i < |s| && !pair ==>
                  && (IsIdentChar(s[i]) || IsGraphiteChar(s[i]) ==> PieceAt(s, i, dotted) == Some([s[i]]))
                  && (!IsIdentChar(s[i]) && !IsGraphiteChar(s[i]) && s[i] == '\\' ==>
                        PieceAt(s, i, dotted) == Some(if i + 2 > |s| then s[i..] else s[i..i + 2])))
  {
    hide WildcardLength, IsIdentChar, IsGraphiteChar;
  }

  lemma IdentCharStep(s: string, st: IdentScan)
    requires st.i < |s| && st.guess <= st.i && IsIdentChar(s[st.i])
    requires !(s[st.i] == '.' && st.i < |s| - 1 && s[st.i + 1] == '.')
    ensures IdentBody(s, st) == IdentBody(s, IdentScan(st.i + 1, st.isGraphite || s[st.i] == '.', st.guess))
  {
    hide IsIdentChar, IsGraphiteChar, SpecialStep;
  }

  lemma GraphiteCharStep(s: string, st: IdentScan)
    requires st.i < |s| && st.guess <= st.i && IsGraphiteChar(s[st.i])
    ensures IdentBody(s, st) ==
            IdentBody(s, IdentScan(st.i + 1, st.isGraphite, if !st.isGraphite && st.guess < 0 then st.i else st.guess))
  {
    hide SpecialStep;
  }

  lemma AfterChar(st: IdentScan, c: char)
    requires st.guess <= st.i && (IsIdentChar(c) || IsGraphiteChar(c))
    ensures After(st, [c]) ==
            if IsIdentChar(c) then IdentScan(st.i + 1, st.isGraphite || c == '.', st.guess)
            else IdentScan(st.i + 1, st.isGraphite, if !st.isGraphite && st.guess < 0 then st.i else st.guess)
  {
    hide IsIdentChar, IsGraphiteChar;
    Classes(c);
    assert [c] == "." <==> c == '.';
  }

  lemma CharStep(s: string, st: IdentScan)
    requires st.i < |s| && st.guess <= st.i && (IsIdentChar(s[st.i]) || IsGraphiteChar(s[st.i]))
    requires !(s[st.i] == '.' && st.i < |s| - 1 && s[st.i + 1] == '.')
    ensures IdentBody(s, st) == IdentBody(s, After(st, [s[st.i]]))
  {
    hide IsIdentChar, IsGraphiteChar, IdentBody, After;
    AfterChar(st, s[st.i]);
    if IsIdentChar(s[st.i]) { IdentCharStep(s, st); } else { GraphiteCharStep(s, st); }
  }

  lemma BackslashStep(s: string, st: IdentScan)
    requires st.i < |s| && st.guess <= st.i && s[st.i] == '\\'
    ensures var u := if st.i + 2 > |s| then s[st.i..] else s[st.i..st.i + 2];
            u != "" && IdentBody(s, st) == IdentBody(s, After(st, u))
  {
    hide IsIdentChar, IsGraphiteChar;
    Classes('\\');
  }

  lemma StopStep(s: string, st: IdentScan)
    requires st.i <= |s| && st.guess <= st.i
    requires st.i == |s| || (s[st.i] == '.' && st.i < |s| - 1 && s[st.i + 1] == '.')
    ensures IdentBody(s, st) == st
  {
  }

  lemma SpecialIsWildcard(s: string, i: nat, dotted: bool)
    requires i < |s| && s[i] != '\\'
    ensures var n := WildcardLength(s[i..]);
            SpecialStep(s, i, dotted) == if dotted && n > 0 then (i + n, true) else (i, false)
  {
    hide ValueListLength, CharRangeLength;
    assert s[i..][0] == s[i];
  }

  lemma SpecialUnfold(s: string, st: IdentScan)
    requires st.i < |s| && st.guess <= st.i && !IsIdentChar(s[st.i]) && !IsGraphiteChar(s[st.i])
    ensures var next := SpecialStep(s, st.i, st.isGraphite);
            IdentBody(s, st) == if next.1 then IdentBody(s, st.(i := next.0)) else st.(i := next.0)
  {
    hide SpecialStep;
    assert s[st.i] != '.';
  }

  lemma PieceOfWildcard(s: string, i: nat, dotted: bool)
    requires i < |s| && !IsIdentChar(s[i]) && !IsGraphiteChar(s[i]) && s[i] != '\\'
    ensures var n := WildcardLength(s[i..]);
            PieceAt(s, i, dotted) == if dotted && n > 0 then Some(s[i..i + n]) else None
  {
    hide WildcardLength, IsIdentChar, IsGraphiteChar;
    Classes('.');
  }

  lemma AfterWildcard(st: IdentScan, u: string)
    requires st.guess <= st.i && st.isGraphite && u != "" && !IsGraphiteChar(u[0])
    ensures After(st, u) == st.(i := st.i + |u|)
  {
    hide IsGraphiteChar;
  }

  lemma WildcardStep(s: string, st: IdentScan)
    requires st.i < |s| && st.guess <= st.i && !IsIdentChar(s[st.i]) && !IsGraphiteChar(s[st.i]) && s[st.i] != '\\'
    ensures var n := WildcardLength(s[st.i..]);
            IdentBody(s, st) ==
            if st.isGraphite && n > 0 then IdentBody(s, After(st, s[st.i..st.i + n])) else st
  {
    hide WildcardLength, SpecialStep, IsIdentChar, IsGraphiteChar, IdentBody, After;
    var i, n := st.i, WildcardLength(s[st.i..]);
    SpecialIsWildcard(s, i, st.isGraphite);
    SpecialUnfold(s, st);
    if st.isGraphite && n > 0 {
      assert s[i..i + n][0] == s[i];
      AfterWildcard(st, s[i..i + n]);
    }
  }

  lemma NoGraphite()
    ensures !IsGraphiteChar('*') && !IsGraphiteChar('{') && !IsGraphiteChar('[') && !IsGraphiteChar('\\')
  {
  }

  /** The loop follows the pieces. */
  lemma {:induction false} BodyOfRun(s: string, st: IdentScan, pieces: seq<string>, j: nat)
    requires st.i <= |s| && st.guess <= st.i && IsRun(s, st.i, st.isGraphite, pieces, j)
    ensures var r := IdentBody(s, st);
            && r.i == j && r.isGraphite == (st.isGraphite || "." in pieces)
            && (!r.isGraphite && st.guess < 0 ==> (if r.guess < 0 then j else r.guess) == PlainEnd(pieces, st.i))
            && (!r.isGraphite && st.guess >= 0 ==> r.guess == st.guess)
    decreases |pieces|
  {
    hide IdentBody, PieceAt, IsPiece, IsDashed;
    BodyStep(s, st);
    if pieces == [] {
      if PieceAt(s, st.i, st.isGraphite).Some? { PieceIsExact(s, st.i, st.isGraphite, PieceAt(s, st.i, st.isGraphite).value); }
    } else {
      var u := pieces[0];
      PieceIsExact(s, st.i, st.isGraphite, u);
      assert pieces == [u] + pieces[1..];
      BodyOfRun(s, After(st, u), pieces[1..], j);
    }
  }

  lemma {:induction false} SomeRun(s: string, i: nat, dotted: bool) returns (pieces: seq<string>, j: nat)
    requires i <= |s|
    ensures IsRun(s, i, dotted, pieces, j)
    decreases |s| - i
  {
    hide PieceAt, IsPiece;
    BodyStep(s, IdentScan(i, dotted, -1));
    pieces, j := [], i;
    forall u ensures IsPiece(s, i, dotted, u) <==> PieceAt(s, i, dotted) == Some(u) { PieceIsExact(s, i, dotted, u); }
    if PieceAt(s, i, dotted).Some? {
      var u := PieceAt(s, i, dotted).value;
      var more;
      more, j := SomeRun(s, i + |u|, dotted || u == ".");
      pieces := [u] + more;
      assert pieces[1..] == more;
    }
  }

  /** An identifier ends where its pieces do; without a dot it ends before the
      first dash, bar or question mark. */
  lemma IdentIsExact(s: string, n: nat)
    requires IsIdentPrefix(s)
    ensures IdentLength(s) == n <==>
            exists pieces, j: nat :: IsRun(s, 0, false, pieces, j) && n == if "." in pieces then j else PlainEnd(pieces, 0)
  {
    hide IdentBody, IsRun, PlainEnd;
    var pieces, j := SomeRun(s, 0, false);
    BodyOfRun(s, IdentScan(0, false, -1), pieces, j);
    LengthIsBody(s);
    if pieces', j': nat :| IsRun(s, 0, false, pieces', j') && n == if "." in pieces' then j' else PlainEnd(pieces', 0) {
      BodyOfRun(s, IdentScan(0, false, -1), pieces', j');
    }
  }

  lemma LengthIsBody(s: string)
    requires IsIdentPrefix(s)
    ensures var r := IdentBody(s, IdentScan(0, false, -1));
            IdentLength(s) == if !r.isGraphite && r.guess >= 0 then r.guess else r.i
  {
  }

  // ----- strings -----

  /** From a quote to the first one that is not escaped. */
  predicate IsLiteral(t: string) {
    IsStringPrefix(t) && |t| > 1 && IsClosingQuote(t, |t| - 1) && forall k | 1 <= k < |t| - 1 :: !IsClosingQuote(t, k)
  }

  lemma {:induction false} EscapedInFront(t: string, tail: string, i: nat)
    requires 1 <= i <= |t|
    ensures IsEscaped(t + tail, i) == IsEscaped(t, i)
  {
    if i > 1 { EscapedInFront(t, tail, i - 1); }
  }

  /** A literal is one token, whatever follows. */
  lemma LiteralIsCut(t: string, tail: string)
    requires IsLiteral(t)
    ensures Cuts(t, tail)
  {
    hide IsEscaped, ClosingQuote, OpLength, IdentLength;
    var s := t + tail;
    assert s[0] == t[0];
    forall k | 1 <= k < |t| ensures IsClosingQuote(s, k) == IsClosingQuote(t, k) {
      EscapedInFront(t, tail, k);
      assert s[k] == t[k];
    }
    assert ClosingQuote(s, 1) == |t| - 1;
  }

  // ----- operators -----

  lemma OpTextHasNoSpace(op: BinOp, k: nat)
    requires k < |OpText(op)|
    ensures !IsSpaceChar(OpText(op)[k]) && OpText(op)[k] !in {'"', '\'', '`'}
  {
  }

  /** What follows an operator of symbols does not make it a longer one. */
  predicate EndsOp(tail: string) { tail == [] || tail[0] !in {'=', '~'} }

  lemma OpStart(s: string)
    requires OpLength(s) > 0
    ensures s != [] && !IsDecimalChar(s[0]) && s[0] != '.'
  {
    hide OpText, OpLength;
    OpLengthIsMax(s);
    var op :| StartsWithOp(s, op) && |OpText(op)| == OpLength(s);
    OpFirst(op);
    assert Lower(s[..|OpText(op)|])[0] == LowerChar(s[0]);
  }

  lemma OpFirst(op: BinOp)
    ensures OpText(op) != "" && !IsDecimalChar(OpText(op)[0]) && OpText(op)[0] != '.'
  {
  }

  lemma WordIsPlain(t: string)
    requires OpOf(t).Some? && IsIdentPrefix(t)
    ensures IsPlainName(t)
  {
    hide OpOf, OpText;
    var l := Lower(t);
    OpIsItsText(t);
    OpFirst(OpOf(t).value);
    LettersOnly(OpOf(t).value);
    forall k | 0 <= k < |t| ensures IsIdentChar(t[k]) && t[k] != '.' { assert l[k] == LowerChar(t[k]); }
  }

  lemma LettersOnly(op: BinOp)
    ensures var u := OpText(op);
            (forall k | 0 <= k < |u| :: 'a' <= u[k] <= 'z') || (u != "" && !IsFirstIdentChar(u[0]) && u[0] != '\\' && !('A' <= u[0] <= 'Z'))
  {
  }

  /** Two operators one of which starts with the other. */
  lemma LongerOps(a: BinOp, b: BinOp)
    requires !IsFirstIdentChar(OpText(a)[0]) && |OpText(a)| < |OpText(b)| && OpText(b)[..|OpText(a)|] == OpText(a)
    ensures OpText(b)[|OpText(a)|] == '='
  {
  }

  /** An operator made of symbols is a token. */
  lemma SymbolIsCut(t: string, tail: string)
    requires OpOf(t).Some? && !IsIdentPrefix(t) && EndsOp(tail)
    ensures Cuts(t, tail)
  {
    hide OpOf, OpText, OpLength, StartsWithOp, IsIdentPrefix;
    var s, a := t + tail, OpOf(t).value;
    OpIsItsText(t);
    OpFirst(OpOf(t).value);
    SymbolStart(t);
    OpLengthIsMax(s);
    assert StartsWithOp(s, a) by { StartsWithItself(t, tail, a); }
    var n := OpLength(s);
    var b :| StartsWithOp(s, b) && |OpText(b)| == n;
    NoLongerOp(t, tail, a, b);
    assert s[0] == t[0] && !IsIdentPrefix(s) by { SameStart(t, tail); }
  }

  lemma SameStart(t: string, tail: string)
    requires t != ""
    ensures IsIdentPrefix(t + tail) == IsIdentPrefix(t) && (t + tail)[0] == t[0]
  {
  }

  lemma SymbolStart(t: string)
    requires OpOf(t).Some? && !IsIdentPrefix(t)
    ensures t != "" && !IsPunctuation(t[0]) && !IsStringPrefix(t) && !IsSpaceChar(t[0]) && t[0] != '#'
    ensures !IsFirstIdentChar(OpText(OpOf(t).value)[0])
  {
    hide OpOf, OpText;
    OpIsItsText(t);
    OpFirst(OpOf(t).value);
    var u := Lower(t);
    assert u[0] == LowerChar(t[0]);
    OpFirstChar(OpOf(t).value);
  }

  lemma OpFirstChar(op: BinOp)
    ensures var c := OpText(op)[0]; 'a' <= c <= 'z' || c in {'+', '-', '*', '/', '%', '^', '=', '!', '>', '<'}
  {
  }

  lemma StartsWithItself(t: string, tail: string, a: BinOp)
    requires OpText(a) == Lower(t)
    ensures StartsWithOp(t + tail, a)
  {
    hide OpText;
    assert (t + tail)[..|t|] == t;
  }

  lemma NoLongerOp(t: string, tail: string, a: BinOp, b: BinOp)
    requires OpText(a) == Lower(t) && StartsWithOp(t + tail, b) && EndsOp(tail)
    requires t != "" && !IsFirstIdentChar(OpText(a)[0])
    ensures |OpText(b)| <= |t|
  {
    hide OpText;
    var s, u := t + tail, OpText(b);
    if |u| > |t| {
      var l := Lower(s[..|u|]);
      forall k | 0 <= k < |t| ensures u[k] == Lower(t)[k] { assert l[k] == LowerChar(s[k]) == LowerChar(t[k]); }
      assert u[..|t|] == OpText(a);
      assert l[|t|] == LowerChar(s[|t|]) == LowerChar(tail[0]);
      LongerOps(a, b);
    }
  }

  /** The operators of filters are tokens. */
  lemma FilterOpIsCut(t: string, tail: string)
    requires t in {"=", "!=", "=~", "!~"} && EndsOp(tail)
    ensures Cuts(t, tail)
  {
    if t == "!=" {
      SymbolIsCut(t, tail);
    } else {
      var s := t + tail;
      assert s[0] == t[0];
      assert |t| == 2 ==> s[1] == t[1];
      assert |t| == 1 && tail != [] ==> s[1] == tail[0];
      NoFilterOp(s);
      assert FilterOpLength(s) == |t|;
    }
  }

  lemma NoFilterOp(s: string)
    requires s != [] && (s[0] == '=' || s[0] == '!') && (|s| > 1 ==> s[1] != '=')
    ensures OpLength(s) == 0
  {
    hide OpText, OpLength;
    OpLengthIsMax(s);
    if OpLength(s) > 0 {
      var op :| StartsWithOp(s, op) && |OpText(op)| == OpLength(s);
      var l := Lower(s[..|OpText(op)|]);
      OpFirst(op);
      assert l[0] == s[0] && (|l| > 1 ==> l[1] == LowerChar(s[1]));
      EqualOps(op);
    }
  }

  lemma EqualOps(op: BinOp)
    ensures OpText(op) != "" && (OpText(op)[0] == '=' || OpText(op)[0] == '!' ==> |OpText(op)| == 2 && OpText(op)[1] == '=')
  {
  }

  // ----- numbers -----

  lemma DigitStart(t: string, tail: string)
    requires t != "" && (IsDecimalChar(t[0]) || t[0] == '.')
    ensures var s := t + tail;
            && s[0] == t[0] && !IsPunctuation(t[0]) && !IsIdentPrefix(s) && !IsStringPrefix(s) && !IsSpaceChar(t[0]) && t[0] != '#'
            && OpLength(s) == 0 && FilterOpLength(s) == -1
  {
    hide OpLength;
    var s := t + tail;
    assert s[0] == t[0];
    if OpLength(s) > 0 { OpStart(s); }
  }

  /** A duration is one token, whatever follows. */
  lemma DurationIsCut(t: string, tail: string)
    requires IsDuration(t)
    ensures Cuts(t, tail)
  {
    hide DurationLength, OpLength, IdentLength, FilterOpLength;
    DurationMarks(t);
    DurationIsExact(t, false, |t|);
    assert t[..|t|] == t == (t + tail)[..|t|];
    DurationIsExact(t + tail, false, |t|);
    DigitStart(t, tail);
  }

  predicate IsNumeral(t: string) { IsNumberPrefix(t) && NumberLength(t) == |t| }

  /** Text after a number that is no part of it and makes it no duration. */
  predicate EndsNumber(tail: string) {
    tail == [] || (!IsDecimalChar(tail[0]) && tail[0] !in UNITS && tail[0] !in {'.', 'e', 'E'})
  }

  /** A number is a token. */
  lemma NumeralIsCut(t: string, tail: string)
    requires IsNumeral(t) && EndsNumber(tail)
    ensures Cuts(t, tail)
  {
    hide OpLength, IdentLength, FilterOpLength, NumberLength, DurationLength;
    DigitStart(t, tail);
    assert IsNumberPrefix(t + tail) by { PrefixOfMore(t, tail); }
    NumeralBefore(t, tail);
  }

  lemma PrefixOfMore(t: string, tail: string)
    requires IsNumberPrefix(t)
    ensures IsNumberPrefix(t + tail)
  {
    assert (t + tail)[0] == t[0];
    assert |t| > 1 ==> (t + tail)[1] == t[1];
  }

  lemma {:induction false} DigitsEndOfMore(t: string, tail: string, i: nat)
    requires i <= |t| && (tail == [] || !IsDecimalChar(tail[0]))
    ensures DigitsEnd(t + tail, i) == DigitsEnd(t, i)
    decreases |t| - i
  {
    if i < |t| {
      assert (t + tail)[i] == t[i];
      DigitsEndOfMore(t, tail, i + 1);
    }
  }

  lemma NumeralBefore(t: string, tail: string)
    requires IsNumeral(t) && EndsNumber(tail) && IsNumberPrefix(t + tail)
    ensures NumberLength(t + tail) == |t| && DurationLength(t + tail, false) < 0
  {
    hide DigitsEnd;
    var s := t + tail;
    var i := DigitsEnd(t, 0);
    DigitsEndOfMore(t, tail, 0);
    DigitsEndIs(t, 0);
    if i < |t| {
      assert s[i] == t[i];
      var j := i;
      if t[i] == '.' {
        j := DigitsEnd(t, i + 1);
        DigitsEndOfMore(t, tail, i + 1);
        DigitsEndIs(t, i + 1);
      }
      if j < |t| {
        assert s[j] == t[j];
        ExponentOfMore(t, tail, j);
      }
    }
  }

  lemma ExponentOfMore(t: string, tail: string, j: nat)
    requires j < |t| && ExponentEnd(t, j) == |t| && EndsNumber(tail)
    ensures ExponentEnd(t + tail, j) == |t| && (t[j] == 'e' || t[j] == 'E')
  {
    hide DigitsEnd;
    var s := t + tail;
    assert s[j] == t[j] && s[j + 1] == t[j + 1];
    var k := if t[j + 1] == '-' || t[j + 1] == '+' then j + 2 else j + 1;
    DigitsEndOfMore(t, tail, k);
  }

  // ----- what is a token, and what is not -----

  /** The first `n` characters are a token: punctuation, an identifier, a
      literal, the longest operator, an operator of filters, a duration, or a
      number that does not go on as a duration. */
  predicate IsFirstToken(s: string, n: nat) {
    && 0 < n <= |s|
    && var t := s[..n];
    || (n == 1 && IsPunctuation(t[0]))
    || (IsIdentPrefix(s) && IdentLength(s) == n)
    || IsLiteral(t)
    || (!IsIdentPrefix(s) && IsOpLength(s, n))
    || t == "=~" || t == "!~" || (t == "=" && EndsOp(s[1..]))
    || IsDuration(t)
    || (IsNumberPrefix(s) && NumberLength(s) == n && forall k | 0 < k <= |s| :: !IsDuration(s[..k]))
  }

  lemma PrefixStart(s: string, n: nat)
    requires 0 < n <= |s|
    ensures s[..n] + s[n..] == s && s[..n][0] == s[0]
  {
  }

  /** Everything that is a token is found. */
  lemma FirstTokenIsFound(s: string, n: nat)
    requires IsFirstToken(s, n)
    ensures TokenLength(s) == n
  {
    hide IdentLength, ClosingQuote, OpLength, DurationLength, NumberLength, IsOpLength, TokenLength, FilterOpLength, IsLiteral, IsIdentPrefix, OpText, IsPunctuation;
    var t, tail := s[..n], s[n..];
    PrefixStart(s, n);
    if n == 1 && IsPunctuation(t[0]) {
      MarkIsCut(t[0], tail);
      assert [t[0]] == t;
    } else if IsIdentPrefix(s) && IdentLength(s) == n {
      IdentFirst(s);
    } else if IsLiteral(t) {
      LiteralIsCut(t, tail);
    } else if !IsIdentPrefix(s) && IsOpLength(s, n) {
      OpIsFirst(s, n);
    } else if t == "=~" || t == "!~" {
      FilterOpIsFound(s);
    } else if t == "=" && EndsOp(s[1..]) {
      FilterOpIsCut(t, tail);
    } else if IsDuration(t) {
      DurationIsCut(t, tail);
    } else {
      NumberIsFirst(s, n);
    }
  }

  lemma IdentFirst(s: string)
    requires IsIdentPrefix(s)
    ensures TokenLength(s) == IdentLength(s)
  {
    hide IdentLength;
  }

  lemma OpIsFirst(s: string, n: nat)
    requires s != "" && !IsIdentPrefix(s) && IsOpLength(s, n) && n > 0
    ensures TokenLength(s) == n
  {
    hide IsOpLength, OpLength, OpText, IdentLength, ClosingQuote, IsIdentPrefix, StartsWithOp;
    OpLengthIsMax(s);
    OpLengthIsUnique(s, n, OpLength(s));
    assert IsOpLength(s, n) && !IsPunctuation(s[0]) && !IsStringPrefix(s) by { OpStarts(s, n); }
  }

  lemma OpStarts(s: string, n: nat)
    requires IsOpLength(s, n) && n > 0 && s != ""
    ensures !IsPunctuation(s[0]) && !IsStringPrefix(s)
  {
    hide OpText;
    var op :| StartsWithOp(s, op) && |OpText(op)| == n;
    OpFirstChar(op);
    assert Lower(s[..n])[0] == LowerChar(s[0]);
  }

  lemma FilterOpIsFound(s: string)
    requires |s| > 1 && (s[..2] == "=~" || s[..2] == "!~")
    ensures TokenLength(s) == 2
  {
    hide OpLength, IdentLength, ClosingQuote;
    assert s[0] == s[..2][0] && s[1] == s[..2][1];
    NoFilterOp(s);
  }

  lemma NumberIsFirst(s: string, n: nat)
    requires IsNumberPrefix(s) && NumberLength(s) == n && n > 0 && forall k | 0 < k <= |s| :: !IsDuration(s[..k])
    ensures TokenLength(s) == n
  {
    hide OpLength, IdentLength, ClosingQuote, NumberLength, DurationLength, FilterOpLength;
    DigitStart(s[..1], s[1..]);
    assert s[..1] + s[1..] == s;
    NoDurationPrefix(s);
  }

  lemma NoDurationPrefix(s: string)
    ensures DurationLength(s, false) > 0 ==> IsDuration(s[..DurationLength(s, false)])
    ensures DurationLength(s, false) < 0 ==> forall k | 0 < k <= |s| :: !IsDuration(s[..k])
  {
    hide DurationLength;
    var n := DurationLength(s, false);
    if n > 0 {
      DurationIsExact(s, false, n);
      assert s[..n][..n] == s[..n];
      DurationIsExact(s[..n], false, n);
    } else {
      forall k | 0 < k <= |s| ensures !IsDuration(s[..k]) {
        assert s[..k][..k] == s[..k];
        DurationIsExact(s[..k], false, k);
        DurationIsExact(s, false, k);
      }
    }
  }

  /** Everything that is found is a token. */
  lemma FoundIsFirstToken(s: string)
    requires s != "" && TokenLength(s) > 0
    ensures IsFirstToken(s, TokenLength(s))
  {
    hide IdentLength, OpLength, DurationLength, NumberLength, IsOpLength, ClosingQuote, IsLiteral, IsDuration;
    var n := TokenLength(s);
    PrefixStart(s, n);
    OpLengthIsMax(s);
    if IsPunctuation(s[0]) || IsIdentPrefix(s) {
    } else if IsStringPrefix(s) {
      QuotedIsLiteral(s);
    } else if OpLength(s) > 0 {
    } else if FilterOpLength(s) > 0 {
      FilterOpIsFirst(s);
    } else if DurationLength(s, false) > 0 {
      NoDurationPrefix(s);
    } else {
      NoDurationPrefix(s);
    }
  }

  lemma QuotedIsLiteral(s: string)
    requires IsStringPrefix(s) && ClosingQuote(s, 1) > 0
    ensures IsLiteral(s[..ClosingQuote(s, 1) + 1])
  {
    hide IsEscaped;
    var n := ClosingQuote(s, 1) + 1;
    var t, tail := s[..n], s[n..];
    assert t + tail == s && t[0] == s[0];
    forall k | 1 <= k < n ensures IsClosingQuote(s, k) == IsClosingQuote(t, k) {
      EscapedInFront(t, tail, k);
      assert s[k] == t[k];
    }
  }

  lemma FilterOpIsFirst(s: string)
    requires s != "" && OpLength(s) == 0 && FilterOpLength(s) > 0
    ensures var t := s[..FilterOpLength(s)]; t == "=~" || t == "!~" || (t == "=" && EndsOp(s[1..]))
  {
    hide OpLength, OpText;
    OpLengthIsMax(s);
    if |s| > 1 && s[1] == '=' && (s[0] == '=' || s[0] == '!') {
      EqualStarts(s);
    }
    var t := s[..FilterOpLength(s)];
    assert |t| == 2 ==> t == [s[0], s[1]];
    assert |t| == 1 ==> t == [s[0]];
  }

  lemma EqualStarts(s: string)
    requires |s| > 1 && s[1] == '=' && (s[0] == '=' || s[0] == '!')
    ensures StartsWithOp(s, if s[0] == '=' then Eql else Neq) && |OpText(if s[0] == '=' then Eql else Neq)| == 2
  {
    var l := Lower(s[..2]);
    assert l[0] == s[0] && l[1] == '=';
    assert l == (if s[0] == '=' then "==" else "!=");
  }

  /** The lexer finds exactly the tokens, and reports all other text. */
  lemma TokenIsExact(s: string, n: nat)
    requires s != "" && n > 0
    ensures TokenLength(s) == n <==> IsFirstToken(s, n)
    ensures TokenLength(s) < 0 <==> forall k: nat :: !IsFirstToken(s, k)
  {
    hide TokenLength, IsFirstToken;
    forall k: nat | IsFirstToken(s, k) ensures TokenLength(s) == k && k > 0 {
      FirstTokenIsFound(s, k);
      assert k > 0 by { TokenHasLength(s, k); }
    }
    if TokenLength(s) > 0 { FoundIsFirstToken(s); }
  }

  lemma TokenHasLength(s: string, k: nat)
    requires IsFirstToken(s, k)
    ensures k > 0
  {
  }

  /** A last comment ends the input. */
  lemma LastCommentIsEnd(b: string, comment: string)
    requires IsBlank(b) && '\n' !in comment
    ensures Lex(b + ("#" + comment)) == Stream([], false)
  {
    hide SkipBlank;
    BlankIsSkipped(b, "#" + comment);
    var s := "#" + comment;
    assert s[1..] == comment;
    assert SkipBlank(s) == 0 by { LastCommentStays(s); }
  }

  lemma LastCommentStays(s: string)
    requires s != "" && s[0] == '#' && '\n' !in s[1..]
    ensures SkipBlank(s) == 0
  {
    assert IndexOf(s[1..], '\n') < 0;
    assert SpacesEnd(s, 0) == 0;
    assert s[0 + 1..] == s[1..];
  }
}
