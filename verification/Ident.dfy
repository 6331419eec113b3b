/** Escaping of identifiers: what the printer writes, the lexer scans back as
    one token and the parser unescapes. */
module Ident {
  import opened Text
  import opened Scan

  /** Go strings are byte strings. */
  predicate IsByteString(s: string) { forall i | 0 <= i < |s| :: s[i] as int < 256 }

  function HexChar(n: nat): (c: char)
    ensures IsIdentChar(c) && c != '.'
  {
    if n % 16 < 10 then ('0' as int + n % 16) as char else ('a' as int + (n % 16 - 10)) as char
  }

  /** The value of a hexadecimal digit, or -1. */
  function FromHex(c: char): (n: int)
    ensures -1 <= n < 16
  {
    if '0' <= c <= '9' then c as int - '0' as int
    else if 'a' <= c <= 'f' then c as int - 'a' as int + 10
    else if 'A' <= c <= 'F' then c as int - 'A' as int + 10
    else -1
  }

  function HexEscape(c: char): string { ['\\', 'x', HexChar(c as int / 16), HexChar(c as int)] }

  /** What is written for one character; the first of an identifier must not
      look like the start of a number. */
  function EscapeChar(c: char, first: bool): (u: string)
    ensures 1 <= |u| <= 4
  {
    if IsIdentChar(c) then if first && !IsFirstIdentChar(c) then HexEscape(c) else [c]
    else if ' ' <= c < '\U{7F}' then ['\\', c]
    else HexEscape(c)
  }

  function EscapeFrom(s: string, first: bool): string {
    if s == [] then [] else EscapeChar(s[0], first) + EscapeFrom(s[1..], false)
  }

  /** appendEscapedIdent */
  function Escape(s: string): string { EscapeFrom(s, true) }

  /** unescapeIdent */
  function Unescape(s: string): string {
    if s == [] then []
    else if s[0] != '\\' then [s[0]] + Unescape(s[1..])
    else if |s| == 1 then []
    else if s[1] == 'x' && |s| >= 4 && FromHex(s[2]) >= 0 && FromHex(s[3]) >= 0 then
      [(FromHex(s[2]) * 16 + FromHex(s[3])) as char] + Unescape(s[4..])
    else [s[1]] + Unescape(s[2..])
  }

  lemma HexRoundTrip(c: char)
    requires c as int < 256
    ensures FromHex(HexChar(c as int / 16)) == c as int / 16
    ensures FromHex(HexChar(c as int)) == c as int % 16
  {
  }

  lemma UnescapeChar(c: char, first: bool, rest: string)
    requires c as int < 256
    ensures Unescape(EscapeChar(c, first) + rest) == [c] + Unescape(rest)
  {
    var u := EscapeChar(c, first);
    assert (u + rest)[|u|..] == rest;
    if u == HexEscape(c) {
      HexRoundTrip(c);
    }
  }

  /** unescapeIdent undoes appendEscapedIdent. */
  lemma {:induction false} UnescapeOfEscape(s: string, first: bool)
    requires IsByteString(s)
    ensures Unescape(EscapeFrom(s, first)) == s
  {
    if s != [] {
      UnescapeOfEscape(s[1..], false);
      UnescapeChar(s[0], first, EscapeFrom(s[1..], false));
    }
  }

  lemma {:induction false} UnescapeWithoutBackslash(s: string)
    requires '\\' !in s
    ensures Unescape(s) == s
  {
    if s != [] {
      assert s[0] in s;
      UnescapeWithoutBackslash(s[1..]);
    }
  }

  // ----- the escaped form is one token -----

  /** Text after an identifier that cannot be taken for a part of it. */
  predicate EndsIdent(tail: string) {
    tail == [] ||
    (!IsIdentChar(tail[0]) && !IsGraphiteChar(tail[0]) && tail[0] !in {'\\', '*', '{', '['})
  }

  /** Two dots in a row, both of which are written as they are. */
  predicate HasDotPair(s: string, first: bool) {
    exists k | (if first then 1 else 0) <= k < |s| - 1 :: s[k] == '.' && s[k + 1] == '.'
  }

  lemma StepIdentChar(w: string, st: IdentScan)
    requires st.i < |w| && st.guess == -1 && IsIdentChar(w[st.i])
    requires w[st.i] == '.' && st.i + 1 < |w| ==> w[st.i + 1] != '.'
    ensures IdentBody(w, st) == IdentBody(w, IdentScan(st.i + 1, st.isGraphite || w[st.i] == '.', -1))
  {
  }

  lemma StepEscape(w: string, st: IdentScan)
    requires st.i + 1 < |w| && st.guess == -1 && w[st.i] == '\\'
    ensures IdentBody(w, st) == IdentBody(w, IdentScan(st.i + 2, st.isGraphite, -1))
  {
  }

  lemma StepOverChar(w: string, st: IdentScan, c: char, first: bool)
    requires c as int < 256 && st.guess == -1
    requires st.i + |EscapeChar(c, first)| <= |w|
    requires forall k | 0 <= k < |EscapeChar(c, first)| :: w[st.i + k] == EscapeChar(c, first)[k]
    requires EscapeChar(c, first) == ['.'] && st.i + 1 < |w| ==> w[st.i + 1] != '.'
    ensures IdentBody(w, st) ==
            IdentBody(w, IdentScan(st.i + |EscapeChar(c, first)|, st.isGraphite || EscapeChar(c, first) == ['.'], -1))
  {
    hide IdentBody;
    var u, i := EscapeChar(c, first), st.i;
    assert w[i] == u[0];
    if |u| == 1 {
      StepIdentChar(w, st);
    } else {
      StepEscape(w, st);
      if |u| == 4 {
        assert w[i + 2] == u[2] && w[i + 3] == u[3];
        StepIdentChar(w, st.(i := i + 2));
        StepIdentChar(w, st.(i := i + 3));
      }
    }
  }

  lemma StopIdent(w: string, st: IdentScan)
    requires st.i <= |w| && st.guess == -1
    requires EndsIdent(w[st.i..]) || (st.i + 1 < |w| && w[st.i] == '.' && w[st.i + 1] == '.')
    ensures IdentBody(w, st) == st
  {
  }

  lemma FirstOfEscaped(s: string, tail: string)
    requires tail == [] || tail[0] != '.'
    ensures var w := EscapeFrom(s, false) + tail;
            w != [] ==> (w[0] == '.' <==> s != [] && s[0] == '.')
  {
  }

  lemma SplitEscaped(w: string, i: nat, s: string, first: bool, tail: string)
    requires i <= |w| && w[i..] == EscapeFrom(s, first) + tail && s != []
    ensures var u := EscapeChar(s[0], first);
            && i + |u| <= |w|
            && (forall k | 0 <= k < |u| :: w[i + k] == u[k])
            && w[i + |u|..] == EscapeFrom(s[1..], false) + tail
  {
    hide EscapeChar, EscapeFrom;
    var u, more := EscapeChar(s[0], first), EscapeFrom(s[1..], false);
    EscapeFromStep(s, first);
    Associative(u, more, tail);
    SplitSuffix(w, i, u, more + tail);
  }

  lemma Associative(a: string, b: string, c: string)
    ensures a + b + c == a + (b + c)
  {
  }

  lemma SplitSuffix(w: string, i: nat, u: string, rest: string)
    requires i <= |w| && w[i..] == u + rest
    ensures i + |u| <= |w| && w[i + |u|..] == rest
    ensures forall k | 0 <= k < |u| :: w[i + k] == u[k]
  {
    assert forall k | 0 <= k < |u| :: w[i + k] == w[i..][k] == u[k];
    assert w[i + |u|..] == w[i..][|u|..];
  }

  /** Whether a dot follows the escaped form of the first character. */
  lemma DotFollows(w: string, j: nat, s: string, tail: string)
    requires j <= |w| && s != [] && w[j..] == EscapeFrom(s[1..], false) + tail && (tail == [] || tail[0] != '.')
    ensures j < |w| ==> (w[j] == '.' <==> |s| > 1 && s[1] == '.')
    ensures |s| > 1 ==> j < |w|
  {
    hide EscapeFrom;
    if |s| > 1 { EscapeFromStep(s[1..], false); }
    FirstOfEscaped(s[1..], tail);
    if j < |w| { assert w[j] == w[j..][0]; }
  }

  lemma EscapeFromStep(s: string, first: bool)
    requires s != []
    ensures EscapeFrom(s, first) == EscapeChar(s[0], first) + EscapeFrom(s[1..], false)
  {
  }

  lemma {:induction false} EscapedBody(w: string, st: IdentScan, s: string, first: bool, tail: string)
    requires IsByteString(s) && EndsIdent(tail) && st.guess == -1 && st.i <= |w|
    requires w[st.i..] == EscapeFrom(s, first) + tail
    ensures var r := IdentBody(w, st);
            && r.guess == -1
            && (HasDotPair(s, first) ==> r.i < st.i + |EscapeFrom(s, first)|)
            && (!HasDotPair(s, first) ==> r.i == st.i + |EscapeFrom(s, first)|)
    decreases s
  {
    hide IdentBody, HasDotPair, EscapeFrom, EndsIdent, EscapeChar, IsByteString;
    var i := st.i;
    if s == [] {
      EscapeOfNothing(first, tail);
      NoDotPair(first);
      StopIdent(w, st);
    } else {
      var u := EscapeChar(s[0], first);
      ByteStringTail(s);
      SplitEscaped(w, i, s, first, tail);
      EscapeFromStep(s, first);
      NoDotAtEnd(tail);
      DotFollows(w, i + |u|, s, tail);
      DotPairStep(s, first);
      if u == ['.'] && |s| > 1 && s[1] == '.' {
        StopIdent(w, st);
      } else {
        StepOverChar(w, st, s[0], first);
        EscapedBody(w, IdentScan(i + |u|, st.isGraphite || u == ['.'], -1), s[1..], false, tail);
      }
    }
  }

  lemma NoDotAtEnd(tail: string)
    requires EndsIdent(tail)
    ensures tail == [] || tail[0] != '.'
  {
  }

  lemma ByteStringTail(s: string)
    requires IsByteString(s) && s != []
    ensures s[0] as int < 256 && IsByteString(s[1..])
  {
  }

  lemma EscapeOfNothing(first: bool, tail: string)
    ensures EscapeFrom("", first) == "" && EscapeFrom("", first) + tail == tail
  {
  }

  lemma NoDotPair(first: bool)
    ensures !HasDotPair("", first)
  {
  }

  lemma DotPairStep(s: string, first: bool)
    requires s != []
    ensures HasDotPair(s, first) <==>
            (EscapeChar(s[0], first) == ['.'] && |s| > 1 && s[1] == '.') || HasDotPair(s[1..], false)
  {
    var t := s[1..];
    if HasDotPair(s, first) {
      var k :| (if first then 1 else 0) <= k < |s| - 1 && s[k] == '.' && s[k + 1] == '.';
      if k > 0 { assert t[k - 1] == '.' && t[k] == '.'; }
    }
    if HasDotPair(t, false) {
      var k :| 0 <= k < |t| - 1 && t[k] == '.' && t[k + 1] == '.';
      assert s[k + 1] == '.' && s[k + 2] == '.';
    }
  }

  /** The escaped form, followed by text that cannot continue it, is scanned
      as exactly that one token if and only if no two dots stand next to
      each other after the first character. */
  lemma EscapedIsOneToken(s: string, tail: string)
    requires IsByteString(s) && s != [] && EndsIdent(tail)
    ensures IsIdentPrefix(Escape(s) + tail)
    ensures IdentLength(Escape(s) + tail) == |Escape(s)| <==> !HasDotPair(s, true)
  {
    var w := Escape(s) + tail;
    assert w[0..] == w;
    EscapedBody(w, IdentScan(0, false, -1), s, true, tail);
  }

  /** A dot that is written as it is. */
  predicate IsDotted(s: string, first: bool) { exists k | (if first then 1 else 0) <= k < |s| :: s[k] == '.' }

  lemma DottedStep(s: string, first: bool)
    requires s != []
    ensures IsDotted(s, first) <==> EscapeChar(s[0], first) == ['.'] || IsDotted(s[1..], false)
  {
    var t := s[1..];
    if IsDotted(s, first) {
      var k :| (if first then 1 else 0) <= k < |s| && s[k] == '.';
      if k > 0 { assert t[k - 1] == '.'; }
    }
    if IsDotted(t, false) {
      var k :| 0 <= k < |t| && t[k] == '.';
      assert s[k + 1] == '.';
    }
  }

  lemma NextIsNoDot(w: string, j: nat, s: string, first: bool, tail: string)
    requires j <= |w| && s != [] && w[j..] == EscapeFrom(s[1..], false) + tail && (tail == [] || tail[0] != '.')
    requires !HasDotPair(s, first) && EscapeChar(s[0], first) == ['.']
    ensures j < |w| ==> w[j] != '.'
  {
    hide HasDotPair, EscapeFrom, EscapeChar;
    DotFollows(w, j, s, tail);
    DotPairStep(s, first);
  }

  predicate StandsAt(w: string, i: nat, u: string) { i + |u| <= |w| && forall k | 0 <= k < |u| :: w[i + k] == u[k] }

  lemma StepOverUnit(w: string, i: nat, dotted: bool, c: char, first: bool)
    requires c as int < 256 && StandsAt(w, i, EscapeChar(c, first))
    requires EscapeChar(c, first) == ['.'] && i + 1 < |w| ==> w[i + 1] != '.'
    ensures IdentBody(w, IdentScan(i, dotted, -1)) ==
            IdentBody(w, IdentScan(i + |EscapeChar(c, first)|, dotted || EscapeChar(c, first) == ['.'], -1))
  {
    hide IdentBody, EscapeChar;
    StepOverChar(w, IdentScan(i, dotted, -1), c, first);
  }

  lemma UnitStandsAt(w: string, i: nat, s: string, first: bool, tail: string)
    requires i <= |w| && w[i..] == EscapeFrom(s, first) + tail && s != []
    ensures var u := EscapeChar(s[0], first);
            StandsAt(w, i, u) && i + |u| <= |w| && w[i + |u|..] == EscapeFrom(s[1..], false) + tail
  {
    hide EscapeChar, EscapeFrom;
    SplitEscaped(w, i, s, first, tail);
  }

  /** One character of the escaped form. */
  lemma EscapedStep(w: string, i: nat, dotted: bool, s: string, first: bool, tail: string)
    requires s != [] && s[0] as int < 256 && (tail == [] || tail[0] != '.') && i <= |w|
    requires w[i..] == EscapeFrom(s, first) + tail && !HasDotPair(s, first)
    ensures var u := EscapeChar(s[0], first);
            && i + |u| <= |w| && w[i + |u|..] == EscapeFrom(s[1..], false) + tail
            && IdentBody(w, IdentScan(i, dotted, -1)) == IdentBody(w, IdentScan(i + |u|, dotted || u == ['.'], -1))
  {
    hide IdentBody, HasDotPair, EscapeFrom, EscapeChar, StandsAt;
    UnitStandsAt(w, i, s, first, tail);
    if EscapeChar(s[0], first) == ['.'] { NextIsNoDot(w, i + 1, s, first, tail); }
    StepOverUnit(w, i, dotted, s[0], first);
  }

  /** The loop comes to the end of the escaped form and goes on from there, in
      a Graphite path if a dot was written. */
  lemma {:induction false} EscapedGoesOn(w: string, st: IdentScan, s: string, first: bool, tail: string)
    requires IsByteString(s) && (tail == [] || tail[0] != '.') && st.guess == -1 && st.i <= |w|
    requires w[st.i..] == EscapeFrom(s, first) + tail && !HasDotPair(s, first)
    ensures st.i + |EscapeFrom(s, first)| <= |w|
    ensures IdentBody(w, st) ==
            IdentBody(w, IdentScan(st.i + |EscapeFrom(s, first)|, st.isGraphite || IsDotted(s, first), -1))
    decreases s
  {
    hide IdentBody, HasDotPair, IsDotted, EscapeFrom, EscapeChar, IsByteString;
    if s == [] {
      EscapeOfNothing(first, tail);
      NothingIsDotted(first);
    } else {
      var u := EscapeChar(s[0], first);
      ByteStringTail(s);
      EscapedStep(w, st.i, st.isGraphite, s, first, tail);
      EscapeFromStep(s, first);
      DotPairStep(s, first);
      DottedStep(s, first);
      EscapedGoesOn(w, IdentScan(st.i + |u|, st.isGraphite || u == ['.'], -1), s[1..], false, tail);
    }
  }

  lemma NothingIsDotted(first: bool)
    ensures !IsDotted("", first)
  {
  }

  lemma BracketStep(w: string, i: nat, dotted: bool)
    requires i < |w| && w[i] == '['
    ensures dotted && CharRangeLength(w[i..]) > 0 ==> IdentBody(w, IdentScan(i, dotted, -1)).i > i
    ensures !(dotted && CharRangeLength(w[i..]) > 0) ==> IdentBody(w, IdentScan(i, dotted, -1)) == IdentScan(i, dotted, -1)
    ensures dotted ==> IdentBody(w, IdentScan(i, dotted, -1)).isGraphite
  {
    hide CharRangeLength;
    var n := CharRangeLength(w[i..]);
    if dotted && n > 0 { GraphiteStays(w, IdentScan(i + n, dotted, -1)); }
  }

  lemma {:induction false} GraphiteStays(w: string, st: IdentScan)
    requires st.i <= |w| && st.guess <= st.i && st.isGraphite
    ensures IdentBody(w, st).isGraphite
    decreases |w| - st.i
  {
    hide SpecialStep, IsIdentChar, IsGraphiteChar;
    if st.i < |w| {
      var next := SpecialStep(w, st.i, true);
      if IsIdentChar(w[st.i]) || IsGraphiteChar(w[st.i]) {
        GraphiteStays(w, IdentScan(st.i + 1, true, st.guess));
      } else if next.1 {
        GraphiteStays(w, IdentScan(next.0, true, st.guess));
      }
    }
  }

  /** Before a bracket, the escaped form is one token unless a dot was written
      and the bracket starts a bracket expression of a Graphite path. */
  lemma EscapedBeforeBracket(s: string, tail: string)
    requires IsByteString(s) && s != [] && !HasDotPair(s, true) && tail != [] && tail[0] == '['
    ensures IsIdentPrefix(Escape(s) + tail)
    ensures IdentLength(Escape(s) + tail) == |Escape(s)| <==> !(IsDotted(s, true) && CharRangeLength(tail) > 0)
  {
    hide IdentBody, HasDotPair, IsDotted, CharRangeLength;
    var w, n := Escape(s) + tail, |Escape(s)|;
    assert w[0..] == w && w[n..] == tail && w[n] == '[';
    EscapedGoesOn(w, IdentScan(0, false, -1), s, true, tail);
    BracketStep(w, n, IsDotted(s, true));
  }

  lemma BraceStep(w: string, i: nat, dotted: bool)
    requires i < |w| && w[i] == '{' && ValueListLength(w[i..]) < 0
    ensures IdentBody(w, IdentScan(i, dotted, -1)) == IdentScan(i, dotted, -1)
  {
    hide ValueListLength;
  }

  /** Before a brace that starts no value list, the escaped form is one
      token. */
  lemma EscapedBeforeBrace(s: string, tail: string)
    requires IsByteString(s) && s != [] && !HasDotPair(s, true) && tail != [] && tail[0] == '{' && ValueListLength(tail) < 0
    ensures IsIdentPrefix(Escape(s) + tail) && IdentLength(Escape(s) + tail) == |Escape(s)|
  {
    hide IdentBody, HasDotPair, IsDotted, ValueListLength;
    var w, n := Escape(s) + tail, |Escape(s)|;
    assert w[0..] == w && w[n..] == tail && w[n] == '{';
    EscapedGoesOn(w, IdentScan(0, false, -1), s, true, tail);
    BraceStep(w, n, IsDotted(s, true));
  }

  lemma ListOverChar(w: string, i: nat, c: char, first: bool)
    requires 1 <= i && i + |EscapeChar(c, first)| <= |w|
    requires forall k | 0 <= k < |EscapeChar(c, first)| :: w[i + k] == EscapeChar(c, first)[k]
    ensures ListBody(w, i) == ListBody(w, i + |EscapeChar(c, first)|)
  {
    var u := EscapeChar(c, first);
    assert w[i] == u[0];
    if |u| == 4 {
      assert w[i + 2] == u[2] && w[i + 3] == u[3];
      assert ListBody(w, i) == ListBody(w, i + 2);
      assert ListBody(w, i + 2) == ListBody(w, i + 3);
    }
  }

  /** The loop over a brace list runs over an escaped form. */
  lemma {:induction false} ListOverEscaped(w: string, i: nat, s: string, first: bool, tail: string)
    requires 1 <= i <= |w| && w[i..] == EscapeFrom(s, first) + tail
    ensures i + |EscapeFrom(s, first)| <= |w| && ListBody(w, i) == ListBody(w, i + |EscapeFrom(s, first)|)
    decreases s
  {
    hide ListBody, EscapeFrom, EscapeChar;
    if s == [] {
      EscapeOfNothing(first, tail);
    } else {
      SplitEscaped(w, i, s, first, tail);
      EscapeFromStep(s, first);
      ListOverChar(w, i, s[0], first);
      ListOverEscaped(w, i + |EscapeChar(s[0], first)|, s[1..], false, tail);
    }
  }

  /** A brace before a label and its operator starts no value list. */
  lemma FilterIsNoList(s: string, tail: string)
    requires tail != [] && (tail[0] == '=' || tail[0] == '!')
    ensures ValueListLength("{" + (Escape(s) + tail)) == -1
  {
    hide ListBody, EscapeFrom;
    var w, n := "{" + (Escape(s) + tail), 1 + |Escape(s)|;
    assert w[1..] == EscapeFrom(s, true) + tail;
    ListOverEscaped(w, 1, s, true, tail);
    assert w[n] == tail[0];
    ListStops(w, n);
  }

  lemma ListStops(w: string, i: nat)
    requires i < |w| && (w[i] == '=' || w[i] == '!')
    ensures ListBody(w, i) == At(i)
  {
  }

  // ----- as it is written -----

  /** Hexadecimal digits are written small and read in either case. */
  lemma HexDigitsAreExact(n: nat)
    requires n < 16
    ensures HexChar(n) == "0123456789abcdef"[n]
    ensures FromHex("0123456789abcdef"[n]) == n == FromHex("0123456789ABCDEF"[n])
  {
  }

  /** A dash is escaped by a backslash, a leading digit and a line end by
      their codes. */
  lemma EscapeExamples()
    ensures Escape("a-b") == "a\\-b" && Escape("1") == "\\x31" && Escape("a\n") == "a\\x0a"
  {
    assert "a-b"[1..] == "-b" && "-b"[1..] == "b" && "a\n"[1..] == "\n";
    assert EscapeFrom("b", false) == "b" && EscapeFrom("-b", false) == "\\-b" && EscapeFrom("\n", false) == "\\x0a";
  }
}
