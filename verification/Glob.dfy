/** The translator from Graphite globs to regular expressions: a loop over the
    characters with a stack of open brackets, and the trees it recognises. */
module Glob {
  import opened Text

  /** ValidIdentifierRunes */
  predicate IsValid(c: char) {
    IsLetterOrDigit(c) || c in {'$', '-', '_', '\'', '|', '<', '>', '%', '#', '/', ':'}
  }

  predicate IsQuotedLiteral(c: char) { c == '<' || c == '>' || c == '\'' || c == '$' }

  // ----- the loop, one character at a time -----

  /** `stack` holds the open brackets above a bottom mark. */
  datatype State = State(out: string, stack: seq<char>, escaping: bool, regexed: bool)

  const BOTTOM: char := '\0'

  predicate Open(st: State, bracket: char) { st.stack != [] && st.stack[|st.stack| - 1] == bracket }

  function Write(st: State, text: string, regexed: bool): State {
    st.(out := st.out + text, regexed := st.regexed || regexed)
  }

  function Push(st: State, c: char): State { st.(stack := st.stack + [c]) }

  function Pop(st: State): State
    requires st.stack != []
  {
    st.(stack := st.stack[..|st.stack| - 1])
  }

  /** One turn of the loop; None is an error. */
  function Step(st: State, c: char): Option<State> {
    if st.escaping then Some(Write(st, [c], false).(escaping := false))
    else if c == '\\' then Some(Write(st, "\\", false).(escaping := true))
    else if c == '.' then Some(Write(st, "\\.+", true))
    else if c == '?' then Some(Write(st, "[^.]", true))
    else if c == '*' then Some(Write(st, "[^.]*", true))
    else if c == '{' then Some(Push(Write(st, "(", true), '{'))
    else if c == '}' then if Open(st, '{') then Some(Pop(Write(st, ")", false))) else None
    else if c == '[' then Some(Push(Write(st, "[", true), '['))
    else if c == ']' then if Open(st, '[') then Some(Pop(Write(st, "]", false))) else None
    else if IsQuotedLiteral(c) then Some(Write(st, "\\" + [c], false))
    else if c == '|' then Some(Write(st, "|", true))
    else if c == ',' then if Open(st, '{') then Some(Write(st, "|", false)) else None
    else if IsValid(c) then Some(Write(st, [c], false))
    else None
  }

  function Run(st: State, glob: string): Option<State>
    decreases |glob|
  {
    if glob == [] then Some(st)
    else
      match Step(st, glob[0])
      case None => None
      case Some(next) => Run(next, glob[1..])
  }

  const START := State("", [BOTTOM], false, false)

  /** globToRegexPattern: the pattern, and whether it is more than a
      literal. */
  function Translate(glob: string): Option<(string, bool)> {
    match Run(START, glob)
    case None => None
    case Some(st) => if |st.stack| > 1 then None else Some((st.out, st.regexed))
  }

  class Pattern {
    var buff: string
    var eval: char
    var lastWriteLen: nat

    constructor ()
      ensures buff == ""
    {
      buff, eval, lastWriteLen := "", '\0', 0;
    }

    method Evaluate(r: char)
      modifies this
      ensures eval == r && buff == old(buff) && lastWriteLen == old(lastWriteLen)
    {
      eval := r;
    }

    method WriteRune(r: char)
      modifies this
      ensures buff == old(buff) + [r] && lastWriteLen == 1 && eval == old(eval)
    {
      buff := buff + [r];
      lastWriteLen := 1;
    }

    method WriteString(str: string)
      modifies this
      ensures buff == old(buff) + str && lastWriteLen == |str| && eval == old(eval)
    {
      buff := buff + str;
      lastWriteLen := |str|;
    }
  }

  method GlobToRegexPattern(glob: string) returns (r: Option<(string, bool)>)
    ensures r == Translate(glob)
  {
    hide IsValid;
    var pattern := new Pattern();
    var escaping, regexed := false, false;
    var groupStartStack := [BOTTOM];
    var i := 0;
    while i < |glob|
      invariant i <= |glob| && fresh(pattern) && groupStartStack != [] && groupStartStack[0] == BOTTOM
      invariant Run(State(pattern.buff, groupStartStack, escaping, regexed), glob[i..]) == Run(START, glob)
    {
      var c := glob[i];
      ghost var st := State(pattern.buff, groupStartStack, escaping, regexed);
      assert glob[i..][0] == c && glob[i..][1..] == glob[i + 1..];
      i := i + 1;
      pattern.Evaluate(c);
      if escaping {
        pattern.WriteRune(c);
        escaping := false;
        continue;
      }
      match c {
        case '\\' =>
          escaping := true;
          pattern.WriteRune('\\');
        case '.' =>
          pattern.WriteString("\\.+");
          regexed := true;
        case '?' =>
          pattern.WriteString("[^.]");
          regexed := true;
        case '*' =>
          pattern.WriteString("[^.]*");
          regexed := true;
        case '{' =>
          pattern.WriteString("(");
          groupStartStack := groupStartStack + [c];
          regexed := true;
        case '}' =>
          if groupStartStack[|groupStartStack| - 1] != '{' {
            return None;
          }
          pattern.WriteRune(')');
          groupStartStack := groupStartStack[..|groupStartStack| - 1];
        case '[' =>
          pattern.WriteRune('[');
          groupStartStack := groupStartStack + [c];
          regexed := true;
        case ']' =>
          if groupStartStack[|groupStartStack| - 1] != '[' {
            return None;
          }
          pattern.WriteRune(']');
          groupStartStack := groupStartStack[..|groupStartStack| - 1];
        case '<' | '>' | '\'' | '$' =>
          pattern.WriteRune('\\');
          pattern.WriteRune(c);
          assert st.out + "\\" + [c] == st.out + ("\\" + [c]);
        case '|' =>
          pattern.WriteRune(c);
          regexed := true;
        case ',' =>
          if groupStartStack[|groupStartStack| - 1] != '{' {
            return None;
          }
          pattern.WriteRune('|');
        case _ =>
          if !IsValid(c) {
            return None;
          }
          pattern.WriteRune(c);
      }
    }
    if |groupStartStack| > 1 {
      return None;
    }
    return Some((pattern.buff, regexed));
  }

  // ----- the globs that are translated -----

  datatype Piece =
    | Char(c: char)
    | Escaped(c: char)
    | Braces(alternatives: seq<Alternative>)
    | Brackets(body: seq<Piece>)

  datatype Alternative = Alternative(pieces: seq<Piece>)

  /** Characters that stand by themselves. */
  predicate IsSingle(c: char) { c == '.' || c == '?' || c == '*' || IsValid(c) }

  predicate WellFormedPiece(p: Piece) {
    match p
    case Char(c) => IsSingle(c)
    case Escaped(_) => true
    case Braces(alternatives) => alternatives != [] && forall a <- alternatives :: WellFormed(a.pieces)
    case Brackets(body) => WellFormed(body)
  }

  predicate WellFormed(g: seq<Piece>) { forall p <- g :: WellFormedPiece(p) }

  /** The text of a glob. */
  function FlatPiece(p: Piece): string
    decreases p, 0
  {
    match p
    case Char(c) => [c]
    case Escaped(c) => ['\\', c]
    case Braces(alternatives) => "{" + FlatAlternatives(alternatives) + "}"
    case Brackets(body) => "[" + Flat(body) + "]"
  }

  function Flat(g: seq<Piece>): string
    decreases g, 1
  {
    if g == [] then "" else FlatPiece(g[0]) + Flat(g[1..])
  }

  function FlatAlternatives(alternatives: seq<Alternative>): string
    decreases alternatives, 2
  {
    if alternatives == [] then ""
    else if |alternatives| == 1 then Flat(alternatives[0].pieces)
    else Flat(alternatives[0].pieces) + "," + FlatAlternatives(alternatives[1..])
  }

  /** The pattern of a glob. */
  function EmitPiece(p: Piece): string
    decreases p, 0
  {
    match p
    case Char(c) =>
      if c == '.' then "\\.+"
      else if c == '?' then "[^.]"
      else if c == '*' then "[^.]*"
      else if IsQuotedLiteral(c) then "\\" + [c]
      else [c]
    case Escaped(c) => ['\\', c]
    case Braces(alternatives) => "(" + EmitAlternatives(alternatives) + ")"
    case Brackets(body) => "[" + Emit(body) + "]"
  }

  function Emit(g: seq<Piece>): string
    decreases g, 1
  {
    if g == [] then "" else EmitPiece(g[0]) + Emit(g[1..])
  }

  function EmitAlternatives(alternatives: seq<Alternative>): string
    decreases alternatives, 2
  {
    if alternatives == [] then ""
    else if |alternatives| == 1 then Emit(alternatives[0].pieces)
    else Emit(alternatives[0].pieces) + "|" + EmitAlternatives(alternatives[1..])
  }

  predicate IsPlain(p: Piece) {
    match p
    case Char(c) => c != '.' && c != '?' && c != '*' && c != '|'
    case Escaped(_) => true
    case _ => false
  }

  /** Nothing in the glob makes it more than a literal. */
  predicate AllPlain(g: seq<Piece>) { forall p <- g :: IsPlain(p) }

  lemma WriteTwice(st: State, a: string, b: string, x: bool, y: bool)
    ensures Write(Write(st, a, x), b, y) == Write(st, a + b, x || y)
  {
    assert st.out + a + b == st.out + (a + b);
  }

  lemma RunStep(st: State, c: char, rest: string)
    ensures Run(st, [c] + rest) == match Step(st, c) case None => None case Some(next) => Run(next, rest)
  {
    assert ([c] + rest)[1..] == rest;
  }

  lemma RunOfChar(c: char, st: State, rest: string)
    requires !st.escaping && IsSingle(c)
    ensures Run(st, FlatPiece(Char(c)) + rest) == Run(Write(st, EmitPiece(Char(c)), !IsPlain(Char(c))), rest)
  {
    hide Run;
    RunStep(st, c, rest);
    assert c != '\\' && c != '{' && c != '}' && c != '[' && c != ']' && c != ',';
  }

  lemma RunOfEscape(c: char, st: State, rest: string)
    requires !st.escaping
    ensures Run(st, FlatPiece(Escaped(c)) + rest) == Run(Write(st, EmitPiece(Escaped(c)), false), rest)
  {
    hide Run;
    RunStep(st, '\\', [c] + rest);
    assert ['\\', c] + rest == ['\\'] + ([c] + rest);
    var mid := Write(st, "\\", false).(escaping := true);
    RunStep(mid, c, rest);
    assert st.out + "\\" + [c] == st.out + ['\\', c];
  }

  /** The loop turns the text of a piece into its pattern. */
  lemma {:induction false} RunOfPiece(p: Piece, st: State, rest: string)
    requires WellFormedPiece(p) && !st.escaping
    ensures Run(st, FlatPiece(p) + rest) == Run(Write(st, EmitPiece(p), !IsPlain(p)), rest)
    decreases p, 0
  {
    hide Run;
    match p
    case Char(c) => RunOfChar(c, st, rest);
    case Escaped(c) => RunOfEscape(c, st, rest);
    case Braces(alternatives) => RunOfBraces(alternatives, st, rest);
    case Brackets(body) => RunOfBrackets(body, st, rest);
  }

  lemma {:induction false} RunOfBrackets(body: seq<Piece>, st: State, rest: string)
    requires WellFormed(body) && !st.escaping
    ensures Run(st, FlatPiece(Brackets(body)) + rest) == Run(Write(st, EmitPiece(Brackets(body)), true), rest)
    decreases body, 2
  {
    hide Run, Emit, WellFormed;
    var inner := Push(Write(st, "[", true), '[');
    assert FlatPiece(Brackets(body)) + rest == ['['] + (Flat(body) + ([']'] + rest));
    RunStep(st, '[', Flat(body) + ([']'] + rest));
    RunOfGlob(body, inner, [']'] + rest);
    var after := Write(inner, Emit(body), !AllPlain(body));
    RunStep(after, ']', rest);
    assert after.stack[..|after.stack| - 1] == st.stack;
    assert st.out + "[" + Emit(body) + "]" == st.out + ("[" + Emit(body) + "]");
  }

  lemma {:induction false} RunOfBraces(alternatives: seq<Alternative>, st: State, rest: string)
    requires WellFormedPiece(Braces(alternatives)) && !st.escaping
    ensures Run(st, FlatPiece(Braces(alternatives)) + rest) == Run(Write(st, EmitPiece(Braces(alternatives)), true), rest)
    decreases alternatives, 3
  {
    hide Run, EmitAlternatives, FlatAlternatives;
    var inner := Push(Write(st, "(", true), '{');
    assert FlatPiece(Braces(alternatives)) + rest == ['{'] + (FlatAlternatives(alternatives) + (['}'] + rest));
    RunStep(st, '{', FlatAlternatives(alternatives) + (['}'] + rest));
    RunOfAlternatives(alternatives, inner, ['}'] + rest);
    var after := Write(inner, EmitAlternatives(alternatives), false);
    RunStep(after, '}', rest);
    assert after.stack[..|after.stack| - 1] == st.stack;
    assert st.out + "(" + EmitAlternatives(alternatives) + ")" == st.out + ("(" + EmitAlternatives(alternatives) + ")");
  }

  lemma {:induction false} RunOfAlternatives(alternatives: seq<Alternative>, st: State, rest: string)
    requires alternatives != [] && (forall a <- alternatives :: WellFormed(a.pieces))
    requires !st.escaping && st.regexed && Open(st, '{')
    ensures Run(st, FlatAlternatives(alternatives) + rest) == Run(Write(st, EmitAlternatives(alternatives), false), rest)
    decreases alternatives, 2
  {
    hide Run, Emit, Flat, WellFormed, AllPlain;
    var first := alternatives[0].pieces;
    if |alternatives| == 1 {
      RunOfGlob(first, st, rest);
    } else {
      var more := alternatives[1..];
      assert FlatAlternatives(alternatives) + rest == Flat(first) + ([','] + (FlatAlternatives(more) + rest));
      RunOfGlob(first, st, [','] + (FlatAlternatives(more) + rest));
      var after := Write(st, Emit(first), false);
      RunStep(after, ',', FlatAlternatives(more) + rest);
      var next := Write(after, "|", false);
      RunOfAlternatives(more, next, rest);
      WriteTwice(st, Emit(first), "|", false, false);
      WriteTwice(st, Emit(first) + "|", EmitAlternatives(more), false, false);
    }
  }

  /** The loop turns the text of a glob into its pattern. */
  lemma {:induction false} RunOfGlob(g: seq<Piece>, st: State, rest: string)
    requires WellFormed(g) && !st.escaping
    ensures Run(st, Flat(g) + rest) == Run(Write(st, Emit(g), !AllPlain(g)), rest)
    decreases g, 1
  {
    hide Run, WellFormedPiece, EmitPiece, FlatPiece, IsPlain;
    if g == [] {
      assert Flat(g) + rest == rest;
      assert Write(st, "", false) == st;
    } else {
      assert Flat(g) + rest == FlatPiece(g[0]) + (Flat(g[1..]) + rest);
      RunOfPiece(g[0], st, Flat(g[1..]) + rest);
      RunOfGlob(g[1..], Write(st, EmitPiece(g[0]), !IsPlain(g[0])), rest);
      WriteTwice(st, EmitPiece(g[0]), Emit(g[1..]), !IsPlain(g[0]), !AllPlain(g[1..]));
      assert AllPlain(g) == (IsPlain(g[0]) && AllPlain(g[1..])) by { assert g == [g[0]] + g[1..]; }
    }
  }

  // ----- exactly these globs are translated -----

  /** A glob may end with a lone backslash. */
  predicate IsTail(tail: string) { tail == "" || tail == "\\" }

  predicate Stops(rest: string) {
    IsTail(rest) || rest[0] == '}' || rest[0] == ']' || rest[0] == ','
  }

  predicate Accepts(st: State, glob: string) {
    st.stack != [] && st.stack[0] == BOTTOM && !st.escaping && Run(st, glob).Some? && |Run(st, glob).value.stack| <= 1
  }

  /** What is accepted with an open bracket goes on with a character that the
      bracket permits. */
  lemma StopIsClosing(st: State, rest: string)
    requires Accepts(st, rest) && Stops(rest)
    ensures |st.stack| == 1 ==> IsTail(rest)
    ensures |st.stack| > 1 ==> rest != [] && rest[0] != '\\'
    ensures rest != [] && rest[0] != '\\' ==> Step(st, rest[0]).Some?
  {
    if rest == "\\" {
      RunStep(st, '\\', "");
      assert "\\" == ['\\'] + "";
    }
  }

  lemma AcceptsAfter(p: Piece, st: State, glob: string, rest: string)
    requires Accepts(st, glob) && WellFormedPiece(p) && glob == FlatPiece(p) + rest
    ensures Accepts(Write(st, EmitPiece(p), !IsPlain(p)), rest)
  {
    hide Run;
    RunOfPiece(p, st, rest);
  }

  lemma AcceptsAfterAll(g: seq<Piece>, st: State, glob: string, rest: string)
    requires Accepts(st, glob) && WellFormed(g) && glob == Flat(g) + rest
    ensures Accepts(Write(st, Emit(g), !AllPlain(g)), rest)
  {
    hide Run;
    RunOfGlob(g, st, rest);
  }

  lemma AcceptsStep(st: State, glob: string)
    requires Accepts(st, glob) && glob != []
    ensures Step(st, glob[0]).Some?
    ensures var next := Step(st, glob[0]).value;
            !next.escaping && next.stack != [] && next.stack[0] == BOTTOM ==> Accepts(next, glob[1..])
  {
    assert glob == [glob[0]] + glob[1..];
    RunStep(st, glob[0], glob[1..]);
  }

  /** Accepted text is a glob up to a closing character or the end. */
  lemma {:induction false} Decompose(st: State, glob: string) returns (g: seq<Piece>, rest: string)
    requires Accepts(st, glob)
    ensures WellFormed(g) && glob == Flat(g) + rest && Stops(rest)
    decreases |glob|, 0
  {
    hide Run, Accepts, EmitPiece, FlatPiece;
    if Stops(glob) {
      g, rest := [], glob;
    } else {
      var p, more := FirstPiece(st, glob);
      AcceptsAfter(p, st, glob, more);
      FlatPieceIsSome(p);
      var ps;
      ps, rest := Decompose(Write(st, EmitPiece(p), !IsPlain(p)), more);
      g := [p] + ps;
      assert g[1..] == ps;
      assert FlatPiece(p) + Flat(ps) + rest == FlatPiece(p) + (Flat(ps) + rest);
    }
  }

  lemma FlatPieceIsSome(p: Piece)
    ensures FlatPiece(p) != []
  {
  }

  lemma {:induction false} FirstPiece(st: State, glob: string) returns (p: Piece, more: string)
    requires Accepts(st, glob) && !Stops(glob)
    ensures WellFormedPiece(p) && glob == FlatPiece(p) + more
    decreases |glob|, -1
  {
    hide Run, Flat, FlatAlternatives, WellFormed;
    var c := glob[0];
    AcceptsStep(st, glob);
    if c == '\\' {
      p, more := Escaped(glob[1]), glob[2..];
    } else if c == '[' {
      var body, r := Decompose(Push(Write(st, "[", true), '['), glob[1..]);
      AcceptsAfterAll(body, Push(Write(st, "[", true), '['), glob[1..], r);
      StopIsClosing(Write(Push(Write(st, "[", true), '['), Emit(body), !AllPlain(body)), r);
      p, more := Brackets(body), r[1..];
    } else if c == '{' {
      var alternatives, r := DecomposeAlternatives(Push(Write(st, "(", true), '{'), glob[1..]);
      p, more := Braces(alternatives), r[1..];
    } else {
      p, more := Char(c), glob[1..];
    }
  }

  lemma {:induction false} DecomposeAlternatives(st: State, glob: string) returns (alternatives: seq<Alternative>, rest: string)
    requires Accepts(st, glob) && Open(st, '{')
    ensures WellFormedPiece(Braces(alternatives)) && glob == FlatAlternatives(alternatives) + rest
    ensures rest != [] && rest[0] == '}'
    decreases |glob|, 1
  {
    hide Run, Flat, WellFormed, Accepts;
    var g, r := Decompose(st, glob);
    AcceptsAfterAll(g, st, glob, r);
    var after := Write(st, Emit(g), !AllPlain(g));
    BottomIsNoBrace(st, glob);
    StopIsClosing(after, r);
    if r[0] == ',' {
      AcceptsStep(after, r);
      var more;
      assert Accepts(Write(after, "|", false), r[1..]) by { CommaAccepts(after, r); }
      more, rest := DecomposeAlternatives(Write(after, "|", false), r[1..]);
      alternatives := [Alternative(g)] + more;
      assert alternatives[1..] == more;
      assert alternatives[0].pieces == g;
      assert r == [','] + r[1..];
      assert FlatAlternatives(alternatives) == Flat(g) + "," + FlatAlternatives(more);
    } else {
      alternatives, rest := [Alternative(g)], r;
      assert alternatives[0].pieces == g;
      assert FlatAlternatives(alternatives) == Flat(g);
    }
  }

  lemma BottomIsNoBrace(st: State, glob: string)
    requires Accepts(st, glob) && Open(st, '{')
    ensures |st.stack| > 1 && !st.escaping
  {
  }

  lemma CommaAccepts(st: State, glob: string)
    requires Accepts(st, glob) && glob != [] && glob[0] == ','
    ensures Accepts(Write(st, "|", false), glob[1..])
  {
    AcceptsStep(st, glob);
  }

  predicate IsGlob(glob: string, g: seq<Piece>, tail: string) {
    WellFormed(g) && IsTail(tail) && glob == Flat(g) + tail
  }

  /** A glob has its pattern, which is more than a literal unless all its
      pieces are plain. */
  lemma GlobHasPattern(glob: string, g: seq<Piece>, tail: string)
    requires IsGlob(glob, g, tail)
    ensures Translate(glob) == Some((Emit(g) + tail, !AllPlain(g)))
  {
    hide WellFormed, Emit, Flat, AllPlain;
    RunOfGlob(g, START, tail);
    var after := Write(START, Emit(g), !AllPlain(g));
    assert after.out == Emit(g);
    assert Emit(g) + "" == Emit(g);
    if tail == "\\" {
      RunStep(after, '\\', "");
      assert tail == ['\\'] + "";
    }
  }

  /** Translation succeeds exactly on globs: valid characters, brackets well
      nested, commas directly inside braces. */
  lemma TranslatesExactlyGlobs(glob: string)
    ensures Translate(glob).Some? <==> exists g, tail :: IsGlob(glob, g, tail)
  {
    hide WellFormed, Flat, Run;
    if Translate(glob).Some? {
      var g, rest := Decompose(START, glob);
      AcceptsAfterAll(g, START, glob, rest);
      StopIsClosing(Write(START, Emit(g), !AllPlain(g)), rest);
      assert IsGlob(glob, g, rest);
    }
    if g, tail :| IsGlob(glob, g, tail) { GlobHasPattern(glob, g, tail); }
  }
}
