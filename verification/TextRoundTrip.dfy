/** Parsing the text of a tree: the round trip on characters, and where a
    bracket after a dotted name breaks it. */
module TextRoundTrip {
  import opened Text
  import opened Syntax
  import opened Library
  import opened Scan
  import opened Ident
  import opened Grammar
  import opened Lexing
  import opened Expansion
  import opened Normalize
  import opened Printer
  import opened RoundTrip
  import opened Reading
  import opened Pipeline
  import opened Tokenizing
  import opened Written

  /** Trees that are parsed as intended and kept by expansion and folding. */
  ghost predicate IsKept(lib: Lib, fl: Floats, was: seq<Entry>, e: Expr) {
    LibraryOk(lib) && ScopeWellFormed(was) && Readable(lib, e) && Stable(lib, fl, was, e) && Lexable(lib, e)
  }

  /** Parsing the text that AppendString writes returns the tree. */
  lemma ParseInvertsText(lib: Lib, fl: Floats, was: seq<Entry>, e: Expr)
    requires ScopeWellFormed(was) && IsKept(lib, fl, was, e)
    ensures Parse(lib, fl, AsWritten, was, Lex(ExprText(lib, e))) == Ok(e)
  {
    hide Readable, Stable, Lexable, ExprText, Print, Lex, Parse;
    TextIsLexed(lib, e);
    ParseInvertsPrint(lib, fl, was, e);
  }

  /** Two trees that can be read back and are written the same are equal. */
  lemma TextIsInjective(lib: Lib, fl: Floats, was: seq<Entry>, a: Expr, b: Expr)
    requires ScopeWellFormed(was) && IsKept(lib, fl, was, a) && IsKept(lib, fl, was, b) && ExprText(lib, a) == ExprText(lib, b)
    ensures a == b
  {
    hide IsKept, ExprText, Lex, Parse;
    ParseInvertsText(lib, fl, was, a);
    ParseInvertsText(lib, fl, was, b);
  }

  // ----- brackets after dotted names -----

  lemma {:induction false} RangeOverChars(s: string, i: nat, j: nat, count: nat, isRange: bool)
    requires i <= j <= |s| && forall k | i <= k < j :: IsIdentChar(s[k])
    ensures RangeBody(s, i, count, isRange) == RangeBody(s, j, count + (j - i), isRange)
    decreases j - i
  {
    hide IsIdentChar;
    if i < j { RangeOverChars(s, i + 1, j, count + 1, isRange); }
  }

  /** A bracket with a step and no window is a bracket expression. */
  lemma StepIsBracket(step: string, inheritStep: bool, rest: string)
    requires (step != "" && IsDuration(step)) || (step == "" && inheritStep)
    ensures CharRangeLength("[" + (StepPart(step, inheritStep) + ("]" + rest))) > 0
  {
    hide IsDuration, HasDotPair;
    var part := StepPart(step, inheritStep);
    var s, n := "[" + (part + ("]" + rest)), 1 + |part|;
    if step != "" { DurationIsPlainText(step); }
    forall k | 0 <= k < |part| ensures IsIdentChar(part[k]) { if k > 0 { assert part[k] == step[k - 1]; } }
    forall k | 1 <= k < n ensures IsIdentChar(s[k]) { assert s[k] == part[k - 1]; }
    RangeOverChars(s, 1, n, 0, false);
    assert s[n] == ']';
    assert RangeBody(s, n, n - 1, false) == (At(n), n - 1, false);
    assert s[1..][0] == ':';
    assert DurationLength(s[1..], true) == -1;
  }

  /** The text of a rollup of a bare name is lexed as its tokens unless the
      name has a dot and the bracket has no window. */
  lemma BracketIsExact(lib: Lib, filters: seq<LabelFilter>, window: string, offset: string, step: string, inheritStep: bool)
    requires IsOnlyMetricGroup(filters) && IsWritable(filters[0].value) && IsMetricName(filters[0].value)
    requires filters[0].key == "__name__" && IsRollup(window, offset, step, inheritStep)
    ensures var e := Rollup(Metric(filters, []), window, offset, step, inheritStep);
            Lex(ExprText(lib, e)) == Good(Print(lib, e)) <==>
            !(IsDotted(filters[0].value, true) && window == "" && (step != "" || inheritStep))
  {
    hide Lex, ExprText, Print, IsWritable, IsMetricName, IsRollup, IsDotted;
    var inner := Metric(filters, []);
    var e := Rollup(inner, window, offset, step, inheritStep);
    var s := filters[0].value;
    BareNameIsFine(lib, filters);
    if IsDotted(s, true) && window == "" && (step != "" || inheritStep) {
      StepFits(window, offset, step, inheritStep);
      TextOfBareRollup(lib, e);
      var rest := "[" + (StepPart(step, inheritStep) + ("]" + OffsetText(offset)));
      StepIsBracket(step, inheritStep, OffsetText(offset));
      NameGoesOn(s, rest);
      FirstPrinted(lib, e);
    } else {
      assert Readable(lib, e) && Lexable(lib, e);
      TextIsLexed(lib, e);
    }
  }

  lemma BareNameIsFine(lib: Lib, filters: seq<LabelFilter>)
    requires IsOnlyMetricGroup(filters) && IsWritable(filters[0].value) && IsMetricName(filters[0].value)
    ensures Readable(lib, Metric(filters, [])) && Lexable(lib, Metric(filters, []))
  {
    hide IsWritable, IsMetricName;
  }

  lemma StepFits(window: string, offset: string, step: string, inheritStep: bool)
    requires IsRollup(window, offset, step, inheritStep)
    ensures step == "" || IsDuration(step)
  {
    hide IsDuration;
  }

  lemma TextOfBareRollup(lib: Lib, e: Expr)
    requires e.Rollup? && e.expr.Metric? && IsOnlyMetricGroup(e.expr.filters) && e.window == "" && (e.step != "" || e.inheritStep)
    ensures ExprText(lib, e) ==
            Escape(e.expr.filters[0].value) + ("[" + (StepPart(e.step, e.inheritStep) + ("]" + OffsetText(e.offset))))
  {
    hide Escape, StepPart, OffsetText;
    assert ExprText(lib, e.expr) == Escape(e.expr.filters[0].value) + "" == Escape(e.expr.filters[0].value);
    assert WindowText(e.window, e.step, e.inheritStep) == "[" + ("" + (StepPart(e.step, e.inheritStep) + "]"));
  }

  /** The name and the bracket are taken together. */
  lemma NameGoesOn(s: string, rest: string)
    requires IsWritable(s) && IsDotted(s, true) && rest != "" && rest[0] == '[' && CharRangeLength(rest) > 0
    ensures Lex(Escape(s) + rest).toks == [] || Lex(Escape(s) + rest).toks[0] != Escape(s)
  {
    hide IdentLength, Escape, HasDotPair, IsDotted, CharRangeLength, Lex, IsIdentPrefix;
    var w := Escape(s) + rest;
    EscapedBeforeBracket(s, rest);
    WritableIsName(s);
    IdentStart(Escape(s), rest);
    assert w[0] == Escape(s)[0] by { EscapedStart(s); }
    FirstIsIdent(w);
  }

  lemma FirstIsIdent(w: string)
    requires IsIdentPrefix(w) && !IsPunctuation(w[0]) && !IsSpaceChar(w[0]) && w[0] != '#'
    ensures Lex(w).toks != [] && |Lex(w).toks[0]| == IdentLength(w)
  {
    hide IdentLength, IsIdentPrefix, IsSpaceChar;
    var t, tail := w[..IdentLength(w)], w[IdentLength(w)..];
    assert t + tail == w && t[0] == w[0];
    assert Cuts(t, tail);
    CutComesFirst(t, tail);
  }

  lemma FirstPrinted(lib: Lib, e: Expr)
    requires e.Rollup? && e.expr.Metric? && IsOnlyMetricGroup(e.expr.filters)
    ensures Print(lib, e) != [] && Print(lib, e)[0] == Escape(e.expr.filters[0].value)
  {
    hide Escape, PrintWindow, PrintOffset;
  }
}
