/** The text that the AppendString methods write, and what the lexer makes of
    it: the printed tokens, unless a bracket is taken for a part of a dotted
    name. */
module Written {
  import opened Text
  import opened Syntax
  import opened Library
  import opened Scan
  import opened Ident
  import opened Filters
  import opened Grammar
  import opened Lexicon
  import opened Lexing
  import opened Printer
  import opened RoundTrip
  import opened Tokenizing

  // ----- text -----

  function ExprText(lib: Lib, e: Expr): string
    decreases e, 2
  {
    match e
    case Number(n) => lib.formatFloat(n)
    case Str(se) => lib.quote(se.s)
    case Metric(filters, _) => MetricText(lib, filters)
    case Func(name, args) => name + ListText(lib, args)
    case Aggr(name, args, modifier, limit) => name + (ListText(lib, args) + (SpacedModifier(modifier) + LimitText(limit)))
    case Binary(info, left, right) => OperandText(lib, left) + (OpInfoText(info) + (" " + OperandText(lib, right)))
    case Rollup(inner, window, offset, step, inheritStep) =>
      (if NeedsParens(inner) then "(" + (ExprText(lib, inner) + ")") else ExprText(lib, inner))
      + (WindowText(window, step, inheritStep) + OffsetText(offset))
    case Parens(args) => ListText(lib, args)
    case With(_, _) => ""
  }

  function OperandText(lib: Lib, e: Expr): string
    decreases e, 3
  {
    if e.Binary? then "(" + (ExprText(lib, e) + ")") else ExprText(lib, e)
  }

  function ListText(lib: Lib, es: seq<Expr>): string
    decreases es, 1
  {
    "(" + (ItemsText(lib, es) + ")")
  }

  function ItemsText(lib: Lib, es: seq<Expr>): string
    decreases es, 0
  {
    if es == [] then "" else ExprText(lib, es[0]) + (if |es| == 1 then "" else "," + (" " + ItemsText(lib, es[1..])))
  }

  function OpInfoText(info: OpInfo): string {
    " " + (OpText(info.op) + ((if info.isBool then " " + "bool" else "") + (SpacedModifier(info.group) + SpacedModifier(info.join))))
  }

  function SpacedModifier(m: Modifier): string {
    if m.op == "" then "" else " " + (m.op + (" " + ("(" + (NamesText(m.args) + ")"))))
  }

  function NamesText(names: seq<string>): string {
    if names == [] then "" else names[0] + (if |names| == 1 then "" else "," + (" " + NamesText(names[1..])))
  }

  function LimitText(limit: int): string { if limit > 0 then " " + ("limit" + (" " + Itoa(limit))) else "" }

  function WindowText(window: string, step: string, inheritStep: bool): string {
    if window == "" && step == "" && !inheritStep then "" else "[" + (window + (StepPart(step, inheritStep) + "]"))
  }

  function StepPart(step: string, inheritStep: bool): string {
    if step != "" then ":" + step else if inheritStep then ":" else ""
  }

  function OffsetText(offset: string): string { if offset == "" then "" else " " + ("offset" + (" " + offset)) }

  function MetricText(lib: Lib, filters: seq<LabelFilter>): string {
    if HasMetricGroup(filters) then Escape(filters[0].value) + (if |filters| == 1 then "" else BracesText(lib, filters[1..]))
    else BracesText(lib, filters)
  }

  function BracesText(lib: Lib, fs: seq<LabelFilter>): string { "{" + (FiltersText(lib, fs) + "}") }

  function FiltersText(lib: Lib, fs: seq<LabelFilter>): string {
    if fs == [] then "" else FilterText(lib, fs[0]) + (if |fs| == 1 then "" else "," + (" " + FiltersText(lib, fs[1..])))
  }

  function FilterText(lib: Lib, f: LabelFilter): string { Escape(f.key) + (FilterOp(f) + lib.quote(f.value)) }

  // ----- trees whose text is lexed as meant -----

  predicate IsDottedName(e: Expr) { e.Metric? && IsOnlyMetricGroup(e.filters) && IsDotted(e.filters[0].value, true) }

  predicate IsWritable(s: string) { s != "" && IsByteString(s) && !HasDotPair(s, true) }

  predicate LexableNumber(lib: Lib, n: Num) {
    var t := lib.formatFloat(n);
    var u := if IsSigned(t) then t[1..] else t;
    IsNumeral(u) || IsPlainName(u)
  }

  predicate LexableFilter(lib: Lib, f: LabelFilter) { IsWritable(f.key) && IsLiteral(lib.quote(f.value)) }

  ghost predicate LexableModifier(m: Modifier) { m.op != "" ==> IsName(m.op) && forall x <- m.args :: IsName(x) }

  predicate LexableMetric(lib: Lib, filters: seq<LabelFilter>) {
    && (HasMetricGroup(filters) ==> IsWritable(filters[0].value))
    && forall i | (if HasMetricGroup(filters) then 1 else 0) <= i < |filters| :: LexableFilter(lib, filters[i])
  }

  /** Names that the lexer takes for one token, literals as quoting yields
      them, and no bracket without a window after a dotted name. */
  ghost predicate Lexable(lib: Lib, e: Expr)
    decreases e
  {
    match e
    case Number(n) => LexableNumber(lib, n)
    case Str(se) => IsLiteral(lib.quote(se.s))
    case Metric(filters, _) => LexableMetric(lib, filters)
    case Func(name, args) => (name == "" || IsName(name)) && LexableAll(lib, args)
    case Aggr(name, args, modifier, _) => IsName(name) && LexableModifier(modifier) && LexableAll(lib, args)
    case Binary(info, left, right) =>
      LexableModifier(info.group) && LexableModifier(info.join) && Lexable(lib, left) && Lexable(lib, right)
    case Rollup(inner, window, _, step, inheritStep) =>
      Lexable(lib, inner) && !(IsDottedName(inner) && window == "" && (step != "" || inheritStep))
    case Parens(_) => false
    case With(_, _) => false
  }

  ghost predicate LexableAll(lib: Lib, es: seq<Expr>)
    decreases es
  {
    forall i | 0 <= i < |es| :: Lexable(lib, es[i])
  }

  // ----- reading text -----

  /** Before `tail`, the text is lexed as these tokens. */
  predicate Reads(text: string, toks: seq<string>, tail: string) { Lex(text + tail) == Then(toks, Lex(tail)) }

  lemma NothingReads(tail: string)
    ensures Reads("", [], tail)
  {
    assert "" + tail == tail && [] + Lex(tail).toks == Lex(tail).toks;
  }

  lemma TokenReads(t: string, tail: string)
    requires Cuts(t, tail)
    ensures Reads(t, [t], tail)
  {
    hide Cuts, Lex;
    CutComesFirst(t, tail);
  }

  lemma JoinReads(a: string, x: seq<string>, b: string, y: seq<string>, tail: string)
    requires Reads(a, x, b + tail) && Reads(b, y, tail)
    ensures Reads(a + b, x + y, tail)
  {
    hide Lex;
    assert a + b + tail == a + (b + tail);
    ThenThen(x, y, Lex(tail));
  }

  lemma TokenThen(t: string, b: string, y: seq<string>, tail: string)
    requires Cuts(t, b + tail) && Reads(b, y, tail)
    ensures Reads(t + b, [t] + y, tail)
  {
    hide Reads, Cuts;
    TokenReads(t, b + tail);
    JoinReads(t, [t], b, y, tail);
  }

  lemma SpaceThen(b: string, y: seq<string>, tail: string)
    requires Reads(b, y, tail)
    ensures Reads(" " + b, y, tail)
  {
    hide Lex;
    assert " " + b + tail == [' '] + (b + tail);
    SpaceIsSkipped(' ', b + tail);
  }

  lemma MarkThen(m: string, b: string, y: seq<string>, tail: string)
    requires |m| == 1 && IsPunctuation(m[0]) && Reads(b, y, tail)
    ensures Reads(m + b, [m] + y, tail)
  {
    hide Reads, Cuts;
    assert m == [m[0]];
    MarkIsCut(m[0], b + tail);
    TokenThen(m, b, y, tail);
  }

  lemma MarkEnds(m: string, tail: string)
    requires |m| == 1 && IsPunctuation(m[0])
    ensures Reads(m, [m], tail)
  {
    hide Reads, Cuts;
    assert m == [m[0]];
    MarkIsCut(m[0], tail);
    TokenReads(m, tail);
  }

  // ----- names -----

  /** What may follow a text that ends with a word or a number. */
  predicate EndsText(tail: string) { tail == "" || tail[0] in {' ', ')', ',', '('} }

  lemma EndsAnything(tail: string)
    requires EndsText(tail)
    ensures EndsIdent(tail) && EndsNumber(tail) && EndsOp(tail)
  {
  }

  lemma WordReads(t: string, b: string, y: seq<string>, tail: string)
    requires IsName(t) && EndsIdent(b + tail) && Reads(b, y, tail)
    ensures Reads(t + b, [t] + y, tail)
  {
    hide Reads, Cuts, IsName, EndsIdent;
    NameIsCut(t, b + tail);
    TokenThen(t, b, y, tail);
  }

  lemma PlainBeforeBracket(t: string, tail: string)
    requires IsPlainName(t) && (EndsIdent(tail) || tail[0] == '[')
    ensures Cuts(t, tail)
  {
    hide Cuts, IsName, EndsIdent, IsPlainName, IdentLength;
    if EndsIdent(tail) {
      PlainIsName(t);
      NameIsCut(t, tail);
    } else {
      PlainFacts(t);
      assert tail != [] by { NothingEndsIdent(); }
      EscapedBeforeBracket(t, tail);
      IdentIsCut(t, tail);
    }
  }

  lemma PlainFacts(t: string)
    requires IsPlainName(t)
    ensures IsIdentPrefix(t) && Escape(t) == t && IsByteString(t) && t != [] && !HasDotPair(t, true) && !IsDotted(t, true)
  {
    PlainIsItsEscape(t, true);
  }

  lemma {:induction false} NamesRead(names: seq<string>, tail: string)
    requires (forall x <- names :: IsName(x)) && EndsText(tail)
    ensures Reads(NamesText(names), PrintIdents(names), tail)
  {
    hide Reads, IsName, EndsIdent;
    if names == [] {
      NothingReads(tail);
    } else {
      assert names[0] in names;
      if |names| == 1 {
        NothingReads(tail);
        assert "" + tail == tail;
        EndsAnything(tail);
        WordReads(names[0], "", [], tail);
      } else {
        var more := NamesText(names[1..]);
        NamesRead(names[1..], tail);
        SpaceThen(more, PrintIdents(names[1..]), tail);
        MarkThen(",", " " + more, PrintIdents(names[1..]), tail);
        CommaEnds(" " + more + tail);
        assert "," + (" " + more) + tail == "," + (" " + more + tail);
        WordReads(names[0], "," + (" " + more), [","] + PrintIdents(names[1..]), tail);
      }
    }
  }

  lemma CommaEnds(rest: string)
    ensures EndsIdent("," + rest) && EndsIdent(" " + rest) && EndsIdent(")" + rest) && EndsIdent("(" + rest) && EndsIdent("]" + rest)
    ensures EndsText(" " + rest) && EndsText(")" + rest) && EndsText("," + rest)
  {
  }

  lemma ModifierReads(m: Modifier, tail: string)
    requires LexableModifier(m)
    ensures Reads(SpacedModifier(m), PrintModifier(m), tail)
  {
    hide Reads, IsName, EndsIdent, NamesText, PrintIdents, EndsText;
    if m.op == "" {
      NothingReads(tail);
    } else {
      var names := NamesText(m.args);
      CommaEnds(tail);
      MarkEnds(")", tail);
      NamesRead(m.args, ")" + tail);
      JoinReads(names, PrintIdents(m.args), ")", [")"], tail);
      MarkThen("(", names + ")", PrintIdents(m.args) + [")"], tail);
      var list := "(" + (names + ")");
      SpaceThen(list, ["("] + (PrintIdents(m.args) + [")"]), tail);
      CommaEnds(list + tail);
      assert " " + list + tail == " " + (list + tail);
      WordReads(m.op, " " + list, ["("] + (PrintIdents(m.args) + [")"]), tail);
      SpaceThen(m.op + (" " + list), [m.op] + (["("] + (PrintIdents(m.args) + [")"])), tail);
      assert PrintModifier(m) == [m.op] + (["("] + (PrintIdents(m.args) + [")"]));
    }
  }

  lemma KeywordReads(t: string, b: string, y: seq<string>, tail: string)
    requires t in {"bool", "limit", "offset"} && EndsIdent(b + tail) && Reads(b, y, tail)
    ensures Reads(" " + (t + b), [t] + y, tail)
  {
    hide Reads, IsName, EndsIdent;
    PlainIsName(t);
    WordReads(t, b, y, tail);
    SpaceThen(t + b, [t] + y, tail);
  }

  lemma LimitReads(limit: int, tail: string)
    requires EndsNumber(tail)
    ensures Reads(LimitText(limit), LimitTokens(limit), tail)
  {
    hide Reads, EndsIdent, Cuts, IsNumeral, EndsNumber;
    if limit > 0 {
      var t := Itoa(limit);
      NumeralOfDigits(limit);
      NumeralIsCut(t, tail);
      TokenReads(t, tail);
      SpaceThen(t, [t], tail);
      CommaEnds(t + tail);
      assert " " + t + tail == " " + (t + tail);
      KeywordReads("limit", " " + t, [t], tail);
      assert LimitTokens(limit) == ["limit"] + [t];
    } else {
      NothingReads(tail);
    }
  }

  lemma NumeralOfDigits(n: nat)
    ensures IsNumeral(Itoa(n))
  {
    var s := Digits(n);
    assert IsDecimalChar(s[0]);
    DigitsEndAt(s, 0, |s|);
  }

  // ----- selectors -----

  lemma WritableIsName(s: string)
    requires IsWritable(s)
    ensures IsName(Escape(s)) && IsIdentPrefix(Escape(s))
  {
    hide HasDotPair, IsName;
    EscapedIsName(s);
    EscapedStart(s);
  }

  lemma FilterReads(lib: Lib, f: LabelFilter, tail: string)
    requires LexableFilter(lib, f)
    ensures Reads(FilterText(lib, f), PrintFilter(lib, f), tail)
  {
    hide Reads, IsName, EndsIdent, Cuts, IsLiteral, Escape, EndsOp;
    var key, op, q := Escape(f.key), FilterOp(f), lib.quote(f.value);
    LiteralIsCut(q, tail);
    TokenReads(q, tail);
    QuoteEndsOp(q, tail);
    FilterOpIsCut(op, q + tail);
    TokenThen(op, q, [q], tail);
    WritableIsName(f.key);
    OpEndsIdent(op, q + tail);
    assert op + q + tail == op + (q + tail);
    WordReads(key, op + q, [op] + [q], tail);
    assert PrintFilter(lib, f) == [key] + ([op] + [q]);
  }

  lemma QuoteEndsOp(q: string, tail: string)
    requires IsLiteral(q)
    ensures EndsOp(q + tail)
  {
    assert (q + tail)[0] == q[0];
  }

  lemma OpEndsIdent(op: string, tail: string)
    requires op in {"=", "!=", "=~", "!~"}
    ensures EndsIdent(op + tail)
  {
    assert (op + tail)[0] == op[0];
  }

  lemma {:induction false} FiltersRead(lib: Lib, fs: seq<LabelFilter>, tail: string)
    requires forall i | 0 <= i < |fs| :: LexableFilter(lib, fs[i])
    ensures Reads(FiltersText(lib, fs), PrintFilterItems(lib, fs), tail)
  {
    hide Reads, FilterText, PrintFilter, LexableFilter;
    if fs == [] {
      NothingReads(tail);
    } else if |fs| == 1 {
      NothingReads(tail);
      FilterReads(lib, fs[0], "" + tail);
      JoinReads(FilterText(lib, fs[0]), PrintFilter(lib, fs[0]), "", [], tail);
    } else {
      var more := FiltersText(lib, fs[1..]);
      FiltersRead(lib, fs[1..], tail);
      SpaceThen(more, PrintFilterItems(lib, fs[1..]), tail);
      MarkThen(",", " " + more, PrintFilterItems(lib, fs[1..]), tail);
      FilterReads(lib, fs[0], "," + (" " + more) + tail);
      JoinReads(FilterText(lib, fs[0]), PrintFilter(lib, fs[0]), "," + (" " + more), [","] + PrintFilterItems(lib, fs[1..]), tail);
    }
  }

  lemma BracesRead(lib: Lib, fs: seq<LabelFilter>, tail: string)
    requires forall i | 0 <= i < |fs| :: LexableFilter(lib, fs[i])
    ensures Reads(BracesText(lib, fs), PrintFilters(lib, fs), tail)
  {
    hide Reads, FiltersText, PrintFilterItems, LexableFilter;
    var items := FiltersText(lib, fs);
    MarkEnds("}", tail);
    FiltersRead(lib, fs, "}" + tail);
    JoinReads(items, PrintFilterItems(lib, fs), "}", ["}"], tail);
    MarkThen("{", items + "}", PrintFilterItems(lib, fs) + ["}"], tail);
    assert PrintFilters(lib, fs) == ["{"] + (PrintFilterItems(lib, fs) + ["}"]);
  }

  /** May `tail` follow the text of `e`? A bracket after a dotted name must not
      start a bracket expression. */
  predicate MayEnd(e: Expr, tail: string) {
    EndsText(tail) || (tail[0] == '[' && !e.Binary? && !(IsDottedName(e) && CharRangeLength(tail) > 0))
  }

  lemma BareNameReads(lib: Lib, e: Expr, tail: string)
    requires e.Metric? && IsOnlyMetricGroup(e.filters) && IsWritable(e.filters[0].value) && MayEnd(e, tail)
    ensures Reads(Escape(e.filters[0].value), [Escape(e.filters[0].value)], tail)
  {
    hide Reads, IsName, EndsIdent, HasDotPair, IsDotted, CharRangeLength, Escape, Cuts, IsIdentPrefix, IdentLength;
    var s := e.filters[0].value;
    WritableIsName(s);
    if EndsText(tail) {
      EndsAnything(tail);
      NameIsCut(Escape(s), tail);
    } else {
      EscapedBeforeBracket(s, tail);
      IdentIsCut(Escape(s), tail);
    }
    TokenReads(Escape(s), tail);
  }

  lemma MetricReads(lib: Lib, e: Expr, tail: string)
    requires e.Metric? && LexableMetric(lib, e.filters) && MayEnd(e, tail)
    ensures Reads(MetricText(lib, e.filters), PrintMetric(lib, e.filters), tail)
  {
    hide Reads, IsName, EndsIdent, BracesText, PrintFilters, LexableFilter, Escape, MayEnd, IsWritable;
    var fs := e.filters;
    if !HasMetricGroup(fs) {
      BracesRead(lib, fs, tail);
    } else if |fs| == 1 {
      BareNameReads(lib, e, tail);
      NothingReads(tail);
      var name := Escape(fs[0].value);
      assert name + "" == name && [name] + [] == [name];
    } else {
      assert forall i | 0 <= i < |fs[1..]| :: fs[1..][i] == fs[i + 1];
      BracesRead(lib, fs[1..], tail);
      NameBeforeBraces(lib, fs[0].value, fs[1..], tail);
      TokenThen(Escape(fs[0].value), BracesText(lib, fs[1..]), PrintFilters(lib, fs[1..]), tail);
    }
  }

  /** The braces after a name are not taken for a list of values. */
  lemma NameBeforeBraces(lib: Lib, s: string, fs: seq<LabelFilter>, tail: string)
    requires IsWritable(s) && fs != []
    ensures Cuts(Escape(s), BracesText(lib, fs) + tail)
  {
    hide HasDotPair, ValueListLength, Cuts, IsIdentPrefix, IdentLength, Escape, IsName, FiltersText;
    var f, rest := fs[0], BracesText(lib, fs) + tail;
    var more := FiltersText(lib, fs) + ("}" + tail);
    assert rest == "{" + more;
    FirstFilterText(lib, fs, "}" + tail);
    var after := FilterOp(f) + (more[|Escape(f.key) + FilterOp(f)|..]);
    assert more == Escape(f.key) + after;
    FilterIsNoList(f.key, after);
    EscapedBeforeBrace(s, rest);
    WritableIsName(s);
    IdentIsCut(Escape(s), rest);
  }

  lemma FirstFilterText(lib: Lib, fs: seq<LabelFilter>, tail: string)
    requires fs != []
    ensures var t := FiltersText(lib, fs) + tail;
            |Escape(fs[0].key) + FilterOp(fs[0])| <= |t| && Escape(fs[0].key) + FilterOp(fs[0]) <= t
  {
    hide Escape;
    assert FiltersText(lib, fs) == Escape(fs[0].key) + FilterOp(fs[0]) +
           (lib.quote(fs[0].value) + (if |fs| == 1 then "" else "," + (" " + FiltersText(lib, fs[1..]))));
  }

  // ----- rollups -----

  lemma DurationIsPlainText(d: string)
    requires IsDuration(d)
    ensures (forall k | 0 <= k < |d| :: IsIdentChar(d[k])) && !HasDotPair(":" + d, true) && d != ""
  {
    DurationIsExact(d, false, |d|);
    assert d[..|d|] == d;
    var sign, whole, fraction, unit :| IsDurationOf(d, false, sign, whole, fraction, unit);
    forall k | 0 <= k < |d| ensures IsIdentChar(d[k]) && (k != |whole| ==> d[k] != '.') {
      if k < |whole| { assert d[k] == whole[k]; }
      else if k < |whole| + |fraction| {
        assert d[k] == fraction[k - |whole|];
        if k > |whole| { assert fraction[1..][k - |whole| - 1] == d[k]; }
      } else { assert d[k] == unit; }
    }
  }

  lemma ColonReads(step: string, inheritStep: bool, tail: string)
    requires step == "" || IsDuration(step)
    ensures Reads(StepPart(step, inheritStep) + "]", RoundTrip.StepTokens(step, inheritStep) + ["]"], tail)
  {
    hide Reads, IsDuration, IsName, Cuts, EndsIdent, HasDotPair;
    MarkEnds("]", tail);
    CommaEnds(tail);
    if step != "" {
      var t := ":" + step;
      DurationIsPlainText(step);
      forall k | 0 <= k < |t| ensures IsIdentChar(t[k]) { if k > 0 { assert t[k] == step[k - 1]; } }
      PlainIsItsEscape(t, true);
      EscapedIsName(t);
      WordReads(t, "]", ["]"], tail);
    } else if inheritStep {
      PlainIsName(":");
      WordReads(":", "]", ["]"], tail);
    } else {
      assert "" + "]" == "]" && [] + ["]"] == ["]"];
    }
  }

  lemma WindowReads(window: string, step: string, inheritStep: bool, tail: string)
    requires (window == "" || IsDuration(window)) && (step == "" || IsDuration(step))
    ensures Reads(WindowText(window, step, inheritStep), PrintWindow(window, step, inheritStep), tail)
  {
    hide Reads, IsDuration, Cuts, StepPart, RoundTrip.StepTokens;
    if window == "" && step == "" && !inheritStep {
      NothingReads(tail);
    } else {
      var b, y := StepPart(step, inheritStep) + "]", RoundTrip.StepTokens(step, inheritStep) + ["]"];
      ColonReads(step, inheritStep, tail);
      if window == "" {
        assert window + b == b;
        MarkThen("[", b, y, tail);
      } else {
        DurationIsCut(window, b + tail);
        TokenThen(window, b, y, tail);
        MarkThen("[", window + b, [window] + y, tail);
      }
      WindowTokens(window, step, inheritStep);
    }
  }

  lemma WindowTokens(window: string, step: string, inheritStep: bool)
    requires !(window == "" && step == "" && !inheritStep)
    ensures var y := RoundTrip.StepTokens(step, inheritStep) + ["]"];
            PrintWindow(window, step, inheritStep) == ["["] + (if window == "" then y else [window] + y)
  {
  }

  lemma OffsetReads(offset: string, tail: string)
    requires IsOffset(offset)
    ensures Reads(OffsetText(offset), PrintOffset(offset), tail)
  {
    hide Reads, IsDuration, Cuts, EndsIdent, EndsOp;
    if offset == "" {
      NothingReads(tail);
    } else {
      var d := if offset[0] == '-' then offset[1..] else offset;
      var y := if offset[0] == '-' then ["-"] + [d] else [d];
      DurationIsCut(d, tail);
      TokenReads(d, tail);
      if offset[0] == '-' {
        DigitEndsOp(d, tail);
        MinusIsCut(d + tail);
        TokenThen("-", d, [d], tail);
        assert offset == "-" + d;
      }
      SpaceThen(offset, y, tail);
      CommaEnds(offset + tail);
      assert " " + offset + tail == " " + (offset + tail);
      KeywordReads("offset", " " + offset, y, tail);
      assert PrintOffset(offset) == ["offset"] + y;
    }
  }

  lemma DigitEndsOp(d: string, tail: string)
    requires IsDuration(d)
    ensures EndsOp(d + tail)
  {
    DurationMarks(d);
    assert (d + tail)[0] == d[0];
  }

  lemma MinusIsCut(tail: string)
    requires EndsOp(tail)
    ensures Cuts("-", tail) && Cuts("+", tail)
  {
    assert Lower("-") == "-" && Lower("+") == "+";
    SymbolIsCut("-", tail);
    SymbolIsCut("+", tail);
  }

  /** A window is a duration, so its bracket starts no bracket expression. */
  lemma WindowIsNoBracket(window: string, rest: string)
    requires IsDuration(window)
    ensures CharRangeLength("[" + (window + rest)) == -1
  {
    hide DurationLength;
    var s := window + rest;
    assert ("[" + s)[1..] == s;
    DurationIsExact(window, false, |window|);
    DurationMarks(window);
    assert window[..|window|] == window == s[..|window|];
    if sign, whole, fraction, unit :| IsDurationOf(window, false, sign, whole, fraction, unit) {
      assert IsDurationOf(window, true, sign, whole, fraction, unit);
    }
    DurationIsExact(s, true, |window|);
  }

  // ----- expressions -----

  lemma NumberReads(lib: Lib, n: Num, tail: string)
    requires LexableNumber(lib, n) && (EndsText(tail) || tail[0] == '[')
    ensures Reads(lib.formatFloat(n), SplitSign(lib.formatFloat(n)), tail)
  {
    hide Reads, IsNumeral, IsPlainName, Cuts, EndsIdent, EndsNumber, EndsText, EndsOp;
    var t := lib.formatFloat(n);
    var u := if IsSigned(t) then t[1..] else t;
    if IsNumeral(u) {
      assert EndsNumber(tail) by { BracketEndsNumber(tail); }
      NumeralIsCut(u, tail);
    } else {
      if EndsText(tail) { EndsAnything(tail); }
      PlainBeforeBracket(u, tail);
    }
    TokenReads(u, tail);
    if IsSigned(t) {
      NumeralEndsOp(u, tail);
      MinusIsCut(u + tail);
      TokenThen([t[0]], u, [u], tail);
      assert t == [t[0]] + u && ([t[0]] == "-" || [t[0]] == "+");
      assert SplitSign(t) == [[t[0]]] + [u];
    }
  }

  lemma BracketEndsNumber(tail: string)
    requires EndsText(tail) || tail[0] == '['
    ensures EndsNumber(tail)
  {
  }

  lemma NumeralEndsOp(u: string, tail: string)
    requires IsNumeral(u) || IsPlainName(u)
    ensures EndsOp(u + tail)
  {
    hide NumberLength;
    assert (u + tail)[0] == u[0];
  }

  lemma MayEndFacts(e: Expr, tail: string)
    ensures EndsText(tail) ==> MayEnd(e, tail)
    ensures tail != "" && tail[0] == '[' && !e.Binary? && (!IsDottedName(e) || CharRangeLength(tail) == -1) ==> MayEnd(e, tail)
    ensures MayEnd(e, tail) ==> EndsText(tail) || (tail[0] == '[' && !e.Binary?)
  {
  }

  /** The text of a tree is lexed as its printed tokens, whatever may end it
      follows. */
  lemma {:induction false} TextReads(lib: Lib, e: Expr, tail: string)
    requires Readable(lib, e) && Lexable(lib, e) && MayEnd(e, tail)
    ensures Reads(ExprText(lib, e), Print(lib, e), tail)
    decreases e, 3
  {
    hide Reads, IsName, LexableMetric, LexableNumber, LexableModifier, LexableAll, ReadableAll, IsLiteral, MayEnd, EndsText, Cuts, EndsIdent, MetricText, PrintMetric, ListText, PrintList, IsReadableNumber, IsReadableMetric, IsRollup, OperandsFit, IsOpInfo, SplitSign, IsModifier, IsDottedName, WindowText, OffsetText, SpacedModifier;
    MayEndFacts(e, tail);
    match e
    case Number(n) => NumberReads(lib, n, tail);
    case Str(se) =>
      LiteralIsCut(lib.quote(se.s), tail);
      TokenReads(lib.quote(se.s), tail);
    case Metric(filters, _) => MetricReads(lib, e, tail);
    case Func(name, args) =>
      ListReads(lib, args, tail);
      NameThenList(lib, name, args, ListText(lib, args), PrintList(lib, args), tail);
    case Aggr(name, args, modifier, limit) => AggrReads(lib, e, tail);
    case Binary(info, left, right) => BinaryReads(lib, e, tail);
    case Rollup(inner, window, offset, step, inheritStep) => RollupReads(lib, e, tail);
  }

  lemma NameThenList(lib: Lib, name: string, args: seq<Expr>, b: string, y: seq<string>, tail: string)
    requires (name == "" || IsName(name)) && Reads(b, y, tail) && b != "" && b[0] == '('
    ensures Reads(name + b, (if name == "" then [] else [name]) + y, tail)
  {
    hide Reads, IsName;
    if name == "" {
      assert "" + b == b && [] + y == y;
    } else {
      assert EndsIdent(b + tail) by { assert (b + tail)[0] == '('; }
      WordReads(name, b, y, tail);
    }
  }

  lemma {:induction false} ListReads(lib: Lib, es: seq<Expr>, tail: string)
    requires ReadableAll(lib, es) && LexableAll(lib, es)
    ensures Reads(ListText(lib, es), PrintList(lib, es), tail) && ListText(lib, es) != "" && ListText(lib, es)[0] == '('
    decreases es, 1
  {
    hide Reads, ItemsText, PrintItems, LexableAll, ReadableAll;
    MarkEnds(")", tail);
    ItemsRead(lib, es, tail);
    JoinReads(ItemsText(lib, es), PrintItems(lib, es), ")", [")"], tail);
    MarkThen("(", ItemsText(lib, es) + ")", PrintItems(lib, es) + [")"], tail);
    assert PrintList(lib, es) == ["("] + (PrintItems(lib, es) + [")"]);
  }

  lemma {:induction false} ItemsRead(lib: Lib, es: seq<Expr>, tail: string)
    requires ReadableAll(lib, es) && LexableAll(lib, es)
    ensures Reads(ItemsText(lib, es), PrintItems(lib, es), ")" + tail)
    decreases es, 0
  {
    hide Reads, ExprText, Print, Lexable, Readable, MayEnd, EndsText;
    if es == [] {
      NothingReads(")" + tail);
    } else {
      CommaEnds(tail);
      MayEndFacts(es[0], ")" + tail);
      if |es| == 1 {
        NothingReads(")" + tail);
        assert "" + (")" + tail) == ")" + tail;
        TextReads(lib, es[0], ")" + tail);
        JoinReads(ExprText(lib, es[0]), Print(lib, es[0]), "", [], ")" + tail);
      } else {
        var more := ItemsText(lib, es[1..]);
        ItemsRead(lib, es[1..], tail);
        SpaceThen(more, PrintItems(lib, es[1..]), ")" + tail);
        MarkThen(",", " " + more, PrintItems(lib, es[1..]), ")" + tail);
        var follow := "," + (" " + more) + (")" + tail);
        assert follow == "," + (" " + more + (")" + tail));
        CommaEnds(" " + more + (")" + tail));
        MayEndFacts(es[0], follow);
        TextReads(lib, es[0], follow);
        JoinReads(ExprText(lib, es[0]), Print(lib, es[0]), "," + (" " + more), [","] + PrintItems(lib, es[1..]), ")" + tail);
      }
    }
  }

  lemma AggrSuffixReads(m: Modifier, limit: int, tail: string)
    requires LexableModifier(m) && EndsNumber(tail)
    ensures Reads(SpacedModifier(m) + LimitText(limit), PrintModifier(m) + LimitTokens(limit), tail)
  {
    hide Reads, LexableModifier, SpacedModifier, PrintModifier, LimitText, LimitTokens, EndsNumber;
    LimitReads(limit, tail);
    ModifierReads(m, LimitText(limit) + tail);
    JoinReads(SpacedModifier(m), PrintModifier(m), LimitText(limit), LimitTokens(limit), tail);
  }

  lemma NameIsNotEmpty(name: string)
    requires IsName(name)
    ensures name != ""
  {
  }

  lemma LexableAggr(lib: Lib, e: Expr)
    requires e.Aggr? && Lexable(lib, e) && Readable(lib, e)
    ensures IsName(e.name) && LexableModifier(e.modifier) && LexableAll(lib, e.args) && ReadableAll(lib, e.args)
  {
    hide IsName, LexableModifier, IsModifier, KeywordOf;
  }

  lemma {:induction false} AggrReads(lib: Lib, e: Expr, tail: string)
    requires e.Aggr? && Lexable(lib, e) && Readable(lib, e) && (EndsText(tail) || tail[0] == '[')
    ensures Reads(ExprText(lib, e), Print(lib, e), tail)
    decreases e, 2
  {
    hide Reads, IsName, Lexable, Readable, EndsText, ListText, PrintList, SpacedModifier, PrintModifier, LimitText, LimitTokens, Print;
    LexableAggr(lib, e);
    hide LexableModifier, LexableAll, ReadableAll;
    var list, b := ListText(lib, e.args), SpacedModifier(e.modifier) + LimitText(e.limit);
    var y := PrintModifier(e.modifier) + LimitTokens(e.limit);
    BracketEndsNumber(tail);
    AggrSuffixReads(e.modifier, e.limit, tail);
    ListReads(lib, e.args, b + tail);
    JoinReads(list, PrintList(lib, e.args), b, y, tail);
    NameIsNotEmpty(e.name);
    NameThenList(lib, e.name, e.args, list + b, PrintList(lib, e.args) + y, tail);
    AggrTokens(lib, e);
    assert Print(lib, e) == [e.name] + (PrintList(lib, e.args) + y);
  }

  lemma {:induction false} OperandReads(lib: Lib, e: Expr, tail: string)
    requires Readable(lib, e) && Lexable(lib, e) && EndsText(tail)
    ensures Reads(OperandText(lib, e), PrintOperand(lib, e), tail)
    decreases e, 5
  {
    hide Reads, ExprText, Print, Lexable, Readable, MayEnd, EndsText;
    MayEndFacts(e, tail);
    if e.Binary? {
      InParens(lib, e, tail);
    } else {
      TextReads(lib, e, tail);
    }
  }

  lemma {:induction false} InParens(lib: Lib, e: Expr, tail: string)
    requires Readable(lib, e) && Lexable(lib, e)
    ensures Reads("(" + (ExprText(lib, e) + ")"), ["("] + Print(lib, e) + [")"], tail)
    decreases e, 4
  {
    hide Reads, ExprText, Print, Lexable, Readable, MayEnd, EndsText;
    MarkEnds(")", tail);
    CommaEnds(tail);
    MayEndFacts(e, ")" + tail);
    TextReads(lib, e, ")" + tail);
    JoinReads(ExprText(lib, e), Print(lib, e), ")", [")"], tail);
    MarkThen("(", ExprText(lib, e) + ")", Print(lib, e) + [")"], tail);
    assert ["("] + Print(lib, e) + [")"] == ["("] + (Print(lib, e) + [")"]);
  }

  lemma OpIsCut(op: BinOp, tail: string)
    requires EndsIdent(tail) && EndsOp(tail)
    ensures Cuts(OpText(op), tail)
  {
    hide OpText, OpOf, Cuts, IsName, EndsIdent, EndsOp, IsPlainName, IsIdentPrefix;
    OperatorToken(op);
    if IsIdentPrefix(OpText(op)) {
      WordIsPlain(OpText(op));
      PlainIsName(OpText(op));
      NameIsCut(OpText(op), tail);
    } else {
      SymbolIsCut(OpText(op), tail);
    }
  }

  lemma OpInfoReads(info: OpInfo, tail: string)
    requires LexableModifier(info.group) && LexableModifier(info.join) && EndsText(tail) && tail != ""
    ensures Reads(OpInfoText(info), PrintOp(info), tail)
  {
    hide Reads, OpText, SpacedModifier, PrintModifier, LexableModifier, Cuts, EndsIdent, EndsOp, EndsText;
    var group, join := SpacedModifier(info.group), SpacedModifier(info.join);
    var y := PrintModifier(info.group) + PrintModifier(info.join);
    ModifierReads(info.join, tail);
    ModifierReads(info.group, join + tail);
    JoinReads(group, PrintModifier(info.group), join, PrintModifier(info.join), tail);
    var words := group + join;
    WordsEnd(info.group, info.join, tail);
    if info.isBool {
      assert words + tail == group + join + tail;
      KeywordReads("bool", words, y, tail);
      var bools := " " + ("bool" + words);
      assert " " + "bool" + words == bools;
      CommaEnds("bool" + words + tail);
      assert bools + tail == " " + ("bool" + words + tail);
      EndsAnything(bools + tail);
      OpThen(info.op, bools, ["bool"] + y, tail);
      assert PrintOp(info) == [OpText(info.op)] + (["bool"] + y);
    } else {
      assert "" + words == words;
      EndsAnything(words + tail);
      OpThen(info.op, words, y, tail);
      assert PrintOp(info) == [OpText(info.op)] + y;
    }
  }

  lemma OpThen(op: BinOp, b: string, y: seq<string>, tail: string)
    requires EndsIdent(b + tail) && EndsOp(b + tail) && Reads(b, y, tail)
    ensures Reads(" " + (OpText(op) + b), [OpText(op)] + y, tail)
  {
    hide Reads, Cuts, OpText, EndsIdent, EndsOp;
    OpIsCut(op, b + tail);
    TokenThen(OpText(op), b, y, tail);
    SpaceThen(OpText(op) + b, [OpText(op)] + y, tail);
  }

  lemma WordsEnd(group: Modifier, join: Modifier, tail: string)
    requires EndsText(tail)
    ensures EndsText(SpacedModifier(group) + SpacedModifier(join) + tail) && EndsIdent(SpacedModifier(group) + SpacedModifier(join) + tail)
  {
    hide NamesText;
    var t := SpacedModifier(group) + SpacedModifier(join) + tail;
    if group.op != "" {
      assert t[0] == ' ';
    } else if join.op != "" {
      assert t[0] == ' ';
    } else {
      assert t == tail;
      EndsAnything(tail);
    }
  }

  lemma {:induction false} BinaryReads(lib: Lib, e: Expr, tail: string)
    requires e.Binary? && Readable(lib, e) && Lexable(lib, e) && MayEnd(e, tail) && EndsText(tail)
    ensures Reads(ExprText(lib, e), Print(lib, e), tail)
    decreases e, 2
  {
    hide Reads, OperandText, PrintOperand, OpInfoText, PrintOp, LexableModifier, EndsText, MayEnd, OperandsFit, IsOpInfo;
    var right := OperandText(lib, e.right);
    OperandReads(lib, e.right, tail);
    SpaceThen(right, PrintOperand(lib, e.right), tail);
    CommaEnds(right + tail);
    assert " " + right + tail == " " + (right + tail);
    OpInfoReads(e.info, " " + right + tail);
    JoinReads(OpInfoText(e.info), PrintOp(e.info), " " + right, PrintOperand(lib, e.right), tail);
    var b, y := OpInfoText(e.info) + (" " + right), PrintOp(e.info) + PrintOperand(lib, e.right);
    OpInfoEnds(e.info, " " + right + tail);
    assert b + tail == OpInfoText(e.info) + (" " + right + tail);
    OperandReads(lib, e.left, b + tail);
    JoinReads(OperandText(lib, e.left), PrintOperand(lib, e.left), b, y, tail);
    assert Print(lib, e) == PrintOperand(lib, e.left) + y;
  }

  lemma OpInfoEnds(info: OpInfo, tail: string)
    ensures EndsText(OpInfoText(info) + tail)
  {
    hide OpText, SpacedModifier;
    assert (OpInfoText(info) + tail)[0] == ' ';
  }

  lemma SuffixReads(window: string, offset: string, step: string, inheritStep: bool, tail: string)
    requires IsRollup(window, offset, step, inheritStep)
    ensures Reads(WindowText(window, step, inheritStep) + OffsetText(offset), PrintWindow(window, step, inheritStep) + PrintOffset(offset), tail)
  {
    hide Reads, WindowText, OffsetText, PrintWindow, PrintOffset, IsOffset, IsDuration;
    OffsetReads(offset, tail);
    WindowReads(window, step, inheritStep, OffsetText(offset) + tail);
    JoinReads(WindowText(window, step, inheritStep), PrintWindow(window, step, inheritStep), OffsetText(offset), PrintOffset(offset), tail);
  }

  lemma OffsetComesFirst(window: string, offset: string, step: string, inheritStep: bool, tail: string)
    requires window == "" && step == "" && !inheritStep && offset != ""
    ensures EndsText(WindowText(window, step, inheritStep) + OffsetText(offset) + tail)
  {
    assert (WindowText(window, step, inheritStep) + OffsetText(offset) + tail)[0] == ' ';
  }

  lemma BracketComesFirst(window: string, offset: string, step: string, inheritStep: bool, tail: string)
    requires !(window == "" && step == "" && !inheritStep)
    ensures var rest := WindowText(window, step, inheritStep) + OffsetText(offset) + tail;
            && rest != "" && rest[0] == '['
            && rest == "[" + (window + (StepPart(step, inheritStep) + "]" + OffsetText(offset) + tail))
  {
    hide OffsetText, StepPart;
  }

  lemma SuffixMayEnd(inner: Expr, window: string, offset: string, step: string, inheritStep: bool, tail: string)
    requires IsRollup(window, offset, step, inheritStep) && !inner.Binary?
    requires !(IsDottedName(inner) && window == "" && (step != "" || inheritStep))
    ensures MayEnd(inner, WindowText(window, step, inheritStep) + OffsetText(offset) + tail)
  {
    hide IsOffset, IsDuration, CharRangeLength, IsDottedName, WindowText, OffsetText, StepPart, MayEnd, EndsText;
    var rest := WindowText(window, step, inheritStep) + OffsetText(offset) + tail;
    MayEndFacts(inner, rest);
    if window == "" && step == "" && !inheritStep {
      OffsetComesFirst(window, offset, step, inheritStep, tail);
    } else {
      BracketComesFirst(window, offset, step, inheritStep, tail);
      if window != "" { WindowIsNoBracket(window, StepPart(step, inheritStep) + "]" + OffsetText(offset) + tail); }
    }
  }

  lemma RollupParts(lib: Lib, e: Expr)
    requires e.Rollup? && Readable(lib, e) && Lexable(lib, e)
    ensures Readable(lib, e.expr) && Lexable(lib, e.expr) && IsRollup(e.window, e.offset, e.step, e.inheritStep)
    ensures !(IsDottedName(e.expr) && e.window == "" && (e.step != "" || e.inheritStep))
  {
    hide IsRollup, IsDottedName;
  }

  lemma RollupText(lib: Lib, e: Expr)
    requires e.Rollup?
    ensures var a := if NeedsParens(e.expr) then "(" + (ExprText(lib, e.expr) + ")") else ExprText(lib, e.expr);
            ExprText(lib, e) == a + (WindowText(e.window, e.step, e.inheritStep) + OffsetText(e.offset))
    ensures var x := if NeedsParens(e.expr) then ["("] + Print(lib, e.expr) + [")"] else Print(lib, e.expr);
            Print(lib, e) == x + (PrintWindow(e.window, e.step, e.inheritStep) + PrintOffset(e.offset))
  {
    hide WindowText, OffsetText, PrintWindow, PrintOffset, NeedsParens;
    RolledTokens(lib, e);
    var x := if NeedsParens(e.expr) then ["("] + Print(lib, e.expr) + [")"] else Print(lib, e.expr);
    assert x + PrintWindow(e.window, e.step, e.inheritStep) + PrintOffset(e.offset) ==
           x + (PrintWindow(e.window, e.step, e.inheritStep) + PrintOffset(e.offset));
  }

  lemma {:induction false} RollupReads(lib: Lib, e: Expr, tail: string)
    requires e.Rollup? && Readable(lib, e) && Lexable(lib, e)
    ensures Reads(ExprText(lib, e), Print(lib, e), tail)
    decreases e, 2
  {
    hide Reads, WindowText, OffsetText, PrintWindow, PrintOffset, IsRollup, MayEnd, EndsText, IsDottedName, ExprText, Print, Readable, Lexable;
    var inner := e.expr;
    var b, y := WindowText(e.window, e.step, e.inheritStep) + OffsetText(e.offset), PrintWindow(e.window, e.step, e.inheritStep) + PrintOffset(e.offset);
    RollupParts(lib, e);
    RollupText(lib, e);
    SuffixReads(e.window, e.offset, e.step, e.inheritStep, tail);
    if NeedsParens(inner) {
      InParens(lib, inner, b + tail);
      JoinReads("(" + (ExprText(lib, inner) + ")"), ["("] + Print(lib, inner) + [")"], b, y, tail);
    } else {
      SuffixMayEnd(inner, e.window, e.offset, e.step, e.inheritStep, tail);
      TextReads(lib, inner, b + tail);
      JoinReads(ExprText(lib, inner), Print(lib, inner), b, y, tail);
    }
  }

  /** The printed text of a tree is lexed as its printed tokens. */
  lemma TextIsLexed(lib: Lib, e: Expr)
    requires Readable(lib, e) && Lexable(lib, e)
    ensures Lex(ExprText(lib, e)) == Good(Print(lib, e))
  {
    hide ExprText, Print, Readable, Lexable;
    MayEndFacts(e, "");
    TextReads(lib, e, "");
    assert ExprText(lib, e) + "" == ExprText(lib, e);
    assert Lex("") == Stream([], false) && Print(lib, e) + [] == Print(lib, e);
  }
}
