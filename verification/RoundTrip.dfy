/** Parsing the tokens that printing a tree yields. */
module RoundTrip {
  import opened Text
  import opened Syntax
  import opened Library
  import opened Ident
  import opened Scan
  import opened Filters
  import opened Operators
  import opened Grammar
  import opened Lexicon
  import opened Printer

  // ----- trees that can be read back -----

  predicate AreIdents(names: seq<string>) { forall i | 0 <= i < |names| :: IsIdentPrefix(names[i]) }

  predicate IsModifier(m: Modifier, k: Keyword) {
    IsIdentPrefix(m.op) && KeywordOf(m.op) == k && Lower(m.op) == m.op && AreIdents(m.args)
  }

  predicate IsOpInfo(info: OpInfo) {
    && (info.isBool ==> IsCmp(info.op))
    && (info.group == NO_MODIFIER || IsModifier(info.group, GroupModifier))
    && (info.join == NO_MODIFIER ||
        (info.group != NO_MODIFIER && !IsLogicalSet(info.op) && IsModifier(info.join, JoinModifier)))
  }

  predicate IsOffset(offset: string) {
    offset == "" || IsDuration(if offset[0] == '-' then offset[1..] else offset)
  }

  predicate IsRollup(window: string, offset: string, step: string, inheritStep: bool) {
    && (window == "" || IsDuration(window)) && (step == "" || IsDuration(step)) && IsOffset(offset)
    && !(step != "" && inheritStep)
    && (window != "" || step != "" || inheritStep || offset != "")
  }

  /** The number is written as a numeral, or as a sign and a numeral, whose
      value is the number or, after a minus, what is negated. */
  predicate IsReadableNumber(lib: Lib, n: Num) {
    var t := lib.formatFloat(n);
    && IsNumberStart(if IsSigned(t) then t[1..] else t)
    && (if IsNegative(lib, n) then Magnitude(lib, n).Some? else Magnitude(lib, n) == Some(n))
  }

  predicate IsReadableFilter(f: LabelFilter) { f.key != "" }

  predicate IsReadableMetric(filters: seq<LabelFilter>) {
    && (HasMetricGroup(filters) ==> IsMetricName(filters[0].value))
    && forall i | 0 <= i < |filters| :: IsReadableFilter(filters[i])
  }

  /** Only names that are numbers are not read as names. */
  predicate IsMetricName(name: string) { name != "" && KeywordOf(Escape(name)) != NumberWord }

  predicate IsFuncName(name: string) { IsIdentPrefix(name) && KeywordOf(name) !in {WithWord, AggrName, NumberWord} }

  // ----- operands -----

  /** Would a string literal before a `+` and these tokens go on? */
  predicate ContinuesString(toks: seq<string>) {
    && toks != []
    && (|| IsStringPrefix(toks[0])
        || (IsIdentPrefix(toks[0]) && !(|toks| > 1 && (MarkOf(toks[1]) == LParen || MarkOf(toks[1]) == LBrace))))
  }

  predicate EndsString(toks: seq<string>) {
    toks != [] && MarkOf(toks[0]) == Plus ==> !ContinuesString(toks[1..])
  }

  /** A metric with the name of an aggregate and no other filters. */
  predicate IsBareAggregate(e: Expr) {
    e.Metric? && IsOnlyMetricGroup(e.filters) && KeywordOf(Escape(e.filters[0].value)) == AggrName
  }

  /** May `toks` follow the printed form of `e`? A string must end there, the
      name of an aggregate must not be followed by a word, and what follows a
      signed number must not be taken for a suffix of the numeral. */
  predicate MayPrecede(lib: Lib, e: Expr, toks: seq<string>) {
    var t := Tok(Good(toks));
    && (e.Str? ==> EndsString(toks))
    && (IsBareAggregate(e) ==> !IsIdentPrefix(t) || KeywordOf(t) == OffsetWord)
    && (e.Number? && IsSigned(lib.formatFloat(e.n)) ==> t != "[" && t != "offset")
  }

  /** Is `t`, the first token of the right operand, no modifier of the
      operator? */
  predicate EndsModifiers(info: OpInfo, t: string) {
    && (info.group == NO_MODIFIER ==> (info.isBool || KeywordOf(t) != BoolWord) && KeywordOf(t) != GroupModifier)
    && (info.group != NO_MODIFIER && info.join == NO_MODIFIER ==> KeywordOf(t) != JoinModifier)
  }

  /** The operands are read as they are printed. */
  predicate OperandsFit(lib: Lib, info: OpInfo, left: Expr, right: Expr) {
    && MayPrecede(lib, left, PrintOp(info) + PrintOperand(lib, right))
    && EndsModifiers(info, Tok(Good(PrintOperand(lib, right))))
  }

  /** Trees whose printed tokens are parsed as intended: no parens and WITH
      nodes, names and operands that are not taken for something else. */
  predicate Readable(lib: Lib, e: Expr)
    decreases e
  {
    match e
    case Number(n) => IsReadableNumber(lib, n)
    case Str(_) => true
    case Metric(filters, _) => IsReadableMetric(filters)
    case Func(name, args) => (name == "" || IsFuncName(name)) && ReadableAll(lib, args)
    case Aggr(name, args, modifier, limit) =>
      && IsIdentPrefix(name) && KeywordOf(name) == AggrName && Lower(name) == name
      && (modifier == NO_MODIFIER || IsModifier(modifier, AggrModifier)) && 0 <= limit <= MAX_INT64
      && ReadableAll(lib, args)
    case Binary(info, left, right) =>
      IsOpInfo(info) && OperandsFit(lib, info, left, right) && Readable(lib, left) && Readable(lib, right)
    case Rollup(inner, window, offset, step, inheritStep) =>
      && IsRollup(window, offset, step, inheritStep) && Readable(lib, inner)
      && !(inner.Number? && IsNegative(lib, inner.n))
    case Parens(_) => false
    case With(_, _) => false
  }

  predicate ReadableAll(lib: Lib, es: seq<Expr>)
    decreases es
  {
    forall i | 0 <= i < |es| :: Readable(lib, es[i])
  }

  // ----- what may follow -----

  function Good(toks: seq<string>): Stream { Stream(toks, false) }

  predicate EndsExpr(t: string) { t == "" || t == ")" || t == "," }

  predicate EndsSingle(t: string) { EndsExpr(t) || exists op :: t == OpText(op) }

  predicate EndsAtom(t: string) { EndsSingle(t) || t == "[" || t == "offset" }

  lemma EndsAtomFacts(t: string)
    requires EndsAtom(t)
    ensures KeywordOf(t) == if t == "offset" then OffsetWord else NoKeyword
    ensures IsIdentPrefix(t) ==> t == "offset" || OpOf(t).Some?
    ensures MarkOf(t) == LBracket <==> t == "["
    ensures MarkOf(t) !in {LParen, LBrace, Equal}
    ensures OpOf(t).None? && t != "offset" && t != "" ==> MarkOf(t) in {LBracket, RParen, Comma}
    ensures t == "" ==> MarkOf(t) == Eof
  {
    if t == "offset" {
      KeywordTokens();
    } else if op :| t == OpText(op) {
      OperatorToken(op);
    } else {
      Punctuation(t);
    }
  }

  lemma EndsExprFacts(t: string)
    requires EndsExpr(t)
    ensures OpOf(t).None?
  {
    Punctuation(t);
  }

  lemma {:induction false} AdvanceOver(t: string, rest: seq<string>)
    ensures Tok(Good([t] + rest)) == t
    ensures Advance(Good([t] + rest)) == Parsed(Tok(Good(rest)), Good(rest))
  {
    assert ([t] + rest)[1..] == rest;
    if rest != [] { assert ([t] + rest)[1] == rest[0]; }
  }

  lemma IdentMarks(t: string)
    requires IsIdentPrefix(t)
    ensures MarkOf(t) == Other && !IsNumberPrefix(t) && !IsStringPrefix(t)
  {
  }

  // ----- names, modifiers, filters -----

  lemma {:induction false} ReadIdentList(names: seq<string>, open: string, before: seq<string>, rest: seq<string>)
    requires AreIdents(names) && (open == "(" || open == ",") && (open == "," ==> names != [])
    ensures ParseIdentList(Good([open] + PrintIdents(names) + [")"] + rest), before) == Parsed(before + names, Good(rest))
    decreases |names|
  {
    hide MarkOf, IsIdentPrefix, Advance, Tok;
    var all := [open] + PrintIdents(names) + [")"] + rest;
    if names == [] {
      assert all == [open] + ([")"] + rest);
      AdvanceOver(open, [")"] + rest);
      AdvanceOver(")", rest);
      MarksOfPunctuation();
      assert before + names == before;
    } else {
      var more := (if |names| == 1 then [] else [","] + PrintIdents(names[1..])) + [")"] + rest;
      assert all == [open] + ([names[0]] + more);
      AdvanceOver(open, [names[0]] + more);
      AdvanceOver(names[0], more);
      IdentMarks(names[0]);
      MarksOfPunctuation();
      if |names| == 1 {
        assert more == [")"] + rest;
        AdvanceOver(")", rest);
        assert before + names == before + [names[0]];
      } else {
        assert more == [","] + PrintIdents(names[1..]) + [")"] + rest;
        assert more == [","] + (PrintIdents(names[1..]) + [")"] + rest);
        AdvanceOver(",", PrintIdents(names[1..]) + [")"] + rest);
        ReadIdentList(names[1..], ",", before + [names[0]], rest);
        assert before + [names[0]] + names[1..] == before + names;
      }
    }
  }

  lemma MarksOfPunctuation()
    ensures MarkOf("(") == LParen && MarkOf(")") == RParen && MarkOf("{") == LBrace && MarkOf("}") == RBrace
    ensures MarkOf("[") == LBracket && MarkOf("]") == RBracket && MarkOf(",") == Comma && MarkOf("") == Eof
    ensures MarkOf("-") == Minus
  {
  }

  lemma ReadModifier(m: Modifier, k: Keyword, rest: seq<string>)
    requires IsModifier(m, k) && k != NoKeyword
    ensures ParseModifier(Good(PrintModifier(m) + rest)) == Parsed(m, Good(rest))
  {
    hide MarkOf, KeywordOf, ParseIdentList, PrintIdents, Advance;
    var list := ["("] + PrintIdents(m.args) + [")"] + rest;
    assert PrintModifier(m) + rest == [m.op] + list;
    AdvanceOver(m.op, list);
    MarksOfPunctuation();
    assert list == ["("] + (PrintIdents(m.args) + [")"] + rest);
    AdvanceOver("(", PrintIdents(m.args) + [")"] + rest);
    ReadIdentList(m.args, "(", [], rest);
    assert [] + m.args == m.args;
  }

  lemma ReadOpModifiers(info: OpInfo, rest: seq<string>)
    requires IsOpInfo(info) && EndsModifiers(info, Tok(Good(rest)))
    ensures ParseOpModifiers(info.op, Good(PrintOp(info)[1..] + rest)) == Parsed(info, Good(rest))
  {
    hide MarkOf, KeywordOf, ParseModifier, PrintModifier, ParseBool;
    var joins := PrintModifier(info.join) + rest;
    var groups := PrintModifier(info.group) + joins;
    var bools := if info.isBool then ["bool"] else [];
    assert PrintOp(info)[1..] + rest == bools + groups;
    FirstOfModifier(info.group, joins);
    FirstOfModifier(info.join, rest);
    ReadBool(info.op, info.isBool, groups);
    if info.group == NO_MODIFIER {
      NoModifierPrintsNothing();
      assert groups == rest;
    } else {
      ReadModifier(info.group, GroupModifier, joins);
      if info.join == NO_MODIFIER {
        NoModifierPrintsNothing();
        assert joins == rest;
      } else {
        ReadModifier(info.join, JoinModifier, rest);
      }
    }
  }

  lemma NoModifierPrintsNothing()
    ensures PrintModifier(NO_MODIFIER) == []
  {
  }

  lemma FirstOfModifier(m: Modifier, rest: seq<string>)
    requires m == NO_MODIFIER || IsIdentPrefix(m.op)
    ensures Tok(Good(PrintModifier(m) + rest)) == if m == NO_MODIFIER then Tok(Good(rest)) else m.op
  {
    assert m == NO_MODIFIER ==> PrintModifier(m) + rest == rest;
  }

  lemma ReadBool(op: BinOp, isBool: bool, rest: seq<string>)
    requires isBool ==> IsCmp(op)
    requires !isBool ==> KeywordOf(Tok(Good(rest))) != BoolWord
    ensures ParseBool(op, Good((if isBool then ["bool"] else []) + rest)) == Parsed(isBool, Good(rest))
  {
    hide KeywordOf, MarkOf, OpOf;
    var all := (if isBool then ["bool"] else []) + rest;
    if isBool {
      assert all == ["bool"] + rest;
      assert KeywordOf("bool") == BoolWord by { KeywordTokens(); }
      AdvanceOver("bool", rest);
    } else {
      assert all == rest;
    }
  }

  lemma StringTokenMarks(lib: Lib, v: string)
    requires QuotesFaithfully(lib)
    ensures IsStringPrefix(lib.quote(v)) && !IsIdentPrefix(lib.quote(v)) && !IsNumberPrefix(lib.quote(v))
    ensures KeywordOf(lib.quote(v)) == NoKeyword && OpOf(lib.quote(v)).None?
  {
    var t := lib.quote(v);
    NotAKeyword(t);
    assert Lower(t)[0] == '"';
  }

  lemma ReadString(lib: Lib, v: string, before: seq<string>, rest: seq<string>)
    requires QuotesFaithfully(lib) && EndsString(rest)
    ensures ParseString(Good([lib.quote(v)] + rest), before) == Parsed(before + [lib.quote(v)], Good(rest))
  {
    hide MarkOf;
    StringTokenMarks(lib, v);
    AdvanceOver(lib.quote(v), rest);
    EmptyIsEof();
    if rest != [] && MarkOf(rest[0]) == Plus {
      var toks := rest[1..];
      assert rest == [rest[0]] + toks;
      AdvanceOver(rest[0], toks);
      if toks != [] {
        assert toks == [toks[0]] + toks[1..];
        AdvanceOver(toks[0], toks[1..]);
      }
    }
  }

  lemma EscapedIsIdent(s: string)
    requires s != ""
    ensures IsIdentPrefix(Escape(s))
  {
  }

  lemma ReadFilter(lib: Lib, f: LabelFilter, rest: seq<string>)
    requires QuotesFaithfully(lib) && IsReadableFilter(f) && EndsString(rest)
    ensures ParseLabelFilter(Good(PrintFilter(lib, f) + rest)) == Parsed(RawFilter(lib, f), Good(rest))
  {
    hide MarkOf, Escape, ParseString, IsIdentPrefix;
    EscapedIsIdent(f.key);
    FilterOperator(FilterOp(f));
    var value := [lib.quote(f.value)] + rest;
    assert PrintFilter(lib, f) + rest == [Escape(f.key)] + ([FilterOp(f)] + value);
    AdvanceOver(Escape(f.key), [FilterOp(f)] + value);
    AdvanceOver(FilterOp(f), value);
    ReadString(lib, f.value, [], rest);
    assert [] + [lib.quote(f.value)] == [lib.quote(f.value)];
  }

  lemma {:induction false} ReadFilters(lib: Lib, fs: seq<LabelFilter>, open: string, before: seq<LabelFilterExpr>, rest: seq<string>)
    requires QuotesFaithfully(lib) && (forall i | 0 <= i < |fs| :: IsReadableFilter(fs[i]))
    requires (open == "{" || open == ",") && (open == "," ==> fs != [])
    ensures ParseLabelFilters(Good([open] + PrintFilterItems(lib, fs) + ["}"] + rest), before) ==
            Parsed(before + RawFilters(lib, fs), Good(rest))
    decreases |fs|
  {
    hide MarkOf, ParseLabelFilter, PrintFilter, RawFilter;
    var all := [open] + PrintFilterItems(lib, fs) + ["}"] + rest;
    MarksOfPunctuation();
    if fs == [] {
      assert all == [open] + (["}"] + rest);
      AdvanceOver(open, ["}"] + rest);
      AdvanceOver("}", rest);
      assert before + RawFilters(lib, fs) == before;
    } else {
      var more := (if |fs| == 1 then [] else [","] + PrintFilterItems(lib, fs[1..])) + ["}"] + rest;
      assert all == [open] + (PrintFilter(lib, fs[0]) + more);
      AdvanceOver(open, PrintFilter(lib, fs[0]) + more);
      FilterIsNoBrace(lib, fs[0], more);
      assert Tok(Good(more)) == if |fs| == 1 then "}" else ",";
      ReadFilter(lib, fs[0], more);
      if |fs| == 1 {
        assert more == ["}"] + rest;
        AdvanceOver("}", rest);
        assert RawFilters(lib, fs) == [RawFilter(lib, fs[0])];
      } else {
        assert more == [","] + PrintFilterItems(lib, fs[1..]) + ["}"] + rest;
        ReadFilters(lib, fs[1..], ",", before + [RawFilter(lib, fs[0])], rest);
        assert before + [RawFilter(lib, fs[0])] + RawFilters(lib, fs[1..]) == before + RawFilters(lib, fs);
      }
    }
  }

  lemma FilterIsNoBrace(lib: Lib, f: LabelFilter, rest: seq<string>)
    requires IsReadableFilter(f)
    ensures MarkOf(Tok(Good(PrintFilter(lib, f) + rest))) != RBrace
  {
    hide Escape;
    EscapedIsIdent(f.key);
    IdentMarks(Escape(f.key));
  }

  lemma ReadMetric(lib: Lib, filters: seq<LabelFilter>, rest: seq<string>)
    requires QuotesFaithfully(lib) && IsReadableMetric(filters) && MarkOf(Tok(Good(rest))) != LBrace
    ensures ParseMetric(lib, Good(PrintMetric(lib, filters) + rest)) == Parsed(Metric([], RawMetric(lib, filters)), Good(rest))
  {
    hide MarkOf, Escape, PrintFilterItems, RawFilters, IsIdentPrefix, KeywordOf, OpOf, ParseMetric;
    if HasMetricGroup(filters) {
      EscapedIsIdent(filters[0].value);
      if |filters| == 1 {
        ReadBareName(lib, filters, rest);
      } else {
        ReadNamed(lib, filters, rest);
      }
    } else {
      ReadBraces(lib, filters, rest);
      assert PrintMetric(lib, filters) + rest == ["{"] + PrintFilterItems(lib, filters) + ["}"] + rest;
    }
  }

  function NameFilter(lib: Lib, name: string): LabelFilterExpr {
    LabelFilterExpr("__name__", Some(StringExpr("", [lib.quote(name)])), false, false)
  }

  lemma ReadBareName(lib: Lib, filters: seq<LabelFilter>, rest: seq<string>)
    requires HasMetricGroup(filters) && |filters| == 1 && IsIdentPrefix(Escape(filters[0].value))
    requires MarkOf(Tok(Good(rest))) != LBrace
    ensures ParseMetric(lib, Good(PrintMetric(lib, filters) + rest)) == Parsed(Metric([], RawMetric(lib, filters)), Good(rest))
  {
    hide MarkOf, Escape, RawFilters, IsIdentPrefix;
    var name := Escape(filters[0].value);
    assert PrintMetric(lib, filters) + rest == [name] + rest;
    AdvanceOver(name, rest);
    assert filters[1..] == [];
    RawFiltersOfNone(lib);
    assert RawMetric(lib, filters) == [NameFilter(lib, name)] + [] == [NameFilter(lib, name)];
  }

  lemma ReadNamed(lib: Lib, filters: seq<LabelFilter>, rest: seq<string>)
    requires QuotesFaithfully(lib) && HasMetricGroup(filters) && |filters| > 1 && IsIdentPrefix(Escape(filters[0].value))
    requires forall i | 0 <= i < |filters| :: IsReadableFilter(filters[i])
    ensures ParseMetric(lib, Good(PrintMetric(lib, filters) + rest)) == Parsed(Metric([], RawMetric(lib, filters)), Good(rest))
  {
    hide MarkOf, Escape, ParseLabelFilters, PrintFilterItems, RawFilters, IsIdentPrefix;
    MarksOfPunctuation();
    var name := Escape(filters[0].value);
    var braces := ["{"] + PrintFilterItems(lib, filters[1..]) + ["}"] + rest;
    assert PrintMetric(lib, filters) + rest == [name] + braces;
    AdvanceOver(name, braces);
    ReadFilters(lib, filters[1..], "{", [], rest);
    assert [] + RawFilters(lib, filters[1..]) == RawFilters(lib, filters[1..]);
  }

  lemma ReadBraces(lib: Lib, filters: seq<LabelFilter>, rest: seq<string>)
    requires QuotesFaithfully(lib) && forall i | 0 <= i < |filters| :: IsReadableFilter(filters[i])
    ensures ParseMetric(lib, Good(["{"] + PrintFilterItems(lib, filters) + ["}"] + rest)) ==
            Parsed(Metric([], RawFilters(lib, filters)), Good(rest))
  {
    hide MarkOf, ParseLabelFilters, PrintFilterItems, RawFilters, IsIdentPrefix;
    MarksOfPunctuation();
    BraceIsNoIdent();
    assert Tok(Good(["{"] + PrintFilterItems(lib, filters) + ["}"] + rest)) == "{";
    ReadFilters(lib, filters, "{", [], rest);
    assert [] + RawFilters(lib, filters) == RawFilters(lib, filters);
  }

  lemma RawFiltersOfNone(lib: Lib)
    ensures RawFilters(lib, []) == []
  {
  }

  lemma BraceIsNoIdent()
    ensures !IsIdentPrefix("{") && !IsIdentPrefix("(")
  {
  }

  // ----- rollups -----

  lemma DurationMarks(t: string)
    requires IsDuration(t)
    ensures t != "" && IsDecimalChar(t[0]) && MarkOf(t) == Other && !StartsWithColon(t)
  {
  }

  lemma ReadDuration(t: string, rest: seq<string>)
    requires IsDuration(t)
    ensures ParseDuration(t, Good([t] + rest)) == Parsed(t, Good(rest))
    ensures ParsePositiveDuration(t, Good([t] + rest)) == Parsed(t, Good(rest))
  {
    hide MarkOf;
    DurationMarks(t);
    AdvanceOver(t, rest);
  }

  lemma ReadOffset(offset: string, rest: seq<string>)
    requires offset != "" && IsOffset(offset)
    ensures ParseOffset(Good(PrintOffset(offset) + rest)) == Parsed(offset, Good(rest))
  {
    hide MarkOf, KeywordOf, OpOf, IsDuration;
    KeywordTokens();
    MarksOfPunctuation();
    if offset[0] == '-' {
      var d := offset[1..];
      assert PrintOffset(offset) + rest == ["offset"] + (["-"] + ([d] + rest));
      AdvanceOver("offset", ["-"] + ([d] + rest));
      AdvanceOver("-", [d] + rest);
      AdvanceOver(d, rest);
      assert "-" + d == offset;
    } else {
      assert PrintOffset(offset) + rest == ["offset"] + ([offset] + rest);
      AdvanceOver("offset", [offset] + rest);
      ReadDuration(offset, rest);
    }
  }

  lemma ReadWindow(window: string, step: string, inheritStep: bool, rest: seq<string>)
    requires (window == "" || IsDuration(window)) && (step == "" || IsDuration(step)) && !(step != "" && inheritStep)
    requires window != "" || step != "" || inheritStep
    ensures ParseWindowAndStep(Good(PrintWindow(window, step, inheritStep) + rest)) == Parsed((window, step, inheritStep), Good(rest))
  {
    hide MarkOf, IsDuration, ParsePositiveDuration, ParseColon;
    MarksOfPunctuation();
    var steps := StepTokens(step, inheritStep) + ["]"] + rest;
    var windows := (if window == "" then [] else [window]) + steps;
    assert PrintWindow(window, step, inheritStep) + rest == ["["] + windows;
    AdvanceOver("[", windows);
    ReadColon(window, step, inheritStep, rest);
    if window != "" {
      assert windows == [window] + steps;
      DurationMarks(window);
      ReadDuration(window, steps);
    } else {
      assert windows == steps;
      assert StartsWithColon(Tok(Good(steps)));
    }
  }

  function StepTokens(step: string, inheritStep: bool): seq<string> {
    if step != "" then [":" + step] else if inheritStep then [":"] else []
  }

  lemma ReadColon(window: string, step: string, inheritStep: bool, rest: seq<string>)
    requires (step == "" || IsDuration(step)) && !(step != "" && inheritStep)
    ensures ParseColon(window, Good(StepTokens(step, inheritStep) + ["]"] + rest)) == Parsed((window, step, inheritStep), Good(rest))
  {
    hide MarkOf, IsDuration, ParseStep, CloseWindow;
    var close := ["]"] + rest;
    var steps := StepTokens(step, inheritStep) + ["]"] + rest;
    if step != "" {
      var t := ":" + step;
      assert steps == [t] + close && t[1..] == step;
      ReadStep(window, step, t, rest);
    } else if inheritStep {
      assert steps == [":"] + close;
      AdvanceOver(":", close);
      ReadNoStep(window, true, rest);
    } else {
      assert steps == close;
      ReadNoStep(window, false, rest);
    }
  }

  lemma ReadNoStep(window: string, inheritStep: bool, rest: seq<string>)
    ensures MarkOf("]") == RBracket && Tok(Good(["]"] + rest)) == "]"
    ensures CloseWindow(window, "", inheritStep, "]", Good(["]"] + rest)) == Parsed((window, "", inheritStep), Good(rest))
    ensures ParseStep(window, inheritStep, "]", Good(["]"] + rest)) == Parsed((window, "", inheritStep), Good(rest))
  {
    AdvanceOver("]", rest);
  }

  /** A step is read when it is the rest of a token that starts with a colon. */
  lemma ReadStep(window: string, step: string, t: string, rest: seq<string>)
    requires IsDuration(step)
    ensures ParseStep(window, false, step, Good([t] + (["]"] + rest))) == Parsed((window, step, false), Good(rest))
  {
    hide MarkOf;
    MarksOfPunctuation();
    DurationMarks(step);
    AdvanceOver(t, ["]"] + rest);
    AdvanceOver("]", rest);
  }

  lemma ReadRollup(e: Expr, window: string, offset: string, step: string, inheritStep: bool, rest: seq<string>)
    requires IsRollup(window, offset, step, inheritStep) && KeywordOf(Tok(Good(rest))) != OffsetWord
    ensures ParseRollup(e, Good(PrintWindow(window, step, inheritStep) + PrintOffset(offset) + rest)) ==
            Parsed(Rollup(e, window, offset, step, inheritStep), Good(rest))
  {
    hide MarkOf, KeywordOf, OpOf, IsDuration, ParseWindowAndStep, ParseOffset, IsOffset, Advance, PrintOffset, Tok;
    MarksOfPunctuation();
    var offsets := PrintOffset(offset) + rest;
    OffsetStarts(offset, rest);
    if window == "" && step == "" && !inheritStep {
      assert PrintWindow(window, step, inheritStep) + PrintOffset(offset) + rest == offsets;
      ReadOffset(offset, rest);
    } else {
      var all := PrintWindow(window, step, inheritStep) + offsets;
      assert PrintWindow(window, step, inheritStep) + PrintOffset(offset) + rest == all;
      WindowStarts(window, step, inheritStep, offsets);
      ReadWindow(window, step, inheritStep, offsets);
      if offset != "" { ReadOffset(offset, rest); }
    }
  }

  lemma OffsetStarts(offset: string, rest: seq<string>)
    ensures offset == "" ==> PrintOffset(offset) + rest == rest
    ensures offset != "" ==> Tok(Good(PrintOffset(offset) + rest)) == "offset"
    ensures KeywordOf("offset") == OffsetWord && MarkOf("offset") == Other
  {
    KeywordTokens();
  }

  lemma WindowStarts(window: string, step: string, inheritStep: bool, rest: seq<string>)
    requires window != "" || step != "" || inheritStep
    ensures Tok(Good(PrintWindow(window, step, inheritStep) + rest)) == "["
  {
  }

  // ----- expressions -----

  /** A token that an expression can start with. */
  predicate StartsExpr(t: string) { MarkOf(t) in {LParen, LBrace, Minus, Plus, Other} }

  lemma NumeralMarks(t: string)
    requires IsNumberStart(t)
    ensures MarkOf(t) == Other && KeywordOf(t) in {NoKeyword, NumberWord}
  {
    if IsNumberPrefix(t) { NotAKeyword(t); }
    assert |Lower(t)| == |t|;
    if t != "" { assert Lower(t)[0] == LowerChar(t[0]); }
  }

  lemma SignMarks(t: string)
    requires t == "-" || t == "+"
    ensures MarkOf(t) == (if t == "-" then Minus else Plus) && KeywordOf(t) == NoKeyword
    ensures !IsNumberStart(t) && !IsStringPrefix(t) && !IsIdentPrefix(t)
  {
    NotAKeyword(t);
  }

  lemma NumberTokens(lib: Lib, n: Num)
    ensures var t := lib.formatFloat(n);
            SplitSign(t) == (if !IsSigned(t) then [t] else if t[0] == '-' then ["-", t[1..]] else ["+", t[1..]])
  {
  }

  lemma FirstOfNumber(lib: Lib, n: Num)
    requires IsReadableNumber(lib, n)
    ensures var ts := SplitSign(lib.formatFloat(n));
            ts != [] && MarkOf(ts[0]) in {Minus, Plus, Other} && KeywordOf(ts[0]) in {NoKeyword, NumberWord}
  {
    hide MarkOf, KeywordOf, IsNumberStart;
    var t := lib.formatFloat(n);
    NumberTokens(lib, n);
    NumeralMarks(if IsSigned(t) then t[1..] else t);
    SignMarks("-");
    SignMarks("+");
  }

  lemma {:induction false} FirstToken(lib: Lib, e: Expr)
    requires Readable(lib, e) && QuotesFaithfully(lib)
    ensures Print(lib, e) != [] && StartsExpr(Print(lib, e)[0])
    decreases e
  {
    hide MarkOf, KeywordOf, OpOf, IsIdentPrefix, IsNumberStart, Escape, MayPrecede, EndsModifiers, IsReadableNumber, SplitSign;
    MarksOfPunctuation();
    match e
    case Number(n) => FirstOfNumber(lib, n);
    case Str(se) => StringIsOther(lib, se.s);
    case Metric(filters, _) =>
      if HasMetricGroup(filters) {
        EscapedIsIdent(filters[0].value);
        IdentMarks(Escape(filters[0].value));
      }
    case Func(name, _) => if name != "" { IdentMarks(name); }
    case Aggr(name, _, _, _) => IdentMarks(name);
    case Binary(_, left, _) => FirstToken(lib, left);
    case Rollup(inner, _, _, _, _) => FirstToken(lib, inner);
  }

  /** The stream is no WITH expression. */
  predicate IsNoWith(s: Stream) {
    IsWord(s, WithWord) ==> Advance(s).Parsed? && MarkOf(Advance(s).v) != LParen
  }

  /** Only a name can be the word `with`, and no paren follows a name. */
  lemma {:induction false} PrintIsNoWith(lib: Lib, e: Expr, rest: seq<string>)
    requires Readable(lib, e) && QuotesFaithfully(lib) && !e.Binary? && EndsAtom(Tok(Good(rest)))
    ensures IsNoWith(Good(Print(lib, e) + rest))
    decreases e
  {
    hide MarkOf, KeywordOf, OpOf, IsIdentPrefix, IsNumberStart, Escape, MayPrecede, IsReadableNumber, SplitSign, PrintWindow, PrintOffset;
    hide IsRollup, PrintMetric, EndsAtom, Advance;
    MarksOfPunctuation();
    Punctuation("(");
    match e
    case Number(n) => FirstOfNumber(lib, n);
    case Str(se) => StringTokenMarks(lib, se.s);
    case Metric(filters, _) => MetricIsNoWith(lib, filters, rest);
    case Func(_, _) =>
    case Aggr(_, _, _, _) =>
    case Rollup(inner, window, offset, step, inheritStep) =>
      PrintRolled(lib, e, rest);
      SuffixStarts(window, offset, step, inheritStep, rest);
      if !NeedsParens(inner) {
        PrintIsNoWith(lib, inner, PrintWindow(window, step, inheritStep) + PrintOffset(offset) + rest);
      }
  }

  lemma MetricIsNoWith(lib: Lib, filters: seq<LabelFilter>, rest: seq<string>)
    requires IsReadableMetric(filters) && EndsAtom(Tok(Good(rest)))
    ensures IsNoWith(Good(PrintMetric(lib, filters) + rest))
  {
    hide MarkOf, KeywordOf, OpOf, IsIdentPrefix, Escape, PrintMetric, EndsAtom, Advance, IsReadableMetric;
    MarksOfPunctuation();
    Punctuation("{");
    EndsAtomFacts(Tok(Good(rest)));
    if HasMetricGroup(filters) {
      var next := AfterName(lib, filters, rest);
    } else {
      assert Tok(Good(PrintMetric(lib, filters) + rest)) == "{" by { BraceComesFirst(lib, filters, rest); }
    }
  }

  lemma BraceComesFirst(lib: Lib, filters: seq<LabelFilter>, rest: seq<string>)
    requires !HasMetricGroup(filters)
    ensures Tok(Good(PrintMetric(lib, filters) + rest)) == "{"
  {
  }

  // ----- what may follow an operand -----

  lemma NothingFollows(lib: Lib, e: Expr, rest: seq<string>)
    requires EndsExpr(Tok(Good(rest)))
    ensures MayPrecede(lib, e, rest)
  {
    hide KeywordOf, OpOf;
    Punctuation(Tok(Good(rest)));
    MarksOfPunctuation();
  }

  lemma SuffixMayFollow(lib: Lib, e: Expr, rest: seq<string>)
    requires Tok(Good(rest)) == "[" || Tok(Good(rest)) == "offset"
    requires !(e.Number? && IsSigned(lib.formatFloat(e.n)))
    ensures MayPrecede(lib, e, rest)
  {
    KeywordTokens();
    MarksOfPunctuation();
    assert MarkOf("offset") == Other && !IsIdentPrefix("[");
  }

  /** What follows the right operand has no influence on the left one. */
  lemma OperatorMayFollow(lib: Lib, e: Expr, toks: seq<string>, rest: seq<string>)
    requires |toks| > 1 && MayPrecede(lib, e, toks) && EndsExpr(Tok(Good(rest)))
    ensures MayPrecede(lib, e, toks + rest)
  {
    hide KeywordOf, OpOf, MarkOf;
    MarksOfPunctuation();
    assert (toks + rest)[1..] == toks[1..] + rest;
    if |toks| == 2 && rest != [] { assert (toks[1..] + rest)[1] == rest[0]; }
  }

  lemma StringIsOther(lib: Lib, v: string)
    requires QuotesFaithfully(lib)
    ensures MarkOf(lib.quote(v)) == Other
  {
  }

  lemma {:induction false} ReadExpr(lib: Lib, e: Expr, rest: seq<string>)
    requires Readable(lib, e) && QuotesFaithfully(lib) && EndsExpr(Tok(Good(rest)))
    ensures ParseExpr(lib, Good(Print(lib, e) + rest)) == Parsed(Raw(lib, e), Good(rest))
    decreases e, 3
  {
    hide MarkOf, KeywordOf, OpOf, ParseSingle, ParseOperations, PrintOperand, PrintModifier, Raw, IsOpInfo;
    EndsExprFacts(Tok(Good(rest)));
    NothingFollows(lib, e, rest);
    if e.Binary? {
      var left := PrintOp(e.info) + PrintOperand(lib, e.right) + rest;
      assert Print(lib, e) + rest == PrintOperand(lib, e.left) + left;
      OperatorToken(e.info.op);
      OperandFollows(lib, e, rest);
      ReadOperand(lib, e.left, left);
      ReadOperation(lib, e, rest);
    } else {
      ReadSingle(lib, e, rest);
      ReadEnd(lib, Raw(lib, e), rest);
    }
  }

  /** The operator and the right operand, after the left one is read. */
  lemma {:induction false} ReadOperation(lib: Lib, e: Expr, rest: seq<string>)
    requires Readable(lib, e) && QuotesFaithfully(lib) && EndsExpr(Tok(Good(rest))) && e.Binary?
    ensures ParseOperations(lib, WrapIf(e.left.Binary?, Raw(lib, e.left)),
                            Good(PrintOp(e.info) + PrintOperand(lib, e.right) + rest)) == Parsed(Raw(lib, e), Good(rest))
    decreases e, 2
  {
    hide MarkOf, KeywordOf, OpOf, ParseSingle, ParseOpModifiers, ParseOperations, IsOpInfo, PrintOperand, OpText, Readable, Raw, PrintOp, Print, MayPrecede, EndsModifiers;
    EndsExprFacts(Tok(Good(rest)));
    NothingFollows(lib, e.right, rest);
    assert EndsSingle(Tok(Good(rest)));
    BinaryParts(lib, e);
    var info := e.info;
    var afterOp := PrintOperand(lib, e.right) + rest;
    var afterLeft := PrintOp(info)[1..] + afterOp;
    assert PrintOp(info) == [OpText(info.op)] + PrintOp(info)[1..];
    assert PrintOp(info) + PrintOperand(lib, e.right) + rest == [OpText(info.op)] + afterLeft;
    OperatorToken(info.op);
    AdvanceOver(OpText(info.op), afterLeft);
    OperandStarts(lib, e, rest);
    ReadOpModifiers(info, afterOp);
    ReadOperand(lib, e.right, rest);
    RawIsOperand(lib, e.left);
    var left, right := WrapIf(e.left.Binary?, Raw(lib, e.left)), WrapIf(e.right.Binary?, Raw(lib, e.right));
    OperationStep(lib, left, Good([OpText(info.op)] + afterLeft), Good(afterLeft), info, Good(afterOp), right, Good(rest));
    ReadEnd(lib, Raw(lib, e), rest);
  }

  lemma BinaryParts(lib: Lib, e: Expr)
    requires Readable(lib, e) && e.Binary?
    ensures IsOpInfo(e.info) && Readable(lib, e.right)
    ensures PrintOp(e.info) != [] && PrintOp(e.info)[0] == OpText(e.info.op)
    ensures Raw(lib, e) == Binary(e.info, WrapIf(e.left.Binary?, Raw(lib, e.left)), WrapIf(e.right.Binary?, Raw(lib, e.right)))
  {
  }

  lemma OperationStep(lib: Lib, left: Expr, s: Stream, s1: Stream, info: OpInfo, s2: Stream, right: Expr, s3: Stream)
    requires s.toks != [] && OpOf(Tok(s)) == Some(info.op) && Advance(s) == Parsed(Tok(s1), s1)
    requires ParseOpModifiers(info.op, s1) == Parsed(info, s2) && ParseSingle(lib, s2) == Parsed(right, s3)
    ensures ParseOperations(lib, left, s) == ParseOperations(lib, Balance(left, info, right), s3)
  {
    hide OpOf, ParseSingle, ParseOpModifiers, Balance, Advance;
  }

  lemma ReadEnd(lib: Lib, e: Expr, rest: seq<string>)
    requires OpOf(Tok(Good(rest))).None?
    ensures ParseOperations(lib, e, Good(rest)) == Parsed(e, Good(rest))
  {
  }

  lemma RawIsOperand(lib: Lib, e: Expr)
    ensures !WrapIf(e.Binary?, Raw(lib, e)).Binary?
  {
  }

  lemma OperandStarts(lib: Lib, e: Expr, rest: seq<string>)
    requires Readable(lib, e) && QuotesFaithfully(lib) && e.Binary?
    ensures PrintOperand(lib, e.right) != [] && EndsModifiers(e.info, Tok(Good(PrintOperand(lib, e.right) + rest)))
  {
    hide KeywordOf, MarkOf, OpOf, MayPrecede, EndsModifiers;
    FirstToken(lib, e.right);
  }

  lemma OperandFollows(lib: Lib, e: Expr, rest: seq<string>)
    requires Readable(lib, e) && QuotesFaithfully(lib) && e.Binary? && EndsExpr(Tok(Good(rest)))
    ensures MayPrecede(lib, e.left, PrintOp(e.info) + PrintOperand(lib, e.right) + rest)
  {
    hide KeywordOf, MarkOf, OpOf, MayPrecede, EndsModifiers, PrintOperand;
    assert PrintOperand(lib, e.right) != [] by { OperandStarts(lib, e, rest); }
    OperatorMayFollow(lib, e.left, PrintOp(e.info) + PrintOperand(lib, e.right), rest);
  }

  lemma {:induction false} ReadOperand(lib: Lib, e: Expr, rest: seq<string>)
    requires Readable(lib, e) && QuotesFaithfully(lib) && EndsSingle(Tok(Good(rest)))
    requires MayPrecede(lib, e, rest)
    ensures ParseSingle(lib, Good(PrintOperand(lib, e) + rest)) == Parsed(WrapIf(e.Binary?, Raw(lib, e)), Good(rest))
    decreases e, 5
  {
    hide MarkOf, KeywordOf, OpOf, ParseUnsuffixed;
    if e.Binary? {
      EndsAtomFacts(Tok(Good(rest)));
      Punctuation("(");
      assert PrintOperand(lib, e) + rest == ["("] + Print(lib, e) + [")"] + rest;
      ReadParenthesised(lib, e, rest);
      BracketEndsNothing(Tok(Good(rest)));
    } else {
      ReadSingle(lib, e, rest);
    }
  }

  lemma BracketEndsNothing(t: string)
    requires EndsSingle(t)
    ensures t != "[" && t != "offset"
  {
    if op :| t == OpText(op) { }
  }

  lemma {:induction false} ReadParenthesised(lib: Lib, e: Expr, rest: seq<string>)
    requires Readable(lib, e) && QuotesFaithfully(lib)
    ensures ParseUnsuffixed(lib, Good(["("] + Print(lib, e) + [")"] + rest)) == Parsed(Parens([Raw(lib, e)]), Good(rest))
    decreases e, 4
  {
    hide MarkOf, KeywordOf, OpOf, ParseExpr, IsIdentPrefix, Print, Readable;
    MarksOfPunctuation();
    Punctuation("(");
    FirstToken(lib, e);
    var inner := Print(lib, e) + ([")"] + rest);
    assert ["("] + Print(lib, e) + [")"] + rest == ["("] + inner;
    AdvanceOver("(", inner);
    ReadExpr(lib, e, [")"] + rest);
    AdvanceOver(")", rest);
    assert [] + [Raw(lib, e)] == [Raw(lib, e)];
  }

  lemma {:induction false} ReadSingle(lib: Lib, e: Expr, rest: seq<string>)
    requires Readable(lib, e) && QuotesFaithfully(lib) && !e.Binary? && EndsSingle(Tok(Good(rest)))
    requires MayPrecede(lib, e, rest)
    ensures ParseSingle(lib, Good(Print(lib, e) + rest)) == Parsed(Raw(lib, e), Good(rest))
    decreases e, 2
  {
    hide MarkOf, KeywordOf, OpOf, ParseUnsuffixed, ParseRollup, IsRollup, MayPrecede, Advance;
    PrintIsNoWith(lib, e, rest);
    EndsAtomFacts(Tok(Good(rest)));
    BracketEndsNothing(Tok(Good(rest)));
    if e.Rollup? {
      ReadRolled(lib, e, rest);
    } else {
      ReadUnsuffixed(lib, e, rest);
    }
  }

  lemma {:induction false} ReadRolled(lib: Lib, e: Expr, rest: seq<string>)
    requires Readable(lib, e) && QuotesFaithfully(lib) && e.Rollup? && EndsSingle(Tok(Good(rest)))
    requires IsNoWith(Good(Print(lib, e) + rest)) && KeywordOf(Tok(Good(rest))) != OffsetWord
    ensures ParseSingle(lib, Good(Print(lib, e) + rest)) == Parsed(Raw(lib, e), Good(rest))
    decreases e, 1
  {
    hide MarkOf, KeywordOf, OpOf, ParseUnsuffixed, ParseRollup, ParseWith, IsRollup, PrintWindow, PrintOffset, Print, Raw, MayPrecede, Advance, EndsAtom;
    var inner := e.expr;
    var suffix := PrintWindow(e.window, e.step, e.inheritStep) + PrintOffset(e.offset) + rest;
    PrintRolled(lib, e, rest);
    ReadRollup(WrapIf(NeedsParens(inner), Raw(lib, inner)), e.window, e.offset, e.step, e.inheritStep, rest);
    SuffixStarts(e.window, e.offset, e.step, e.inheritStep, rest);
    if NeedsParens(inner) {
      ReadParenthesised(lib, inner, suffix);
    } else if inner.Number? && IsSigned(lib.formatFloat(inner.n)) {
      ReadRolledSign(lib, e, rest);
    } else {
      SuffixMayFollow(lib, inner, suffix);
      ReadUnsuffixed(lib, inner, suffix);
    }
  }

  /** After a plus the suffix is read together with the numeral. */
  lemma ReadRolledSign(lib: Lib, e: Expr, rest: seq<string>)
    requires Readable(lib, e) && e.Rollup? && e.expr.Number? && IsSigned(lib.formatFloat(e.expr.n))
    requires EndsSingle(Tok(Good(rest))) && IsNoWith(Good(Print(lib, e) + rest))
    ensures ParseSingle(lib, Good(Print(lib, e) + rest)) == Parsed(Raw(lib, e), Good(rest))
  {
    hide MarkOf, KeywordOf, OpOf, ParseUnsuffixed, ParseRollup, ParseWith, IsRollup, PrintWindow, PrintOffset, Print, Raw;
    hide Advance, EndsAtom, IsNumberStart;
    var n := e.expr.n;
    var t := lib.formatFloat(n);
    var suffix := PrintWindow(e.window, e.step, e.inheritStep) + PrintOffset(e.offset) + rest;
    EndsAtomFacts(Tok(Good(rest)));
    BracketEndsNothing(Tok(Good(rest)));
    PrintRolled(lib, e, rest);
    PrintOfNumber(lib, n);
    SignedTokens(t, suffix);
    ReadRollup(Number(n), e.window, e.offset, e.step, e.inheritStep, rest);
    SuffixStarts(e.window, e.offset, e.step, e.inheritStep, rest);
    ReadNumeral(lib, t[1..], n, suffix);
    assert KeywordOf(t[1..]) != WithWord by { NumeralMarks(t[1..]); }
    assert Tok(Good([t[1..]] + suffix)) == t[1..];
    assert ParseSingle(lib, Good([t[1..]] + suffix)) == Parsed(Rollup(Number(n), e.window, e.offset, e.step, e.inheritStep), Good(rest));
    ReadSign(lib, [t[0]], [t[1..]] + suffix);
  }

  lemma PrintOfNumber(lib: Lib, n: Num)
    ensures Print(lib, Number(n)) == SplitSign(lib.formatFloat(n))
    ensures !IsNegative(lib, n) ==> Raw(lib, Number(n)) == Number(n)
  {
  }

  lemma PrintRolled(lib: Lib, e: Expr, rest: seq<string>)
    requires e.Rollup?
    ensures var suffix := PrintWindow(e.window, e.step, e.inheritStep) + PrintOffset(e.offset) + rest;
            Print(lib, e) + rest ==
            if NeedsParens(e.expr) then ["("] + Print(lib, e.expr) + [")"] + suffix else Print(lib, e.expr) + suffix
    ensures Raw(lib, e) == e.(expr := WrapIf(NeedsParens(e.expr), Raw(lib, e.expr)))
  {
    hide PrintWindow, PrintOffset;
    RolledTokens(lib, e);
    var inner := if NeedsParens(e.expr) then ["("] + Print(lib, e.expr) + [")"] else Print(lib, e.expr);
    Regroup(inner, PrintWindow(e.window, e.step, e.inheritStep), PrintOffset(e.offset), rest);
  }

  lemma RolledTokens(lib: Lib, e: Expr)
    requires e.Rollup?
    ensures Print(lib, e) ==
            (if NeedsParens(e.expr) then ["("] + Print(lib, e.expr) + [")"] else Print(lib, e.expr))
            + PrintWindow(e.window, e.step, e.inheritStep) + PrintOffset(e.offset)
  {
    hide PrintWindow, PrintOffset;
  }

  lemma Regroup<T>(a: seq<T>, b: seq<T>, c: seq<T>, d: seq<T>)
    ensures a + b + c + d == a + (b + c + d)
  {
  }

  lemma SuffixStarts(window: string, offset: string, step: string, inheritStep: bool, rest: seq<string>)
    requires IsRollup(window, offset, step, inheritStep)
    ensures var t := Tok(Good(PrintWindow(window, step, inheritStep) + PrintOffset(offset) + rest));
            && (t == "[" || t == "offset") && EndsAtom(t) && MarkOf(t) != Plus
            && (MarkOf(t) == LBracket || KeywordOf(t) == OffsetWord)
  {
    hide MarkOf, KeywordOf, OpOf, IsDuration;
    MarksOfPunctuation();
    KeywordTokens();
  }

  lemma {:induction false} ReadUnsuffixed(lib: Lib, e: Expr, rest: seq<string>)
    requires Readable(lib, e) && QuotesFaithfully(lib) && !e.Binary? && !e.Rollup? && EndsAtom(Tok(Good(rest)))
    requires MayPrecede(lib, e, rest)
    ensures ParseUnsuffixed(lib, Good(Print(lib, e) + rest)) == Parsed(Raw(lib, e), Good(rest))
    decreases e, 1
  {
    hide MarkOf, KeywordOf, OpOf, IsIdentPrefix, ParseIdentExpr, IsNumberStart, ParseUnsuffixed, PrintMetric, RawMetric, EndsAtom, SplitSign, RawNumber, IsReadableNumber, EndsString;
    match e
    case Number(n) => ReadNumber(lib, n, rest);
    case Str(se) => ReadStringLiteral(lib, se.s, rest);
    case Metric(filters, raw) => ReadFiltered(lib, filters, raw, rest);
    case Func(name, args) =>
      if name == "" {
        ReadUnion(lib, e, rest);
      } else {
        IdentMarks(name);
        NotANumeral(name);
        ReadFunc(lib, e, rest);
        StartOfUnsuffixed(lib, Good(Print(lib, e) + rest));
      }
    case Aggr(name, _, _, _) =>
      NotANumber(name);
      IdentMarks(name);
      ReadAggr(lib, e, rest);
      StartOfUnsuffixed(lib, Good(Print(lib, e) + rest));
  }

  lemma ReadFiltered(lib: Lib, filters: seq<LabelFilter>, raw: seq<LabelFilterExpr>, rest: seq<string>)
    requires QuotesFaithfully(lib) && IsReadableMetric(filters) && EndsAtom(Tok(Good(rest)))
    requires MayPrecede(lib, Metric(filters, raw), rest)
    ensures ParseUnsuffixed(lib, Good(PrintMetric(lib, filters) + rest)) == Parsed(Metric([], RawMetric(lib, filters)), Good(rest))
  {
    hide MarkOf, KeywordOf, OpOf, IsIdentPrefix, ParseIdentExpr, ParseMetric, Escape, IsNumberStart, ParseUnsuffixed, RawMetric;
    EndsAtomFacts(Tok(Good(rest)));
    MarksOfPunctuation();
    StartOfUnsuffixed(lib, Good(PrintMetric(lib, filters) + rest));
    if HasMetricGroup(filters) {
      EscapedIsIdent(filters[0].value);
      IdentMarks(Escape(filters[0].value));
      assert !IsNumberStart(Escape(filters[0].value)) by { NotANumeral(Escape(filters[0].value)); }
      ReadSelector(lib, filters, raw, rest);
    } else {
      Punctuation("{");
      NotANumber("{");
      ReadMetric(lib, filters, rest);
    }
  }

  lemma NotANumeral(t: string)
    requires !IsNumberPrefix(t) && KeywordOf(t) != NumberWord
    ensures !IsNumberStart(t)
  {
    hide KeywordOf, IsNumberPrefix;
  }

  /** How the first token decides. */
  lemma StartOfUnsuffixed(lib: Lib, s: Stream)
    ensures s.toks != [] && !IsNumberStart(Tok(s)) && !IsStringPrefix(Tok(s)) ==>
              && (IsIdentPrefix(Tok(s)) ==> ParseUnsuffixed(lib, s) == ParseIdentExpr(lib, s))
              && (!IsIdentPrefix(Tok(s)) && MarkOf(Tok(s)) == LBrace ==> ParseUnsuffixed(lib, s) == ParseMetric(lib, s))
  {
    hide IsNumberStart, IsStringPrefix, IsIdentPrefix, MarkOf, ParseIdentExpr, ParseMetric;
  }

  /** A numeral with nothing that it could be taken together with. */
  lemma ReadNumeral(lib: Lib, t: string, v: Num, rest: seq<string>)
    requires IsNumberStart(t) && lib.parseFloat(t) == Some(v)
    ensures ParseUnsuffixed(lib, Good([t] + rest)) == Parsed(Number(v), Good(rest))
    ensures !IsMark(Good(rest), LBracket) && !IsWord(Good(rest), OffsetWord) ==>
              ParseSingle(lib, Good([t] + rest)) == Parsed(Number(v), Good(rest))
  {
    hide KeywordOf, MarkOf;
    AdvanceOver(t, rest);
    NumeralMarks(t);
  }

  /** A sign is read before what comes after it. */
  lemma ReadSign(lib: Lib, sign: string, rest: seq<string>)
    requires sign == "-" || sign == "+"
    ensures var s, r := Good([sign] + rest), ParseSingle(lib, Good(rest));
            ParseUnsuffixed(lib, s) ==
            if r.Failed? then Failed else Parsed(if sign == "-" then Negated(r.v) else r.v, r.rest)
  {
    hide KeywordOf, MarkOf, IsNumberStart, ParseSingle;
    AdvanceOver(sign, rest);
    SignMarks(sign);
  }

  lemma ReadNumber(lib: Lib, n: Num, rest: seq<string>)
    requires IsReadableNumber(lib, n) && EndsAtom(Tok(Good(rest))) && MayPrecede(lib, Number(n), rest)
    ensures ParseUnsuffixed(lib, Good(SplitSign(lib.formatFloat(n)) + rest)) == Parsed(RawNumber(lib, n), Good(rest))
  {
    hide KeywordOf, MarkOf, IsNumberStart, EndsAtom, ParseSingle, ParseUnsuffixed;
    var t := lib.formatFloat(n);
    NumberTokens(lib, n);
    if IsSigned(t) {
      EndsAtomFacts(Tok(Good(rest)));
      SignedTokens(t, rest);
      ReadNumeral(lib, t[1..], Magnitude(lib, n).value, rest);
      ReadSign(lib, [t[0]], [t[1..]] + rest);
    } else {
      ReadNumeral(lib, t, n, rest);
    }
  }

  lemma SignedTokens(t: string, rest: seq<string>)
    requires IsSigned(t)
    ensures SplitSign(t) + rest == [[t[0]]] + ([t[1..]] + rest)
  {
  }

  lemma ReadStringLiteral(lib: Lib, v: string, rest: seq<string>)
    requires QuotesFaithfully(lib) && EndsString(rest)
    ensures ParseUnsuffixed(lib, Good([lib.quote(v)] + rest)) == Parsed(Str(StringExpr("", [lib.quote(v)])), Good(rest))
  {
    hide KeywordOf, MarkOf, IsNumberStart, ParseString, IsStringPrefix;
    StringTokenMarks(lib, v);
    NotANumber(lib.quote(v));
    ReadString(lib, v, [], rest);
    assert [] + [lib.quote(v)] == [lib.quote(v)];
  }

  lemma NotANumber(t: string)
    requires KeywordOf(t) in {NoKeyword, AggrName} && (IsIdentPrefix(t) || IsStringPrefix(t) || t == "(" || t == "{")
    ensures !IsNumberStart(t)
  {
    hide KeywordOf;
  }

  lemma {:induction false} ReadUnion(lib: Lib, e: Expr, rest: seq<string>)
    requires Readable(lib, e) && QuotesFaithfully(lib) && e.Func? && e.name == ""
    ensures ParseUnsuffixed(lib, Good(Print(lib, e) + rest)) == Parsed(Raw(lib, e), Good(rest))
    decreases e, 0
  {
    hide MarkOf, KeywordOf, OpOf, IsIdentPrefix, ParseList, IsNumberStart;
    MarksOfPunctuation();
    Punctuation("(");
    NotANumber("(");
    assert Print(lib, e) + rest == ["("] + PrintItems(lib, e.args) + [")"] + rest;
    ReadList(lib, e.args, "(", [], rest);
    assert [] + RawAll(lib, e.args) == RawAll(lib, e.args);
  }

  lemma ReadSelector(lib: Lib, filters: seq<LabelFilter>, raw: seq<LabelFilterExpr>, rest: seq<string>)
    requires QuotesFaithfully(lib) && IsReadableMetric(filters) && HasMetricGroup(filters) && EndsAtom(Tok(Good(rest)))
    requires MayPrecede(lib, Metric(filters, raw), rest)
    ensures ParseIdentExpr(lib, Good(PrintMetric(lib, filters) + rest)) == Parsed(Metric([], RawMetric(lib, filters)), Good(rest))
  {
    hide MarkOf, KeywordOf, OpOf, IsIdentPrefix, ParseMetric, Escape, RawMetric, EndsAtom, PrintMetric, Tok, Advance;
    EndsAtomFacts(Tok(Good(rest)));
    MarksOfPunctuation();
    Punctuation("{");
    ReadMetric(lib, filters, rest);
    var next := AfterName(lib, filters, rest);
    assert next == Tok(Good(rest)) || next == "{";
  }

  /** What follows the name of a printed selector. */
  lemma AfterName(lib: Lib, filters: seq<LabelFilter>, rest: seq<string>) returns (next: string)
    requires HasMetricGroup(filters)
    ensures next == (if |filters| == 1 then Tok(Good(rest)) else "{")
    ensures var s := Good(PrintMetric(lib, filters) + rest);
            s.toks != [] && Tok(s) == Escape(filters[0].value) && Advance(s).Parsed? && Advance(s).v == next
  {
    hide Escape, Tok, Advance;
    var name := Escape(filters[0].value);
    if |filters| == 1 {
      next := Tok(Good(rest));
      assert PrintMetric(lib, filters) + rest == [name] + rest;
      AdvanceOver(name, rest);
    } else {
      next := "{";
      var more := PrintFilterItems(lib, filters[1..]) + ["}"] + rest;
      assert PrintMetric(lib, filters) + rest == [name] + (["{"] + more);
      AdvanceOver(name, ["{"] + more);
      AdvanceOver("{", more);
    }
  }

  lemma {:induction false} ReadArgs(lib: Lib, args: seq<Expr>, rest: seq<string>)
    requires ReadableAll(lib, args) && QuotesFaithfully(lib)
    ensures ParseArgs(lib, Good(PrintList(lib, args) + rest)) == Parsed(RawAll(lib, args), Good(rest))
    decreases args, 1
  {
    hide MarkOf, ParseList, PrintItems, RawAll;
    MarksOfPunctuation();
    assert PrintList(lib, args) + rest == ["("] + PrintItems(lib, args) + [")"] + rest;
    ReadList(lib, args, "(", [], rest);
    assert [] + RawAll(lib, args) == RawAll(lib, args);
  }

  lemma {:induction false} ReadFunc(lib: Lib, e: Expr, rest: seq<string>)
    requires Readable(lib, e) && QuotesFaithfully(lib) && e.Func? && e.name != ""
    ensures ParseIdentExpr(lib, Good(Print(lib, e) + rest)) == Parsed(Raw(lib, e), Good(rest))
    decreases e, 0
  {
    hide MarkOf, KeywordOf, OpOf, IsIdentPrefix, ParseArgs, PrintList, RawAll;
    MarksOfPunctuation();
    Punctuation("(");
    var list := PrintList(lib, e.args) + rest;
    assert Print(lib, e) + rest == [e.name] + list;
    AdvanceOver(e.name, list);
    ListStarts(lib, e.args, rest);
    ReadArgs(lib, e.args, rest);
  }

  lemma ListStarts(lib: Lib, args: seq<Expr>, rest: seq<string>)
    ensures Tok(Good(PrintList(lib, args) + rest)) == "("
  {
  }

  lemma AggrTokens(lib: Lib, e: Expr)
    requires e.Aggr?
    ensures Print(lib, e) == [e.name] + PrintList(lib, e.args) + PrintModifier(e.modifier) + LimitTokens(e.limit)
  {
  }

  lemma {:induction false} ReadAggr(lib: Lib, e: Expr, rest: seq<string>)
    requires Readable(lib, e) && QuotesFaithfully(lib) && e.Aggr? && EndsAtom(Tok(Good(rest)))
    ensures ParseIdentExpr(lib, Good(Print(lib, e) + rest)) == Parsed(Raw(lib, e), Good(rest))
    decreases e, 0
  {
    hide MarkOf, KeywordOf, OpOf, IsIdentPrefix, ParseArgs, PrintList, RawAll, ParseAggrSuffix, IsModifier, PrintModifier, LimitTokens, EndsAtom, Advance;
    MarksOfPunctuation();
    Punctuation("(");
    var suffix := PrintModifier(e.modifier) + LimitTokens(e.limit) + rest;
    var list := PrintList(lib, e.args) + suffix;
    AggrTokens(lib, e);
    assert Print(lib, e) + rest == [e.name] + list;
    AdvanceOver(e.name, list);
    ListStarts(lib, e.args, suffix);
    ReadArgs(lib, e.args, suffix);
    ReadAggrSuffix(e.name, RawAll(lib, e.args), e.modifier, e.limit, rest);
  }

  function LimitTokens(limit: int): seq<string> { if limit > 0 then ["limit", Itoa(limit)] else [] }

  lemma ReadLimit(limit: int, rest: seq<string>)
    requires 0 <= limit <= MAX_INT64 && EndsAtom(Tok(Good(rest)))
    ensures ParseLimit(Good(LimitTokens(limit) + rest)) == Parsed(limit, Good(rest))
    ensures KeywordOf(Tok(Good(LimitTokens(limit) + rest))) != AggrModifier
  {
    hide MarkOf, KeywordOf, OpOf, Itoa, Atoi;
    EndsAtomFacts(Tok(Good(rest)));
    if limit > 0 {
      KeywordTokens();
      assert LimitTokens(limit) + rest == ["limit"] + ([Itoa(limit)] + rest);
      AdvanceOver("limit", [Itoa(limit)] + rest);
      AdvanceOver(Itoa(limit), rest);
      AtoiOfItoa(limit);
    } else {
      assert LimitTokens(limit) + rest == rest;
    }
  }

  lemma ReadAggrSuffix(name: string, args: seq<Expr>, modifier: Modifier, limit: int, rest: seq<string>)
    requires modifier == NO_MODIFIER || IsModifier(modifier, AggrModifier)
    requires 0 <= limit <= MAX_INT64 && EndsAtom(Tok(Good(rest)))
    ensures ParseAggrSuffix(name, args, NO_MODIFIER, Good(PrintModifier(modifier) + LimitTokens(limit) + rest)) ==
            Parsed(Aggr(name, args, modifier, limit), Good(rest))
  {
    hide MarkOf, KeywordOf, OpOf, ParseModifier, PrintModifier, ParseLimit, LimitTokens;
    var limits := LimitTokens(limit) + rest;
    assert PrintModifier(modifier) + LimitTokens(limit) + rest == PrintModifier(modifier) + limits;
    FirstOfModifier(modifier, limits);
    ReadLimit(limit, rest);
    if modifier == NO_MODIFIER {
      NoModifierPrintsNothing();
      assert [] + limits == limits;
    } else {
      ReadModifier(modifier, AggrModifier, limits);
    }
  }

  lemma {:induction false} ReadList(lib: Lib, es: seq<Expr>, open: string, before: seq<Expr>, rest: seq<string>)
    requires ReadableAll(lib, es) && QuotesFaithfully(lib)
    requires (open == "(" || open == ",") && (open == "," ==> es != [])
    ensures ParseList(lib, Good([open] + PrintItems(lib, es) + [")"] + rest), before) == Parsed(before + RawAll(lib, es), Good(rest))
    decreases es, 0
  {
    hide MarkOf, KeywordOf, OpOf, ParseExpr, Print, Readable, Raw, Advance;
    MarksOfPunctuation();
    var all := [open] + PrintItems(lib, es) + [")"] + rest;
    if es == [] {
      assert all == [open] + ([")"] + rest);
      AdvanceOver(open, [")"] + rest);
      AdvanceOver(")", rest);
      assert before + RawAll(lib, es) == before;
    } else {
      var more := (if |es| == 1 then [] else [","] + PrintItems(lib, es[1..])) + [")"] + rest;
      assert all == [open] + (Print(lib, es[0]) + more);
      AdvanceOver(open, Print(lib, es[0]) + more);
      FirstToken(lib, es[0]);
      assert Tok(Good(Print(lib, es[0]) + more)) == Print(lib, es[0])[0];
      assert Tok(Good(more)) == if |es| == 1 then ")" else ",";
      ReadExpr(lib, es[0], more);
      if |es| == 1 {
        assert more == [")"] + rest;
        AdvanceOver(")", rest);
        assert RawAll(lib, es) == [Raw(lib, es[0])];
      } else {
        assert more == [","] + PrintItems(lib, es[1..]) + [")"] + rest;
        ReadList(lib, es[1..], ",", before + [Raw(lib, es[0])], rest);
        assert before + [Raw(lib, es[0])] + RawAll(lib, es[1..]) == before + RawAll(lib, es);
      }
    }
  }

  /** Parsing the printed tokens of a readable tree yields that tree, with
      selectors unexpanded and the printed parens. */
  lemma ParseOfPrint(lib: Lib, e: Expr)
    requires Readable(lib, e) && QuotesFaithfully(lib)
    ensures ParseQuery(lib, Good(Print(lib, e))) == Some(Raw(lib, e))
  {
    ReadExpr(lib, e, []);
    assert Print(lib, e) + [] == Print(lib, e);
  }
}
