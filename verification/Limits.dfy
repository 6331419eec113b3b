/** Exactly which printed trees are read back. */
module Limits {
  import opened Text
  import opened Syntax
  import opened Library
  import opened Ident
  import opened Scan
  import opened Grammar
  import opened Printer
  import opened RoundTrip
  import opened Operators
  import opened Filters
  import opened Expansion
  import opened Normalize
  import opened Reading
  import opened Lexicon
  import opened Pipeline

  /** A metric named `nan` prints as a number. */
  lemma NameReadsAsNumber(lib: Lib)
    requires lib.parseFloat("nan") == Some(NaN)
    ensures var e := Metric([LabelFilter("__name__", "nan", false, false)], []);
            ParseQuery(lib, Good(Print(lib, e))) == Some(Number(NaN))
  {
    hide ParseOperations, ParseRollup, MarkOf, KeywordOf, OpOf, Escape;
    var e := Metric([LabelFilter("__name__", "nan", false, false)], []);
    NanIsNumberWord();
    assert Print(lib, e) == ["nan"];
    var s := Good(["nan"]);
    AdvanceOver("nan", []);
    assert ["nan"] + [] == ["nan"];
    EndOfQuery();
    assert ParseNumber(lib, s) == Parsed(Number(NaN), Good([]));
    assert ParseSingle(lib, s) == Parsed(Number(NaN), Good([]));
    ReadEnd(lib, Number(NaN), []);
  }

  lemma NanIsNumberWord()
    ensures Escape("nan") == "nan" && KeywordOf("nan") == NumberWord
  {
    assert Lower("nan") == "nan";
  }

  lemma EndOfQuery()
    ensures MarkOf("") == Eof && KeywordOf("") == NoKeyword && OpOf("").None?
  {
  }

  const PLUS := OpInfo(Add, false, NO_MODIFIER, NO_MODIFIER)

  /** A printed sum of two string literals is read as one string. */
  lemma StringSumReadsAsString(lib: Lib, a: string, b: string)
    requires QuotesFaithfully(lib)
    ensures var e := Binary(PLUS, Str(StringExpr(a, [])), Str(StringExpr(b, [])));
            ParseQuery(lib, Good(Print(lib, e))) == Some(Str(StringExpr("", [lib.quote(a), lib.quote(b)])))
  {
    hide ParseOperations, ParseRollup, MarkOf, ParseString, IsStringPrefix, IsNumberStart, KeywordOf;
    var e := Binary(PLUS, Str(StringExpr(a, [])), Str(StringExpr(b, [])));
    var tokens := [lib.quote(a), lib.quote(b)];
    NoModifierPrintsNothing();
    assert PrintOp(PLUS) == ["+"];
    PrintOfString(lib, a);
    PrintOfString(lib, b);
    assert PrintOperand(lib, e.left) == [lib.quote(a)] && PrintOperand(lib, e.right) == [lib.quote(b)];
    assert Print(lib, e) == PrintOperand(lib, e.left) + PrintOp(PLUS) + PrintOperand(lib, e.right);
    assert Print(lib, e) == [lib.quote(a), "+", lib.quote(b)];
    SumOfStrings(lib, a, b);
    StringTokenMarks(lib, a);
    NotANumber(lib.quote(a));
    EndOfQuery();
    var s := Good([lib.quote(a), "+", lib.quote(b)]);
    assert ParseUnsuffixed(lib, s) == Parsed(Str(StringExpr("", tokens)), Good([]));
    assert ParseSingle(lib, s) == Parsed(Str(StringExpr("", tokens)), Good([]));
    ReadEnd(lib, Str(StringExpr("", tokens)), []);
  }

  lemma PrintOfString(lib: Lib, v: string)
    ensures Print(lib, Str(StringExpr(v, []))) == [lib.quote(v)]
  {
  }

  lemma SumOfStrings(lib: Lib, a: string, b: string)
    requires QuotesFaithfully(lib)
    ensures ParseString(Good([lib.quote(a), "+", lib.quote(b)]), []) == Parsed([lib.quote(a), lib.quote(b)], Good([]))
  {
    hide KeywordOf, IsNumberStart, OpOf;
    StringTokenMarks(lib, a);
    StringTokenMarks(lib, b);
    var s := Good([lib.quote(a), "+", lib.quote(b)]);
    var s1, s2 := Good(["+", lib.quote(b)]), Good([lib.quote(b)]);
    assert s.toks[1..] == s1.toks && s1.toks[1..] == s2.toks;
    EndOfQuery();
    ReadString(lib, b, [lib.quote(a)], []);
    assert [lib.quote(b)] + [] == [lib.quote(b)] && [lib.quote(a)] + [lib.quote(b)] == [lib.quote(a), lib.quote(b)];
    assert [] + [lib.quote(a)] == [lib.quote(a)];
    assert MarkOf("+") == Plus;
    assert Advance(s) == Parsed("+", s1) && Advance(s1) == Parsed(lib.quote(b), s2);
    assert ParseString(s, []) == ParseString(s2, [lib.quote(a)]);
  }

  // ----- reading in order -----

  /** A single expression is no operation. */
  lemma {:induction false} SingleIsOperand(lib: Lib, s: Stream)
    ensures ParseSingle(lib, s).Parsed? ==> !ParseSingle(lib, s).v.Binary?
    decreases |s.toks|
  {
    hide KeywordOf, MarkOf, IsNumberStart, IsStringPrefix, IsIdentPrefix, ParseIdentExpr, ParseMetric, ParseWith, ParseRollup;
    var r := ParseUnsuffixed(lib, s);
    if s.toks != [] && Advance(s).Parsed? { SingleIsOperand(lib, Advance(s).rest); }
    if r.Parsed? { UnsuffixedIsOperand(lib, s); }
    assert ParseWith(lib, s).Parsed? ==> ParseWith(lib, s).v.With? by { WithIsWith(lib, s); }
    if r.Parsed? { RollupIsRollup(r.v, r.rest); }
  }

  lemma UnsuffixedIsOperand(lib: Lib, s: Stream)
    requires s.toks != [] && Advance(s).Parsed? && ParseSingle(lib, Advance(s).rest).Parsed? ==> !ParseSingle(lib, Advance(s).rest).v.Binary?
    ensures ParseUnsuffixed(lib, s).Parsed? ==> !ParseUnsuffixed(lib, s).v.Binary?
  {
    hide KeywordOf, MarkOf, IsNumberStart, IsStringPrefix, IsIdentPrefix, ParseSingle, ParseString, ParseList, ParseIdentExpr, ParseMetric;
    if s.toks != [] {
      NameStarts(lib, s);
      MetricIsMetric(lib, s);
    }
  }

  lemma MetricIsMetric(lib: Lib, s: Stream)
    requires s.toks != []
    ensures ParseMetric(lib, s).Parsed? ==> ParseMetric(lib, s).v.Metric?
  {
    hide KeywordOf, MarkOf, IsIdentPrefix, ParseLabelFilters;
  }

  /** What a name can start. */
  lemma NameStarts(lib: Lib, s: Stream)
    requires s.toks != []
    ensures var r := ParseIdentExpr(lib, s);
            r.Parsed? ==>
              || r.v.Metric?
              || (r.v.Aggr? && KeywordOf(Tok(s)) == AggrName)
              || (r.v.Func? && r.v.name == Tok(s) && IsIdentPrefix(Tok(s)) && KeywordOf(Tok(s)) != AggrName
                  && Advance(s).Parsed? && MarkOf(Advance(s).v) == LParen)
  {
    hide KeywordOf, MarkOf, IsIdentPrefix, ParseMetric, ParseFunc, ParseAggr, OpOf;
    MetricIsMetric(lib, s);
    FuncIsFunc(lib, s);
    AggrIsAggr(lib, s);
  }

  lemma FuncIsFunc(lib: Lib, s: Stream)
    requires s.toks != []
    ensures var r := ParseFunc(lib, s); r.Parsed? ==> r.v.Func? && r.v.name == Tok(s) && IsIdentPrefix(Tok(s))
  {
    hide IsIdentPrefix, ParseArgs;
  }

  lemma AggrIsAggr(lib: Lib, s: Stream)
    requires s.toks != []
    ensures ParseAggr(lib, s).Parsed? ==> ParseAggr(lib, s).v.Aggr?
  {
    hide KeywordOf, IsIdentPrefix, ParseArgs, ParseModifier, ParseLimit;
  }

  lemma WithIsWith(lib: Lib, s: Stream)
    ensures ParseWith(lib, s).Parsed? ==> ParseWith(lib, s).v.With?
  {
    hide KeywordOf, MarkOf, ParseExpr, ParseWithArgs;
  }

  lemma RollupIsRollup(e: Expr, s: Stream)
    ensures ParseRollup(e, s).Parsed? ==> ParseRollup(e, s).v.Rollup? && ParseRollup(e, s).v.expr == e
  {
    hide KeywordOf, MarkOf, ParseWindowAndStep, ParseOffset;
  }

  /** The operators that are read are appended to the tree on the left. */
  lemma {:induction false} OperationsRead(lib: Lib, left: Expr, s: Stream)
    ensures var r := ParseOperations(lib, left, s);
            r.Parsed? ==>
              && Operands(left) <= Operands(r.v) && OpsOf(left) <= OpsOf(r.v)
              && (match OpOf(Tok(s))
                  case None => r == Parsed(left, s)
                  case Some(op) =>
                    && s.toks != [] && Advance(s).Parsed? && ParseOpModifiers(op, Advance(s).rest).Parsed?
                    && |OpsOf(left)| < |OpsOf(r.v)|
                    && OpsOf(r.v)[|OpsOf(left)|] == ParseOpModifiers(op, Advance(s).rest).v)
    decreases |s.toks|
  {
    hide OpOf, ParseOpModifiers, ParseSingle, Balance;
    match OpOf(Tok(s))
    case None =>
    case Some(op) =>
      if s.toks != [] && Advance(s).Parsed? && ParseOpModifiers(op, Advance(s).rest).Parsed? {
        var m := ParseOpModifiers(op, Advance(s).rest);
        var right := ParseSingle(lib, m.rest);
        if right.Parsed? {
          SingleIsOperand(lib, m.rest);
          BalanceReads(left, m.v, right.v);
          OperationsRead(lib, Balance(left, m.v, right.v), right.rest);
        }
      }
  }

  /** A query that is no operation is a single expression. */
  lemma QueryIsSingle(lib: Lib, s: Stream, e: Expr)
    requires ParseQuery(lib, s) == Some(e) && !e.Binary?
    ensures ParseSingle(lib, s).Parsed? && ParseSingle(lib, s).v == e
  {
    hide OpOf, ParseSingle, ParseOperations;
    var x := ParseSingle(lib, s);
    SingleIsOperand(lib, s);
    OperationsRead(lib, x.v, x.rest);
  }

  // ----- names -----

  lemma NumberStarts(lib: Lib, s: Stream)
    requires s.toks != [] && KeywordOf(Tok(s)) == NumberWord
    ensures var r := ParseSingle(lib, s); r.Parsed? ==> r.v.Number? || r.v.Rollup?
  {
    hide MarkOf, ParseRollup, ParseIdentExpr, KeywordOf;
    var r := ParseUnsuffixed(lib, s);
    if r.Parsed? { RollupIsRollup(r.v, r.rest); }
  }

  lemma NothingStarts(lib: Lib, s: Stream)
    requires Tok(s) == ""
    ensures ParseSingle(lib, s).Failed?
  {
    EndOfQuery();
  }

  /** A selector whose filters have keys is read back if and only if its name,
      if it has one, is neither empty nor a number. */
  lemma MetricIsExact(lib: Lib, filters: seq<LabelFilter>)
    requires QuotesFaithfully(lib) && forall i | 0 <= i < |filters| :: IsReadableFilter(filters[i])
    ensures var e := Metric(filters, []);
            ParseQuery(lib, Good(Print(lib, e))) == Some(Raw(lib, e)) <==>
            (HasMetricGroup(filters) ==> IsMetricName(filters[0].value))
  {
    hide KeywordOf, MarkOf, ParseSingle, ParseQuery, Escape, RawMetric;
    var e := Metric(filters, []);
    if HasMetricGroup(filters) && !IsMetricName(filters[0].value) {
      var s := Good(Print(lib, e));
      assert s.toks != [] && Tok(s) == Escape(filters[0].value);
      if filters[0].value == "" {
        EmptyName();
        NothingStarts(lib, s);
      } else {
        NumberStarts(lib, s);
      }
      if ParseQuery(lib, s) == Some(Raw(lib, e)) { QueryIsSingle(lib, s, Raw(lib, e)); }
    } else {
      ParseOfPrint(lib, e);
    }
  }

  lemma EmptyName()
    ensures Escape("") == ""
  {
  }

  /** Every bare name that is no number is read back, keyword or not. */
  lemma BareNameIsExact(lib: Lib, name: string)
    requires QuotesFaithfully(lib) && name != ""
    ensures var e := NewMetric(name);
            ParseQuery(lib, Good(Print(lib, e))) == Some(Raw(lib, e)) <==> KeywordOf(Escape(name)) != NumberWord
  {
    hide KeywordOf, Escape, ParseQuery, Print, Raw;
    MetricIsExact(lib, [LabelFilter("__name__", name, false, false)]);
  }

  // ----- calls -----

  lemma CallStarts(lib: Lib, s: Stream)
    requires s.toks != [] && !IsMark(s, Plus)
    ensures var r := ParseSingle(lib, s); r.Parsed? && r.v.Func? ==> r.v.name == Tok(s) && IsFuncName(Tok(s))
  {
    hide KeywordOf, MarkOf, IsNumberPrefix, IsStringPrefix, IsIdentPrefix, ParseIdentExpr, ParseMetric, ParseWith, ParseRollup, ParseString, ParseList;
    WithIsWith(lib, s);
    NameStarts(lib, s);
    MetricIsMetric(lib, s);
    var r := ParseUnsuffixed(lib, s);
    if r.Parsed? { RollupIsRollup(r.v, r.rest); }
  }

  lemma PlusStarts(lib: Lib, toks: seq<string>)
    requires toks != [] && MarkOf(toks[0]) == LParen
    ensures var r := ParseSingle(lib, Good(["+"] + toks)); r.Parsed? ==> !r.v.Func?
  {
    hide ParseSingle, IsNumberStart, KeywordOf, MarkOf, IsFuncName, ParseRollup;
    CallStarts(lib, Good(toks));
    assert !IsFuncName(toks[0]) && MarkOf(toks[0]) != Plus by { ParenStartsNothing(toks[0]); }
    ReadSign(lib, "+", toks);
    SignMarks("+");
    var s := Good(["+"] + toks);
    assert Tok(s) == "+";
    var r := ParseUnsuffixed(lib, s);
    if r.Parsed? { RollupIsRollup(r.v, r.rest); }
    SingleAfter(lib, s);
  }

  lemma ParenStartsNothing(t: string)
    requires MarkOf(t) == LParen
    ensures !IsIdentPrefix(t) && !IsFuncName(t)
  {
  }

  /** A single expression that starts with no word. */
  lemma SingleAfter(lib: Lib, s: Stream)
    requires !IsWord(s, WithWord)
    ensures var u, r := ParseUnsuffixed(lib, s), ParseSingle(lib, s);
            r.Parsed? ==> u.Parsed? && (r == u || r == ParseRollup(u.v, u.rest))
  {
    hide ParseUnsuffixed, ParseRollup, KeywordOf, MarkOf;
  }

  /** A call with readable arguments is read back if and only if its name is a
      name for a function: no aggregate, no number and not `with`. */
  lemma CallIsExact(lib: Lib, name: string, args: seq<Expr>)
    requires QuotesFaithfully(lib) && name != "" && ReadableAll(lib, args)
    ensures var e := Func(name, args);
            ParseQuery(lib, Good(Print(lib, e))) == Some(Raw(lib, e)) <==> IsFuncName(name)
  {
    hide KeywordOf, MarkOf, ParseSingle, ParseQuery, RawAll, IsFuncName, Readable, PrintItems;
    var e := Func(name, args);
    if IsFuncName(name) {
      assert Readable(lib, e) by { CallIsReadable(lib, name, args); }
      ParseOfPrint(lib, e);
    } else if ParseQuery(lib, Good(Print(lib, e))) == Some(Raw(lib, e)) {
      var s := Good(Print(lib, e));
      assert s == Good([name] + PrintList(lib, args)) && Tok(s) == name && PrintList(lib, args)[0] == "(";
      QueryIsSingle(lib, s, Raw(lib, e));
      MarksOfPunctuation();
      if IsMark(s, Plus) {
        assert name == "+" by { PlusIsPlus(name); }
        PlusStarts(lib, PrintList(lib, args));
      } else {
        CallStarts(lib, s);
      }
    }
  }

  lemma PlusIsPlus(t: string)
    ensures MarkOf(t) == Plus <==> t == "+"
  {
  }

  lemma CallIsReadable(lib: Lib, name: string, args: seq<Expr>)
    requires IsFuncName(name) && ReadableAll(lib, args)
    ensures Readable(lib, Func(name, args))
  {
  }

  // ----- rollups -----

  /** A rollup of a readable expression is read back if and only if that is no
      negative number: the window is read before the minus. */
  lemma RollupIsExact(lib: Lib, e: Expr)
    requires QuotesFaithfully(lib) && e.Rollup? && Readable(lib, e.expr) && IsRollup(e.window, e.offset, e.step, e.inheritStep)
    ensures ParseQuery(lib, Good(Print(lib, e))) == Some(Raw(lib, e)) <==> !(e.expr.Number? && IsNegative(lib, e.expr.n))
  {
    hide KeywordOf, MarkOf, ParseSingle, ParseQuery, Readable, Print, Raw, IsRollup;
    if e.expr.Number? && IsNegative(lib, e.expr.n) {
      assert IsReadableNumber(lib, e.expr.n) by { ReadableParts(lib, e.expr); }
      NegativeRollup(lib, e);
    } else {
      assert Readable(lib, e) by { RollupIsReadable(lib, e); }
      ParseOfPrint(lib, e);
    }
  }

  lemma ReadableParts(lib: Lib, e: Expr)
    requires Readable(lib, e)
    ensures e.Number? ==> IsReadableNumber(lib, e.n)
  {
  }

  lemma RollupIsReadable(lib: Lib, e: Expr)
    requires e.Rollup? && Readable(lib, e.expr) && IsRollup(e.window, e.offset, e.step, e.inheritStep)
    requires !(e.expr.Number? && IsNegative(lib, e.expr.n))
    ensures Readable(lib, e)
  {
  }

  /** `(-1)[5m]` prints as `-1[5m]`, which is read as `0 - 1[5m]`. */
  lemma NegativeRollup(lib: Lib, e: Expr)
    requires e.Rollup? && e.expr.Number? && IsNegative(lib, e.expr.n) && IsReadableNumber(lib, e.expr.n)
    requires IsRollup(e.window, e.offset, e.step, e.inheritStep)
    ensures ParseQuery(lib, Good(Print(lib, e))) == Some(Negated(e.(expr := Number(Magnitude(lib, e.expr.n).value))))
    ensures Raw(lib, e).Rollup?
  {
    hide MarkOf, KeywordOf, OpOf, ParseUnsuffixed, ParseRollup, ParseWith, IsRollup, PrintWindow, PrintOffset, Print, Raw, Advance;
    hide IsNumberStart, ParseOperations, Readable, RawNumber;
    var n := e.expr.n;
    var t, v := lib.formatFloat(n), Magnitude(lib, n).value;
    var suffix := PrintWindow(e.window, e.step, e.inheritStep) + PrintOffset(e.offset) + [];
    EndOfQuery();
    PrintRolled(lib, e, []);
    PrintOfNumber(lib, n);
    SignedTokens(t, suffix);
    ReadRollup(Number(v), e.window, e.offset, e.step, e.inheritStep, []);
    SuffixStarts(e.window, e.offset, e.step, e.inheritStep, []);
    ReadNumeral(lib, t[1..], v, suffix);
    NumeralMarks(t[1..]);
    assert Tok(Good([t[1..]] + suffix)) == t[1..];
    var x := e.(expr := Number(v));
    assert ParseSingle(lib, Good([t[1..]] + suffix)) == Parsed(x, Good([]));
    ReadSign(lib, "-", [t[1..]] + suffix);
    SignMarks("-");
    var s := Good(Print(lib, e));
    assert Print(lib, e) + [] == Print(lib, e);
    assert s == Good(["-"] + ([t[1..]] + suffix)) && Tok(s) == "-";
    assert ParseSingle(lib, s) == Parsed(Negated(x), Good([]));
    ReadEnd(lib, Negated(x), []);
  }

  // ----- operations -----

  lemma {:induction false} StringGrows(s: Stream, tokens: seq<string>)
    ensures var r := ParseString(s, tokens); r.Parsed? ==> |r.v| > |tokens|
    decreases |s.toks|
  {
    hide MarkOf, IsStringPrefix, IsIdentPrefix;
    if s.toks != [] {
      var a := Advance(s);
      if a.Parsed? && a.rest.toks != [] {
        var b := Advance(a.rest);
        if b.Parsed? { StringGrows(b.rest, tokens + [Tok(s)]); }
      }
    }
  }

  /** A literal that does not end is read together with what follows. */
  lemma StringGoesOn(lib: Lib, v: string, toks: seq<string>)
    requires QuotesFaithfully(lib) && ContinuesString(toks)
    ensures var r := ParseString(Good([lib.quote(v), "+"] + toks), []); r.Parsed? ==> |r.v| > 1
  {
    hide MarkOf, IsStringPrefix, IsIdentPrefix, Advance, Tok, ParseString;
    StringTokenMarks(lib, v);
    var q := lib.quote(v);
    assert [q, "+"] + toks == [q] + (["+"] + toks);
    AdvanceOver(q, ["+"] + toks);
    AdvanceOver("+", toks);
    SignMarks("+");
    StringStep(q, toks);
    assert [] + [q] == [q];
    StringGrows(Good(toks), [q]);
  }

  lemma StringStep(q: string, toks: seq<string>)
    requires IsStringPrefix(q) && ContinuesString(toks)
    requires var s := Good([q, "+"] + toks);
             && Tok(s) == q && Advance(s) == Parsed("+", Good(["+"] + toks)) && MarkOf("+") == Plus
             && Advance(Good(["+"] + toks)) == Parsed(Tok(Good(toks)), Good(toks))
    ensures ParseString(Good([q, "+"] + toks), []) == ParseString(Good(toks), [] + [q])
  {
    hide MarkOf, IsStringPrefix, IsIdentPrefix;
    EmptyIsEof();
    assert toks == [toks[0]] + toks[1..];
    AdvanceOver(toks[0], toks[1..]);
  }

  /** A string on the left is misread if it does not end before the `+`. */
  lemma StringMustEnd(lib: Lib, v: string, toks: seq<string>)
    requires QuotesFaithfully(lib) && !EndsString(toks)
    ensures var r := ParseSingle(lib, Good([lib.quote(v)] + toks)); r.Parsed? ==> r.v != Str(StringExpr("", [lib.quote(v)]))
  {
    hide MarkOf, KeywordOf, ParseString, ParseRollup, ContinuesString, IsNumberStart, IsStringPrefix, IsIdentPrefix;
    StringTokenMarks(lib, v);
    NotANumber(lib.quote(v));
    assert toks[0] == "+" by { PlusIsPlus(toks[0]); }
    assert [lib.quote(v)] + toks == [lib.quote(v), "+"] + toks[1..];
    StringGoesOn(lib, v, toks[1..]);
    var s := Good([lib.quote(v)] + toks);
    SingleAfter(lib, s);
    var u := ParseUnsuffixed(lib, s);
    if u.Parsed? { RollupIsRollup(u.v, u.rest); }
  }

  /** The name of an aggregate before a word is no metric. */
  lemma AggregateMustEnd(lib: Lib, t: string, toks: seq<string>)
    requires KeywordOf(t) == AggrName && IsIdentPrefix(t) && toks != [] && IsIdentPrefix(toks[0]) && KeywordOf(toks[0]) == NoKeyword
    ensures ParseSingle(lib, Good([t] + toks)).Failed?
  {
    hide MarkOf, KeywordOf, IsIdentPrefix, OpOf, ParseMetric, ParseFunc, ParseArgs, ParseModifier;
    IdentMarks(t);
    IdentMarks(toks[0]);
    assert !IsNumberStart(t) by { NotANumeral(t); }
    AdvanceOver(t, toks);
    assert toks[0] != "" by { IdentIsSome(toks[0]); }
    var s := Good([t] + toks);
    assert ParseIdentExpr(lib, s) == ParseAggr(lib, s) == Failed;
  }

  lemma IdentIsSome(t: string)
    requires IsIdentPrefix(t)
    ensures t != ""
  {
  }

  /** The operand on the left is read only if what follows it may follow it. */
  lemma LeftMustEnd(lib: Lib, e: Expr, toks: seq<string>)
    requires QuotesFaithfully(lib) && Readable(lib, e) && toks != [] && (exists op :: toks[0] == OpText(op))
    requires !MayPrecede(lib, e, toks)
    ensures var r := ParseSingle(lib, Good(PrintOperand(lib, e) + toks)); r.Parsed? ==> r.v != WrapIf(e.Binary?, Raw(lib, e))
  {
    hide MarkOf, KeywordOf, OpOf, IsIdentPrefix, Escape, EndsString, ParseSingle, Readable, IsNumberStart;
    var op :| toks[0] == OpText(op);
    OperatorToken(op);
    BracketEndsNothing(toks[0]);
    if e.Str? {
      assert PrintOperand(lib, e) == [lib.quote(e.se.s)];
      StringMustEnd(lib, e.se.s, toks);
    } else {
      var t := Escape(e.filters[0].value);
      assert e.filters[0].value != "" by { MetricIsNamed(lib, e); }
      EscapedIsIdent(e.filters[0].value);
      assert PrintOperand(lib, e) == [t];
      AggregateMustEnd(lib, t, toks);
    }
  }

  lemma MetricIsNamed(lib: Lib, e: Expr)
    requires Readable(lib, e) && e.Metric? && HasMetricGroup(e.filters)
    ensures e.filters[0].value != ""
  {
  }

  lemma ModifierIsSome(s: Stream)
    ensures ParseModifier(s).Parsed? ==> ParseModifier(s).v != NO_MODIFIER
  {
    hide KeywordOf, MarkOf, ParseIdents;
    if ParseModifier(s).Parsed? { assert |Lower(Tok(s))| > 0; }
  }

  /** A modifier word at the start of the right operand is read as one. */
  lemma ModifiersMustEnd(info: OpInfo, rest: seq<string>)
    requires IsOpInfo(info) && !EndsModifiers(info, Tok(Good(rest)))
    ensures var r := ParseOpModifiers(info.op, Good(PrintOp(info)[1..] + rest)); r.Parsed? ==> r.v != info
  {
    hide MarkOf, KeywordOf, ParseModifier, PrintModifier, ParseBool, IsModifier;
    var joins := PrintModifier(info.join) + rest;
    var groups := PrintModifier(info.group) + joins;
    var bools := if info.isBool then ["bool"] else [];
    assert PrintOp(info)[1..] + rest == bools + groups;
    NoModifierPrintsNothing();
    if info.group == NO_MODIFIER {
      assert groups == rest && info.join == NO_MODIFIER;
      var s := Good(bools + rest);
      if !info.isBool && KeywordOf(Tok(Good(rest))) == BoolWord {
        assert bools + rest == rest;
        BoolIsRead(info.op, s);
      } else {
        ReadBool(info.op, info.isBool, rest);
        ModifierIsSome(Good(rest));
      }
    } else {
      assert joins == rest;
      assert IsIdentPrefix(info.group.op) && KeywordOf(info.group.op) == GroupModifier by { GroupIsWord(info); }
      FirstOfModifier(info.group, joins);
      ReadBool(info.op, info.isBool, groups);
      ReadModifier(info.group, GroupModifier, joins);
      ModifierIsSome(Good(rest));
    }
  }

  lemma GroupIsWord(info: OpInfo)
    requires IsOpInfo(info) && info.group != NO_MODIFIER
    ensures IsIdentPrefix(info.group.op) && KeywordOf(info.group.op) == GroupModifier
  {
  }

  lemma BoolIsRead(op: BinOp, s: Stream)
    requires IsWord(s, BoolWord)
    ensures ParseBool(op, s).Parsed? ==> ParseBool(op, s).v
    ensures var r := ParseOpModifiers(op, s); r.Parsed? ==> r.v.isBool
  {
    hide KeywordOf, ParseModifier;
  }

  /** An operation on readable operands is read back if and only if its
      operands fit: a string literal on the left of `+` ends there, the bare
      name of an aggregate is not followed by a word, and the right operand
      does not start with a word that modifies the operator. */
  lemma OperationIsExact(lib: Lib, e: Expr)
    requires QuotesFaithfully(lib) && e.Binary? && IsOpInfo(e.info) && Readable(lib, e.left) && Readable(lib, e.right)
    ensures ParseQuery(lib, Good(Print(lib, e))) == Some(Raw(lib, e)) <==> OperandsFit(lib, e.info, e.left, e.right)
  {
    hide KeywordOf, MarkOf, OpOf, ParseSingle, ParseOperations, Readable, IsOpInfo, OperandsFit, PrintOperand, PrintOp;
    if OperandsFit(lib, e.info, e.left, e.right) {
      assert Readable(lib, e) by { OperationIsReadable(lib, e); }
      ParseOfPrint(lib, e);
    } else if ParseQuery(lib, Good(Print(lib, e))) == Some(Raw(lib, e)) {
      OperationIsMisread(lib, e);
    }
  }

  lemma OperationIsReadable(lib: Lib, e: Expr)
    requires e.Binary? && IsOpInfo(e.info) && Readable(lib, e.left) && Readable(lib, e.right) && OperandsFit(lib, e.info, e.left, e.right)
    ensures Readable(lib, e)
  {
  }

  /** An operation that is read starts with its left operand and operator. */
  lemma FirstOperation(lib: Lib, s: Stream, info: OpInfo, left: Expr, right: Expr)
    requires ParseQuery(lib, s) == Some(Binary(info, left, right)) && !left.Binary? && !right.Binary?
    ensures var x := ParseSingle(lib, s);
            && x.Parsed? && x.v == left && OpOf(Tok(x.rest)).Some? && Advance(x.rest).Parsed?
            && var m := ParseOpModifiers(OpOf(Tok(x.rest)).value, Advance(x.rest).rest); m.Parsed? && m.v == info
  {
    hide KeywordOf, MarkOf, OpOf, ParseSingle, ParseOperations, ParseOpModifiers, Advance;
    var x := ParseSingle(lib, s);
    SingleIsOperand(lib, s);
    OperationsRead(lib, x.v, x.rest);
    var e := Binary(info, left, right);
    assert Operands(e) == [left] + [right] && OpsOf(e) == [info];
    assert Operands(x.v)[0] == Operands(e)[0];
  }

  lemma OperationIsMisread(lib: Lib, e: Expr)
    requires QuotesFaithfully(lib) && e.Binary? && IsOpInfo(e.info) && Readable(lib, e.left) && Readable(lib, e.right)
    requires !OperandsFit(lib, e.info, e.left, e.right)
    ensures ParseQuery(lib, Good(Print(lib, e))) != Some(Raw(lib, e))
  {
    hide KeywordOf, MarkOf, OpOf, ParseSingle, Readable, IsOpInfo, MayPrecede, EndsModifiers, PrintOperand, OpText, ParseQuery;
    hide ParseOpModifiers, Advance, Tok, WrapIf;
    var left, right := WrapIf(e.left.Binary?, Raw(lib, e.left)), WrapIf(e.right.Binary?, Raw(lib, e.right));
    var operand := PrintOperand(lib, e.right);
    var toks := PrintOp(e.info) + operand;
    OperationTokens(lib, e);
    OperatorToken(e.info.op);
    RawIsOperand(lib, e.left);
    RawIsOperand(lib, e.right);
    if !MayPrecede(lib, e.left, toks) {
      LeftMustEnd(lib, e.left, toks);
    } else {
      ReadOperand(lib, e.left, toks);
      AdvanceOver(OpText(e.info.op), PrintOp(e.info)[1..] + operand);
      ModifiersMustEnd(e.info, operand);
    }
    if ParseQuery(lib, Good(Print(lib, e))) == Some(Raw(lib, e)) {
      FirstOperation(lib, Good(Print(lib, e)), e.info, left, right);
    }
  }

  lemma OperationTokens(lib: Lib, e: Expr)
    requires e.Binary?
    ensures Raw(lib, e) == Binary(e.info, WrapIf(e.left.Binary?, Raw(lib, e.left)), WrapIf(e.right.Binary?, Raw(lib, e.right)))
    ensures var toks := PrintOp(e.info) + PrintOperand(lib, e.right);
            && Print(lib, e) == PrintOperand(lib, e.left) + toks
            && toks == [OpText(e.info.op)] + (PrintOp(e.info)[1..] + PrintOperand(lib, e.right))
            && toks[0] == OpText(e.info.op) && Tok(Good(toks)) == toks[0]
  {
    hide PrintOperand, PrintOp;
    assert PrintOp(e.info) != [] && PrintOp(e.info)[0] == OpText(e.info.op) by { OpComesFirst(e.info); }
    var operand := PrintOperand(lib, e.right);
    assert PrintOperand(lib, e.left) + PrintOp(e.info) + operand == PrintOperand(lib, e.left) + (PrintOp(e.info) + operand);
  }

  lemma OpComesFirst(info: OpInfo)
    ensures PrintOp(info) != [] && PrintOp(info)[0] == OpText(info.op)
  {
    hide OpText;
  }

  // ----- trees -----

  /** A tree without parens and WITH nodes whose subtrees can be read back and
      whose own numerals, modifiers and durations are well formed. */
  predicate HasReadableParts(lib: Lib, e: Expr) {
    match e
    case Metric(filters, _) => forall i | 0 <= i < |filters| :: IsReadableFilter(filters[i])
    case Func(_, args) => ReadableAll(lib, args)
    case Binary(info, left, right) => IsOpInfo(info) && Readable(lib, left) && Readable(lib, right)
    case Rollup(inner, window, offset, step, inheritStep) => IsRollup(window, offset, step, inheritStep) && Readable(lib, inner)
    case _ => Readable(lib, e)
  }

  /** Readable is exact: a tree with readable parts is read back if and only if
      it is readable. */
  lemma ReadableIsExact(lib: Lib, e: Expr)
    requires QuotesFaithfully(lib) && HasReadableParts(lib, e)
    ensures ParseQuery(lib, Good(Print(lib, e))) == Some(Raw(lib, e)) <==> Readable(lib, e)
  {
    hide ParseQuery, Print, Raw, OperandsFit, IsFuncName, IsMetricName, IsRollup, IsOpInfo, IsNegative;
    if Readable(lib, e) {
      ParseOfPrint(lib, e);
    } else {
      match e
      case Metric(filters, raw) =>
        MetricIsExact(lib, filters);
        RawDoesNotMatter(lib, filters, raw);
      case Func(name, args) => CallIsExact(lib, name, args);
      case Binary(_, _, _) => OperationIsExact(lib, e);
      case Rollup(_, _, _, _, _) => RollupIsExact(lib, e);
    }
  }

  lemma RawDoesNotMatter(lib: Lib, filters: seq<LabelFilter>, raw: seq<LabelFilterExpr>)
    ensures Print(lib, Metric(filters, raw)) == Print(lib, Metric(filters, [])) && Raw(lib, Metric(filters, raw)) == Raw(lib, Metric(filters, []))
  {
  }

  // ----- signed numbers -----

  /** A negative number that is printed as a minus and a numeral is read as
      what that folds to, so it survives if and only if that is the number. */
  lemma NegativeIsExact(lib: Lib, fl: Floats, was: seq<Entry>, n: Num)
    requires LibraryOk(lib) && ScopeWellFormed(was) && IsReadableNumber(lib, n) && IsNegative(lib, n)
    ensures Parse(lib, fl, AsWritten, was, Good(Print(lib, Number(n)))) ==
            Ok(Number(fl.minus(Finite(0.0), Magnitude(lib, n).value)))
    ensures Parse(lib, fl, AsWritten, was, Good(Print(lib, Number(n)))) == Ok(Number(n)) <==> StableNumber(lib, fl, n)
  {
    hide Expand, ParseQuery, Print, IsReadableNumber, RemoveParens, Simplify;
    var e := Number(n);
    assert Readable(lib, e);
    ParseOfPrint(lib, e);
    assert Raw(lib, e) == Negated(Number(Magnitude(lib, n).value)) by { RawOfNegative(lib, n); }
    NegatedExpands(lib, fl, was, Magnitude(lib, n).value);
  }

  lemma RawOfNegative(lib: Lib, n: Num)
    requires IsReadableNumber(lib, n) && IsNegative(lib, n)
    ensures Raw(lib, Number(n)) == Negated(Number(Magnitude(lib, n).value))
  {
  }

  /** The negative zero that `0 * -1` folds to prints as `-0` and is read back
      as zero. */
  lemma NegativeZeroIsLost(lib: Lib, fl: Floats, was: seq<Entry>)
    requires LibraryOk(lib) && ScopeWellFormed(was)
    requires lib.formatFloat(NegZero) == "-0" && lib.parseFloat("0") == Some(Finite(0.0)) && fl.minus(Finite(0.0), Finite(0.0)) == Finite(0.0)
    ensures Parse(lib, fl, AsWritten, was, Good(Print(lib, Number(NegZero)))) == Ok(Number(Finite(0.0)))
  {
    hide Parse, Print;
    assert "-0"[1..] == "0" && IsNumberStart("0");
    NegativeIsExact(lib, fl, was, NegZero);
  }

  // ----- filters -----

  /** A filter survives printing and reading if and only if its regexp
      compiles and, for the label `__name__`, unescaping leaves its value. */
  lemma FilterIsExact(lib: Lib, scope: seq<Entry>, f: LabelFilter)
    requires LibraryOk(lib) && ScopeWellFormed(scope) && IsByteString(f.key)
    ensures ExpandFilter(lib, AsWritten, scope, RawFilter(lib, f)) == Ok([f]) <==>
            (f.key == "__name__" ==> Unescape(f.value) == f.value) && (f.isRegexp ==> lib.regexpCompiles(f.value))
  {
    hide ExpandString, Escape, Unescape;
    QuotedStringExpands(lib, scope, f.value);
    EscapeRoundTrip(f.key);
  }

  lemma {:induction false} FiltersAreSingle(lib: Lib, scope: seq<Entry>, fs: seq<LabelFilter>)
    requires LibraryOk(lib) && ScopeWellFormed(scope)
    ensures RawWellFormed(RawFilters(lib, fs))
    ensures var r := ExpandFilters(lib, AsWritten, scope, RawFilters(lib, fs));
            r.Ok? ==> |r.value| == |fs| && forall i | 0 <= i < |fs| :: ExpandFilter(lib, AsWritten, scope, RawFilter(lib, fs[i])) == Ok([r.value[i]])
  {
    hide Escape, Unescape, ExpandString, ToLabelFilter;
    RawFiltersWellFormed(lib, fs);
    if fs != [] {
      FiltersAreSingle(lib, scope, fs[1..]);
      var raw := RawFilters(lib, fs);
      assert raw[0] == RawFilter(lib, fs[0]) && raw[1..] == RawFilters(lib, fs[1..]);
    }
  }

  /** A selector that expands to itself has filters that do. */
  lemma OwnFilters(lib: Lib, scope: seq<Entry>, filters: seq<LabelFilter>)
    requires LibraryOk(lib) && ScopeWellFormed(scope) && RawWellFormed(RawMetric(lib, filters))
    requires HasMetricGroup(filters) ==> IsByteString(filters[0].value)
    ensures var r := ExpandFilters(lib, AsWritten, scope, RawMetric(lib, filters));
            r.Ok? ==>
              && |r.value| == |filters|
              && (HasMetricGroup(filters) ==> r.value[0] == filters[0])
              && forall i | (if HasMetricGroup(filters) then 1 else 0) <= i < |filters| ::
                   ExpandFilter(lib, AsWritten, scope, RawFilter(lib, filters[i])) == Ok([r.value[i]])
  {
    hide ExpandFilter, Escape, Unescape, ExpandString, ScopeWellFormed;
    if HasMetricGroup(filters) {
      FiltersAreSingle(lib, scope, filters[1..]);
      NameExpands(lib, scope, filters[0].value);
      var raw := RawMetric(lib, filters);
      assert raw[1..] == RawFilters(lib, filters[1..]);
      var r := ExpandFilters(lib, AsWritten, scope, raw);
      if r.Ok? {
        var rest := ExpandFilters(lib, AsWritten, scope, RawFilters(lib, filters[1..])).value;
        assert r.value == [filters[0]] + rest;
        assert forall i | 1 <= i < |filters| :: r.value[i] == rest[i - 1] && filters[i] == filters[1..][i - 1];
      }
    } else {
      FiltersAreSingle(lib, scope, filters);
    }
  }

  lemma StableFilters(lib: Lib, scope: seq<Entry>, filters: seq<LabelFilter>, first: nat)
    requires LibraryOk(lib) && ScopeWellFormed(scope) && first <= |filters|
    requires forall i | 0 <= i < |filters| :: IsByteString(filters[i].key)
    requires forall i | first <= i < |filters| :: ExpandFilter(lib, AsWritten, scope, RawFilter(lib, filters[i])) == Ok([filters[i]])
    ensures forall i | first <= i < |filters| :: StableFilter(lib, filters[i])
  {
    hide ExpandFilter, RawFilter;
    forall i | first <= i < |filters| ensures StableFilter(lib, filters[i]) { FilterIsExact(lib, scope, filters[i]); }
  }

  /** Under definitions that all have parameters, a selector that expands to
      itself is stable. */
  lemma SelectorMustBeStable(lib: Lib, scope: seq<Entry>, filters: seq<LabelFilter>)
    requires LibraryOk(lib) && ScopeWellFormed(scope) && (forall name :: KeepsName(scope, name))
    requires forall i | 0 <= i < |filters| :: IsByteString(filters[i].key)
    requires HasMetricGroup(filters) ==> IsByteString(filters[0].value)
    requires RawWellFormed(RawMetric(lib, filters)) && ExpandMetric(lib, AsWritten, scope, RawMetric(lib, filters)) == Ok(Metric(filters, []))
    ensures StableMetric(lib, scope, filters)
  {
    hide ExpandFilter, ExpandFilters, RawMetric, Escape, WithoutRepeatedKeys, StableFilter, Lookup, KeepsName;
    OwnFilters(lib, scope, filters);
    var fs := ExpandFilters(lib, AsWritten, scope, RawMetric(lib, filters)).value;
    var own := WithoutRepeatedKeys(lib, fs);
    FirstFilterStays(lib, fs);
    if HasMetricGroup(own) && Lookup(scope, Escape(own[0].value)) >= 0 {
      var i := Lookup(scope, Escape(own[0].value));
      assert scope[i].params != [] by { Keeps(scope, Escape(own[0].value)); }
      assert Call(lib, AsWritten, scope, i, None) == Ok(NewMetric(scope[i].name));
      var merged := [LabelFilter("__name__", scope[i].name, false, false)] + own[1..];
      assert filters == WithoutRepeatedKeys(lib, merged);
      FirstFilterStays(lib, merged);
      assert own == [own[0]] + own[1..];
    }
    assert |own| == |fs|;
    NothingRemoved(lib, fs);
    assert own == fs;
    assert filters == fs;
    var first := if HasMetricGroup(filters) then 1 else 0;
    assert forall i | first <= i < |filters| :: ExpandFilter(lib, AsWritten, scope, RawFilter(lib, filters[i])) == Ok([filters[i]]);
    StableFilters(lib, scope, filters, first);
    if HasMetricGroup(filters) { assert KeepsName(scope, Escape(filters[0].value)); }
  }

  lemma Keeps(scope: seq<Entry>, name: string)
    requires KeepsName(scope, name) && Lookup(scope, name) >= 0
    ensures scope[Lookup(scope, name)].params != []
  {
  }

  lemma QueryOfSelector(lib: Lib, fl: Floats, was: seq<Entry>, filters: seq<LabelFilter>)
    requires LibraryOk(lib) && ScopeWellFormed(was) && IsReadableMetric(filters) && forall name :: KeepsName(was, name)
    ensures RawWellFormed(RawMetric(lib, filters))
    ensures Parse(lib, fl, AsWritten, was, Good(Print(lib, Metric(filters, [])))) == ExpandMetric(lib, AsWritten, was, RawMetric(lib, filters))
  {
    hide ExpandFilters, RawMetric, Escape, WithoutRepeatedKeys, Lookup, KeepsName, IsReadableMetric, ParseQuery, Print;
    var e := Metric(filters, []);
    assert Readable(lib, e);
    ParseOfPrint(lib, e);
    assert Raw(lib, e) == Metric([], RawMetric(lib, filters)) by { RawOfMetric(lib, filters); }
    RawIsWellFormed(lib, e);
    var r := ExpandMetric(lib, AsWritten, was, RawMetric(lib, filters));
    if r.Ok? {
      ReadIsMetric(lib, was, RawMetric(lib, filters));
      FinishOfParts(fl, r.value);
    }
  }

  lemma RawOfMetric(lib: Lib, filters: seq<LabelFilter>)
    ensures Raw(lib, Metric(filters, [])) == Metric([], RawMetric(lib, filters))
  {
  }

  lemma ReadIsMetric(lib: Lib, scope: seq<Entry>, raw: seq<LabelFilterExpr>)
    requires ScopeWellFormed(scope) && RawWellFormed(raw) && forall name :: KeepsName(scope, name)
    ensures var r := ExpandMetric(lib, AsWritten, scope, raw); r.Ok? ==> r.value.Metric?
  {
    hide ExpandFilters, Escape, WithoutRepeatedKeys, Lookup, KeepsName;
    var fs := ExpandFilters(lib, AsWritten, scope, raw);
    if fs.Ok? && HasMetricGroup(WithoutRepeatedKeys(lib, fs.value)) {
      var name := Escape(WithoutRepeatedKeys(lib, fs.value)[0].value);
      if Lookup(scope, name) >= 0 { Keeps(scope, name); }
    }
  }

  /** A selector that is parsed as intended survives printing and parsing if
      and only if it has no repeated filters, its regexps compile, and
      unescaping leaves the values of all `__name__` filters but the first,
      plain one. The name must be written as it is if it is that of a
      definition. */
  lemma SelectorIsExact(lib: Lib, fl: Floats, was: seq<Entry>, filters: seq<LabelFilter>)
    requires LibraryOk(lib) && ScopeWellFormed(was) && (forall name :: KeepsName(was, name)) && IsReadableMetric(filters)
    requires forall i | 0 <= i < |filters| :: IsByteString(filters[i].key)
    requires HasMetricGroup(filters) ==> IsByteString(filters[0].value)
    ensures Parse(lib, fl, AsWritten, was, Good(Print(lib, Metric(filters, [])))) == Ok(Metric(filters, [])) <==>
            StableMetric(lib, was, filters)
  {
    hide ExpandMetric, Print, Parse, StableMetric, KeepsName, IsReadableMetric;
    QueryOfSelector(lib, fl, was, filters);
    if StableMetric(lib, was, filters) {
      MetricExpands(lib, was, filters);
    } else if ExpandMetric(lib, AsWritten, was, RawMetric(lib, filters)) == Ok(Metric(filters, [])) {
      SelectorMustBeStable(lib, was, filters);
    }
  }
}
