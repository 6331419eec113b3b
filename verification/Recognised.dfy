/** Every written form that fits what follows is recognised by the grammar,
    as the tree of that form. */
module Recognised {
  import opened Text
  import opened Syntax
  import opened Library
  import opened Scan
  import opened Operators
  import opened Grammar
  import opened Lexicon
  import opened Printer
  import opened RoundTrip
  import opened Forms
  import opened Accepted

  // ----- lists -----

  lemma NoItemsShape(open: string, trailing: bool, close: string, rest: seq<string>)
    ensures [open] + Items([], trailing) + [close] + rest == [open] + ([close] + rest)
  {
  }

  lemma ItemShape(open: string, item: seq<string>, more: seq<seq<string>>, trailing: bool, close: string, rest: seq<string>)
    ensures [open] + Items([item] + more, trailing) + [close] + rest == [open] + (item + (Follow(more, trailing) + ([close] + rest)))
  {
    hide Follow;
    assert ([item] + more)[1..] == more;
  }

  lemma FollowShape(more: seq<seq<string>>, trailing: bool, close: string, rest: seq<string>)
    ensures Follow(more, trailing) + ([close] + rest) ==
            if more == [] && !trailing then [close] + rest
            else [","] + Items(more, trailing && more != []) + [close] + rest
  {
  }

  // ----- sums of strings -----

  lemma {:induction false} ReadSum(sum: seq<string>, before: seq<string>, rest: seq<string>)
    requires FitsSum(sum, rest)
    ensures ParseString(Good(SumTokens(sum) + rest), before) == Parsed(before + sum, Good(rest))
    decreases |sum|
  {
    hide MarkOf, IsStringPrefix, IsIdentPrefix, Advance, ParseString, ContinuesString;
    if |sum| == 1 {
      StringEndsAt(sum[0], before, rest);
      assert SumTokens(sum) == [sum[0]] == sum;
    } else {
      var more := SumTokens(sum[1..]) + rest;
      StringGoesOn(sum[0], before, more);
      ReadSum(sum[1..], before + [sum[0]], rest);
      assert SumTokens(sum) + rest == [sum[0]] + (["+"] + more);
      assert before + [sum[0]] + sum[1..] == before + sum;
    }
  }

  lemma StringEndsAt(t: string, before: seq<string>, rest: seq<string>)
    requires (IsStringPrefix(t) || IsIdentPrefix(t)) && EndsString(rest)
    ensures ParseString(Good([t] + rest), before) == Parsed(before + [t], Good(rest))
  {
    hide MarkOf, IsStringPrefix, IsIdentPrefix;
    AdvanceOver(t, rest);
    EmptyIsEof();
    NoPrefix();
    if rest != [] && MarkOf(rest[0]) == Plus {
      var toks := rest[1..];
      assert rest == [rest[0]] + toks;
      AdvanceOver(rest[0], toks);
      if toks != [] {
        assert toks == [toks[0]] + toks[1..];
        AdvanceOver(toks[0], toks[1..]);
      }
    }
  }

  lemma StringGoesOn(t: string, before: seq<string>, more: seq<string>)
    requires (IsStringPrefix(t) || IsIdentPrefix(t)) && ContinuesString(more)
    ensures ParseString(Good([t] + (["+"] + more)), before) == ParseString(Good(more), before + [t])
  {
    hide MarkOf, IsStringPrefix, IsIdentPrefix;
    AdvanceOver(t, ["+"] + more);
    AdvanceOver("+", more);
    assert MarkOf("+") == Plus by { SignMarks("+"); }
    EmptyIsEof();
    assert more == [more[0]] + more[1..];
    AdvanceOver(more[0], more[1..]);
  }

  // ----- names and modifiers -----

  lemma NamesStep(open: string, name: string, tail: seq<string>, before: seq<string>)
    requires IsIdentPrefix(name) && tail != []
    ensures var r := ParseIdentList(Good([open] + ([name] + tail)), before);
            && (MarkOf(tail[0]) == Comma ==> r == ParseIdentList(Good(tail), before + [name]))
            && (MarkOf(tail[0]) == RParen ==> r == Parsed(before + [name], Good(tail[1..])))
  {
    hide MarkOf, IsIdentPrefix;
    AdvanceOver(open, [name] + tail);
    AdvanceOver(name, tail);
    IdentMarks(name);
    assert tail == [tail[0]] + tail[1..];
    AdvanceOver(tail[0], tail[1..]);
  }

  lemma EmptyNames(open: string, before: seq<string>, rest: seq<string>)
    ensures ParseIdentList(Good([open] + ([")"] + rest)), before) == Parsed(before, Good(rest))
  {
    MarksOfPunctuation();
    AdvanceOver(open, [")"] + rest);
    AdvanceOver(")", rest);
  }

  lemma {:induction false} ReadNames(names: seq<string>, trailing: bool, open: string, before: seq<string>, rest: seq<string>)
    requires FitsNames(names, trailing)
    ensures ParseIdentList(Good([open] + Items(NameItems(names), trailing) + [")"] + rest), before) == Parsed(before + names, Good(rest))
    decreases |names|
  {
    hide MarkOf, IsIdentPrefix, Advance, Tok, Items, Follow, Good, ParseIdentList, NameItems;
    MarksOfPunctuation();
    if names == [] {
      NoNames();
      NoItemsShape(open, trailing, ")", rest);
      EmptyNames(open, before, rest);
      assert before + names == before;
    } else {
      var name, more := names[0], names[1..];
      assert names == [name] + more;
      FirstName(name, more);
      assert NameItems(names) == [[name]] + NameItems(more);
      ItemShape(open, [name], NameItems(more), trailing, ")", rest);
      FollowShape(NameItems(more), trailing, ")", rest);
      var tail := Follow(NameItems(more), trailing) + ([")"] + rest);
      NamesStep(open, name, tail, before);
      if more == [] && !trailing {
        assert tail[1..] == rest && before + [name] == before + names;
      } else {
        ReadNames(more, trailing && more != [], ",", before + [name], rest);
        assert before + [name] + more == before + names;
      }
    }
  }

  lemma ReadModifierForm(m: ModifierForm, k: Keyword, rest: seq<string>)
    requires FitsModifier(m, k, rest) && !m.NoModifier? && k != NoKeyword
    ensures ParseModifier(Good(ModifierTokens(m) + rest)) == Parsed(ModifierOf(m), Good(rest))
  {
    hide MarkOf, KeywordOf, ParseIdents, ParseModifier, Advance, IsIdentPrefix, FitsNames, NamesTokens, Tok;
    KeywordOfLower(m.word);
    var list := (if m.Bare? then [] else NamesTokens(m.names, m.trailing)) + rest;
    assert ModifierTokens(m) + rest == [m.word] + list;
    AdvanceOver(m.word, list);
    TokIsNext(list);
    if m.Listed? {
      ReadNameList(m.names, m.trailing, rest);
    } else {
      assert list == rest;
    }
    ModifierFold(Good([m.word] + list));
  }

  lemma ModifierFold(s: Stream)
    requires s.toks != [] && IsIdentPrefix(Tok(s)) && Advance(s).Parsed?
    ensures var op, s1 := Lower(Tok(s)), Advance(s).rest;
            && (KeywordOf(op) == JoinModifier && MarkOf(Advance(s).v) != LParen ==> ParseModifier(s) == Parsed(Modifier(op, []), s1))
            && (MarkOf(Advance(s).v) == LParen && ParseIdents(s1).Parsed? ==>
                  ParseModifier(s) == Parsed(Modifier(op, ParseIdents(s1).v), ParseIdents(s1).rest))
  {
    hide MarkOf, KeywordOf, ParseIdents, Advance, IsIdentPrefix;
  }

  lemma ReadNameList(names: seq<string>, trailing: bool, rest: seq<string>)
    requires FitsNames(names, trailing)
    ensures var s := Good(NamesTokens(names, trailing) + rest);
            MarkOf(Tok(s)) == LParen && ParseIdents(s) == Parsed(names, Good(rest))
  {
    hide MarkOf, ParseIdentList, FitsNames, Items, NameItems;
    MarksOfPunctuation();
    assert NamesTokens(names, trailing) + rest == ["("] + Items(NameItems(names), trailing) + [")"] + rest;
    ReadNames(names, trailing, "(", [], rest);
    assert [] + names == names;
  }

  // ----- filters -----

  lemma ReadFilterForm(f: LabelFilterExpr, rest: seq<string>)
    requires FitsFilter(f, rest) && MarkOf(Next(rest)) in {Comma, RBrace}
    ensures ParseLabelFilter(Good(FilterTokens(f) + rest)) == Parsed(f, Good(rest))
  {
    hide MarkOf, ParseString, IsIdentPrefix, FitsSum, SumTokens;
    match f.value
    case None =>
      AdvanceOver(f.key, rest);
      assert f == LabelFilterExpr(f.key, None, false, false);
    case Some(se) =>
      var op, value := FilterText(f), SumTokens(se.tokens) + rest;
      FilterOperator(op);
      assert FilterTokens(f) + rest == [f.key] + ([op] + value);
      AdvanceOver(f.key, [op] + value);
      AdvanceOver(op, value);
      ReadSum(se.tokens, [], rest);
      assert [] + se.tokens == se.tokens;
      assert f == LabelFilterExpr(f.key, Some(StringExpr("", se.tokens)), f.isNegative, f.isRegexp);
  }

  lemma FiltersStep(open: string, f: LabelFilterExpr, tail: seq<string>, before: seq<LabelFilterExpr>)
    requires FitsFilter(f, tail) && tail != [] && MarkOf(tail[0]) in {Comma, RBrace}
    ensures var r := ParseLabelFilters(Good([open] + (FilterTokens(f) + tail)), before);
            && (MarkOf(tail[0]) == Comma ==> r == ParseLabelFilters(Good(tail), before + [f]))
            && (MarkOf(tail[0]) == RBrace ==> r == Parsed(before + [f], Good(tail[1..])))
  {
    hide MarkOf, ParseLabelFilter, FilterTokens, FitsFilter;
    AdvanceOver(open, FilterTokens(f) + tail);
    FilterStarts(f, tail);
    ReadFilterForm(f, tail);
    assert tail == [tail[0]] + tail[1..];
    AdvanceOver(tail[0], tail[1..]);
  }

  lemma {:induction false} ReadFilterForms(fs: seq<LabelFilterExpr>, trailing: bool, open: string, before: seq<LabelFilterExpr>, rest: seq<string>)
    requires FitsBraces(fs, trailing, rest)
    ensures ParseLabelFilters(Good([open] + Items(FilterItems(fs), trailing) + ["}"] + rest), before) == Parsed(before + fs, Good(rest))
    decreases |fs|
  {
    hide MarkOf, ParseLabelFilter, FilterTokens, FitsFilter, Advance, Tok, Items, Follow, FilterItems;
    MarksOfPunctuation();
    if fs == [] {
      assert FilterItems(fs) == [] by { NoFilterItems(); }
      NoItemsShape(open, trailing, "}", rest);
      AdvanceOver(open, ["}"] + rest);
      AdvanceOver("}", rest);
      assert before + fs == before;
    } else {
      hide ParseLabelFilters;
      var f, more := fs[0], fs[1..];
      assert fs == [f] + more;
      FirstFilter(f, more);
      ItemShape(open, FilterTokens(f), FilterItems(more), trailing, "}", rest);
      FollowShape(FilterItems(more), trailing, "}", rest);
      var tail := Follow(FilterItems(more), trailing) + (["}"] + rest);
      FiltersStep(open, f, tail, before);
      if more == [] && !trailing {
        assert tail[1..] == rest && before + [f] == before + fs;
      } else {
        FewerFilters(more, trailing, ["}"] + rest);
        ReadFilterForms(more, trailing && more != [], ",", before + [f], rest);
        assert before + [f] + more == before + fs;
      }
    }
  }

  lemma NoFilterItems()
    ensures FilterItems([]) == []
  {
  }

  lemma FewerFilters(fs: seq<LabelFilterExpr>, trailing: bool, rest: seq<string>)
    requires FitsFilters(fs, trailing, rest)
    ensures FitsFilters(fs, trailing && fs != [], rest)
  {
  }

  lemma FilterStarts(f: LabelFilterExpr, rest: seq<string>)
    requires FitsFilter(f, rest)
    ensures MarkOf(Tok(Good(FilterTokens(f) + rest))) == Other
  {
    IdentMarks(f.key);
  }

  lemma MetricFold(lib: Lib, s: Stream)
    requires s.toks != []
    ensures IsIdentPrefix(Tok(s)) && Advance(s).Parsed? ==>
              var s1, name := Advance(s).rest, NameFilter(lib, Tok(s));
              && (MarkOf(Advance(s).v) != LBrace ==> ParseMetric(lib, s) == Parsed(Metric([], [name]), s1))
              && (MarkOf(Advance(s).v) == LBrace && s1.toks != [] && ParseLabelFilters(s1, []).Parsed? ==>
                    ParseMetric(lib, s) == Parsed(Metric([], [name] + ParseLabelFilters(s1, []).v), ParseLabelFilters(s1, []).rest))
    ensures !IsIdentPrefix(Tok(s)) && IsMark(s, LBrace) && ParseLabelFilters(s, []).Parsed? ==>
              ParseMetric(lib, s) == Parsed(Metric([], ParseLabelFilters(s, []).v), ParseLabelFilters(s, []).rest)
  {
    hide MarkOf, ParseLabelFilters, IsIdentPrefix, Advance;
  }

  lemma MetricShape(lib: Lib, f: Form, rest: seq<string>)
    requires f.MetricForm?
    ensures var tail := if f.braces then ["{"] + Items(FilterItems(f.filters), f.trailing) + ["}"] + rest else rest;
            Tokens(f) + rest == if f.name == "" then tail else [f.name] + tail
    ensures Tree(lib, f) == Metric([], if f.name == "" then f.filters else [NameFilter(lib, f.name)] + f.filters)
  {
    hide Items, FilterItems;
    assert [] + f.filters == f.filters;
  }

  lemma BracesAreRead(fs: seq<LabelFilterExpr>, trailing: bool, rest: seq<string>)
    requires FitsBraces(fs, trailing, rest)
    ensures var s := Good(["{"] + Items(FilterItems(fs), trailing) + ["}"] + rest);
            s.toks != [] && Tok(s) == "{" && ParseLabelFilters(s, []) == Parsed(fs, Good(rest))
  {
    hide ParseLabelFilters, FitsBraces, Items, FilterItems;
    ReadFilterForms(fs, trailing, "{", [], rest);
    assert [] + fs == fs;
  }

  /** A selector, whatever decides that it is read as one. */
  lemma ReadMetricForm(lib: Lib, f: Form, rest: seq<string>)
    requires f.MetricForm? && (f.name == "" ==> f.braces) && (f.name != "" ==> IsIdentPrefix(f.name))
    requires if f.braces then FitsBraces(f.filters, f.trailing, rest)
             else f.filters == [] && !f.trailing && MarkOf(Next(rest)) != LBrace
    ensures ParseMetric(lib, Good(Tokens(f) + rest)) == Parsed(Tree(lib, f), Good(rest))
  {
    hide MarkOf, ParseMetric, ParseLabelFilters, FitsBraces, IsIdentPrefix, Items, FilterItems, Tokens, Tree, Advance, Tok, NameFilter;
    MarksOfPunctuation();
    BraceIsNoIdent();
    MetricShape(lib, f, rest);
    var tail := if f.braces then ["{"] + Items(FilterItems(f.filters), f.trailing) + ["}"] + rest else rest;
    TokIsNext(rest);
    if f.braces { BracesAreRead(f.filters, f.trailing, rest); }
    if f.name != "" { AdvanceOver(f.name, tail); }
    assert [NameFilter(lib, f.name)] + [] == [NameFilter(lib, f.name)];
    MetricFold(lib, Good(Tokens(f) + rest));
  }

  // ----- rollups -----

  lemma ReadStepForm(window: string, step: StepForm, rest: seq<string>)
    requires step.Joined? || step.Apart? ==> IsDuration(step.step)
    ensures ParseColon(window, Good(StepFormTokens(step) + rest)) ==
            Parsed((window, StepText(Window(window, step)), step.Inherited?), Good(rest))
    ensures !step.NoStep? ==> StartsWithColon(Tok(Good(StepFormTokens(step) + rest)))
  {
    hide MarkOf, IsDuration, ParseStep, CloseWindow, Advance, Tok;
    var close := ["]"] + rest;
    match step
    case NoStep =>
      ReadNoStep(window, false, rest);
    case Inherited =>
      assert [":", "]"] + rest == [":"] + close;
      AdvanceOver(":", close);
      ReadNoStep(window, true, rest);
    case Joined(d) =>
      var t := ":" + d;
      assert t[1..] == d;
      assert [t, "]"] + rest == [t] + close;
      AdvanceOver(t, close);
      DurationMarks(d);
      ReadStep(window, d, t, rest);
    case Apart(d) =>
      var more := [d] + close;
      assert [":", d, "]"] + rest == [":"] + more;
      AdvanceOver(":", more);
      AdvanceOver(d, close);
      DurationMarks(d);
      MarksOfPunctuation();
      ReadStep(window, d, d, rest);
    case Closing =>
      AdvanceOver(":]", rest);
      assert ":]"[1..] == "]";
      ReadClosing(window, rest);
  }

  lemma ReadClosing(window: string, rest: seq<string>)
    ensures ParseStep(window, false, "]", Good([":]"] + rest)) == Parsed((window, "", false), Good(rest))
  {
    AdvanceOver(":]", rest);
  }

  lemma ReadWindowForm(w: WindowForm, rest: seq<string>)
    requires w.Window? && FitsWindow(w)
    ensures ParseWindowAndStep(Good(WindowTokens(w) + rest)) == Parsed((w.length, StepText(w), w.step.Inherited?), Good(rest))
  {
    hide MarkOf, IsDuration, ParsePositiveDuration, ParseColon, StepFormTokens;
    MarksOfPunctuation();
    var steps := StepFormTokens(w.step) + rest;
    var windows := (if w.length == "" then [] else [w.length]) + steps;
    assert WindowTokens(w) + rest == ["["] + windows;
    AdvanceOver("[", windows);
    ReadStepForm(w.length, w.step, rest);
    if w.length != "" {
      AdvanceOver(w.length, steps);
      DurationMarks(w.length);
      ReadDuration(w.length, steps);
    } else {
      assert windows == steps;
    }
  }

  lemma ReadOffsetForm(o: OffsetForm, rest: seq<string>)
    requires o.Offset? && FitsOffset(o)
    ensures ParseOffset(Good(OffsetTokens(o) + rest)) == Parsed(OffsetText(o), Good(rest))
  {
    hide MarkOf, KeywordOf, OpOf, IsDuration;
    MarksOfPunctuation();
    var d := o.length;
    DurationMarks(d);
    AdvanceOver(d, rest);
    if o.isNegative {
      assert OffsetTokens(o) + rest == [o.word] + (["-"] + ([d] + rest));
      AdvanceOver(o.word, ["-"] + ([d] + rest));
      AdvanceOver("-", [d] + rest);
    } else {
      assert OffsetTokens(o) + rest == [o.word] + ([d] + rest);
      AdvanceOver(o.word, [d] + rest);
      ReadDuration(d, rest);
    }
  }

  lemma ReadSuffix(e: Expr, w: WindowForm, o: OffsetForm, rest: seq<string>)
    requires FitsWindow(w) && FitsOffset(o) && (w.Window? || o.Offset?) && (o.NoOffset? ==> KeywordOf(Next(rest)) != OffsetWord)
    ensures var s := Good(WindowTokens(w) + OffsetTokens(o) + rest);
            && (IsMark(s, LBracket) || IsWord(s, OffsetWord))
            && ParseRollup(e, s) ==
               Parsed(Rollup(e, LengthOf(w), OffsetText(o), StepText(w), w.Window? && w.step.Inherited?), Good(rest))
  {
    hide MarkOf, KeywordOf, OpOf, IsDuration, ParseWindowAndStep, ParseOffset, FitsOffset, FitsWindow, OffsetTokens, WindowTokens, Tok;
    var offsets := OffsetTokens(o) + rest;
    assert WindowTokens(w) + OffsetTokens(o) + rest == WindowTokens(w) + offsets;
    TokIsNext(rest);
    OffsetFirst(o, rest);
    WindowFirst(w, offsets);
    if w.Window? { ReadWindowForm(w, offsets); }
    if o.Offset? { ReadOffsetForm(o, rest); }
  }

  lemma OffsetFirst(o: OffsetForm, rest: seq<string>)
    requires FitsOffset(o)
    ensures if o.Offset? then KeywordOf(Tok(Good(OffsetTokens(o) + rest))) == OffsetWord && MarkOf(Tok(Good(OffsetTokens(o) + rest))) != LBracket
            else OffsetTokens(o) + rest == rest
  {
    hide KeywordOf, MarkOf, IsDuration;
    if o.Offset? {
      assert OffsetTokens(o) + rest == [o.word] + ((if o.isNegative then ["-"] else []) + [o.length] + rest);
      MarkIsToken(o.word);
      Punctuation("[");
    }
  }

  lemma WindowFirst(w: WindowForm, rest: seq<string>)
    ensures if w.Window? then MarkOf(Tok(Good(WindowTokens(w) + rest))) == LBracket else WindowTokens(w) + rest == rest
  {
    hide StepFormTokens;
    MarksOfPunctuation();
  }

  // ----- operators -----

  lemma ReadLimitForm(l: LimitForm, rest: seq<string>)
    requires FitsLimit(l) && (l.NoLimit? ==> KeywordOf(Next(rest)) != LimitWord)
    ensures ParseLimit(Good(LimitFormTokens(l) + rest)) == Parsed(LimitOf(l), Good(rest))
  {
    hide KeywordOf, Atoi;
    match l
    case NoLimit => assert [] + rest == rest;
    case Limit(word, numeral) =>
      assert [word, numeral] + rest == [word] + ([numeral] + rest);
      AdvanceOver(word, [numeral] + rest);
      AdvanceOver(numeral, rest);
  }

  lemma FirstOfModifierForm(m: ModifierForm, k: Keyword, rest: seq<string>, more: seq<string>)
    requires FitsModifier(m, k, more)
    ensures if m.NoModifier? then ModifierTokens(m) + rest == rest else KeywordOf(Tok(Good(ModifierTokens(m) + rest))) == k
  {
    hide KeywordOf, FitsNames, NamesTokens;
  }

  lemma ReadWords(o: OpForm, operand: seq<string>)
    requires FitsOp(o, operand)
    ensures ParseOpModifiers(OpOf(o.op).value, Good(WordTokens(o.boolWord, o.group, o.join) + operand)) ==
            Parsed(InfoOf(o), Good(operand))
  {
    hide MarkOf, KeywordOf, OpOf, ParseModifier, ModifierTokens, ParseBool, FitsModifier;
    var joins := ModifierTokens(o.join) + operand;
    var groups := ModifierTokens(o.group) + joins;
    var bools := if o.boolWord == "" then [] else [o.boolWord];
    assert WordTokens(o.boolWord, o.group, o.join) + operand == bools + groups;
    NoModifierTokens();
    FirstOfModifierForm(o.group, GroupModifier, joins, []);
    FirstOfModifierForm(o.join, JoinModifier, operand, operand);
    ReadBoolWord(OpOf(o.op).value, o.boolWord, groups);
    if !o.group.NoModifier? {
      GroupIsListed(o.group, joins);
      ReadModifierForm(o.group, GroupModifier, joins);
      if !o.join.NoModifier? { ReadModifierForm(o.join, JoinModifier, operand); }
    }
  }

  lemma GroupIsListed(m: ModifierForm, rest: seq<string>)
    requires FitsModifier(m, GroupModifier, [])
    ensures FitsModifier(m, GroupModifier, rest)
  {
  }

  lemma ReadBoolWord(op: BinOp, word: string, rest: seq<string>)
    requires if word == "" then KeywordOf(Next(rest)) != BoolWord else KeywordOf(word) == BoolWord && IsCmp(op)
    ensures ParseBool(op, Good((if word == "" then [] else [word]) + rest)) == Parsed(word != "", Good(rest))
  {
    hide KeywordOf;
    if word != "" { AdvanceOver(word, rest); } else { assert [] + rest == rest; }
  }

  // ----- how forms start -----

  predicate Starts(t: string) { MarkOf(t) in {LParen, LBrace, Minus, Plus, Other} }

  lemma KeywordMarks(t: string)
    requires KeywordOf(t) != NoKeyword
    ensures MarkOf(t) == Other && t != ""
  {
    if MarkOf(t) != Other { NotAKeyword(t); }
    NoKeywordAtEnd();
  }

  lemma StringMarks(t: string)
    requires IsStringPrefix(t)
    ensures MarkOf(t) == Other && KeywordOf(t) == NoKeyword && !IsNumberStart(t) && !IsIdentPrefix(t)
  {
    NotAKeyword(t);
  }

  lemma SumStarts(sum: seq<string>, rest: seq<string>)
    requires sum != []
    ensures SumTokens(sum) != [] && SumTokens(sum)[0] == sum[0] == Tok(Good(SumTokens(sum) + rest))
  {
  }

  lemma {:induction false} FormStarts(lib: Lib, f: Form, rest: seq<string>)
    requires Fits(lib, f, rest)
    ensures Tokens(f) != [] && Starts(Tokens(f)[0])
    decreases f
  {
    hide MarkOf, KeywordOf, OpOf, IsNumberStart, IsIdentPrefix, IsStringPrefix, FitsSum, FitsAll, FitsDefs, FitsOps, FitsBraces, Items, FitsWindow, FitsOffset, WindowTokens, OffsetTokens, EndsName, FitsModifier, FitsLimit;
    MarksOfPunctuation();
    match f
    case NumberForm(numeral) => NumeralMarks(numeral);
    case StringForm(sum) =>
      SumIsNotEmpty(sum, rest);
      SumStarts(sum, rest);
      StringMarks(sum[0]);
    case MetricForm(name, _, _, _) => if name != "" { IdentMarks(name); }
    case FuncForm(name, _, _) => IdentMarks(name);
    case AggrForm(name, _, _, _, _, _) => IdentMarks(name);
    case ParensForm(_, _) =>
    case SignForm(sign, _) => SignMarks(sign);
    case RollupForm(inner, window, offset) => FormStarts(lib, inner, WindowTokens(window) + OffsetTokens(offset) + rest);
    case WithForm(word, _, _, _) => KeywordMarks(word);
    case Chain(first, ops) => FormStarts(lib, first, OpsTokens(ops) + rest);
  }

  lemma EndsNameMarks(name: string, t: string)
    requires EndsName(name, t)
    ensures MarkOf(t) != LBrace && MarkOf(t) != LParen
  {
    hide KeywordOf, OpOf;
    if MarkOf(t) == LBrace || MarkOf(t) == LParen {
      MarkIsToken(t);
      Punctuation(t);
    }
  }

  lemma OtherStart(t: string, rest: seq<string>)
    requires KeywordOf(t) != WithWord || MarkOf(Next(rest)) != LParen
    ensures !StartsWith(Good([t] + rest))
  {
    hide KeywordOf, MarkOf;
    AdvanceOver(t, rest);
    TokIsNext(rest);
  }

  lemma SelectorIsNoWith(name: string, braces: bool, more: seq<string>, rest: seq<string>)
    requires if braces then more != [] && more[0] == "{" else more == [] && EndsName(name, Next(rest))
    ensures !StartsWith(Good([name] + more + rest))
  {
    hide KeywordOf, OpOf, StartsWith, EndsName;
    MarksOfPunctuation();
    assert [name] + more + rest == [name] + (more + rest);
    if !braces {
      assert more + rest == rest;
      EndsNameMarks(name, Next(rest));
    }
    OtherStart(name, more + rest);
  }

  /** Only a name can be the word `with`. */
  lemma FirstIsNoWith(lib: Lib, f: Form, rest: seq<string>)
    requires IsAtom(f) && Fits(lib, f, rest) && !(f.MetricForm? && f.name != "")
    ensures Tokens(f) != [] && KeywordOf(Tokens(f)[0]) != WithWord
  {
    hide MarkOf, KeywordOf, OpOf, IsNumberStart, IsIdentPrefix, IsStringPrefix, FitsSum, FitsSingle, FitsAll, FitsBraces, Items, FitsModifier, FitsLimit, TokensAll, SumTokens, FilterItems, Tree;
    Punctuation("(");
    Punctuation("{");
    match f
    case NumberForm(numeral) => NumeralMarks(numeral);
    case StringForm(sum) =>
      SumIsNotEmpty(sum, rest);
      StringMarks(sum[0]);
      SumStarts(sum, rest);
    case SignForm(sign, _) => SignMarks(sign);
    case _ =>
  }

  /** No form without suffix starts a WITH expression. */
  lemma AtomIsNoWith(lib: Lib, f: Form, rest: seq<string>)
    requires IsAtom(f) && Fits(lib, f, rest)
    ensures !StartsWith(Good(Tokens(f) + rest))
  {
    hide KeywordOf, MarkOf, StartsWith, FitsBraces, EndsName, Items;
    if f.MetricForm? && f.name != "" {
      SelectorIsNoWith(f.name, f.braces, if f.braces then BraceTokens(f.filters, f.trailing) else [], rest);
    } else {
      FirstIsNoWith(lib, f, rest);
      hide Tokens, Fits;
      assert Tokens(f) + rest == [Tokens(f)[0]] + (Tokens(f)[1..] + rest);
      OtherStart(Tokens(f)[0], Tokens(f)[1..] + rest);
    }
  }

  lemma TokIsNext(toks: seq<string>)
    ensures Tok(Good(toks)) == Next(toks)
  {
  }

  // ----- expressions -----

  lemma {:induction false} ReadExprForm(lib: Lib, f: Form, rest: seq<string>)
    requires f.Chain? && Fits(lib, f, rest)
    ensures ParseExpr(lib, Good(Tokens(f) + rest)) == Parsed(Tree(lib, f), Good(rest))
    decreases f, 2
  {
    hide ParseSingle, ParseOperations, FitsSingle, FitsOps, Layered, Fold, OpOf, AreOperands;
    var first, ops := f.first, f.ops;
    var e := Tree(lib, first);
    assert Tokens(f) + rest == Tokens(first) + (OpsTokens(ops) + rest);
    ReadSingleForm(lib, first, OpsTokens(ops) + rest);
    FoldOfNone(e);
    ReadOps(lib, e, [], [], ops, rest);
    assert [] + Infos(ops) == Infos(ops) && [] + Rights(lib, ops) == Rights(lib, ops);
    FoldIsLayered(e, Infos(ops), Rights(lib, ops));
  }

  lemma OperationStep(lib: Lib, left: Expr, t: string, s1: seq<string>, info: OpInfo, s2: seq<string>, right: Expr, s3: seq<string>)
    requires OpOf(t).Some? && ParseOpModifiers(OpOf(t).value, Good(s1)) == Parsed(info, Good(s2))
    requires ParseSingle(lib, Good(s2)) == Parsed(right, Good(s3))
    ensures ParseOperations(lib, left, Good([t] + s1)) == ParseOperations(lib, Balance(left, info, right), Good(s3))
  {
    hide OpOf, ParseOpModifiers, ParseSingle, Balance;
    AdvanceOver(t, s1);
  }

  lemma NoOperation(lib: Lib, left: Expr, rest: seq<string>)
    requires OpOf(Next(rest)).None?
    ensures ParseOperations(lib, left, Good(rest)) == Parsed(left, Good(rest))
  {
    hide OpOf;
    TokIsNext(rest);
  }

  lemma {:induction false} ReadOps(lib: Lib, first: Expr, infos: seq<OpInfo>, xs: seq<Expr>, ops: seq<OpForm>, rest: seq<string>)
    requires |infos| == |xs| && FitsOps(lib, ops, rest) && OpOf(Next(rest)).None?
    ensures ParseOperations(lib, Fold(first, infos, xs), Good(OpsTokens(ops) + rest)) ==
            Parsed(Fold(first, infos + Infos(ops), xs + Rights(lib, ops)), Good(rest))
    ensures AreOperands(Rights(lib, ops))
    decreases ops, 1
  {
    hide OpOf, ParseOpModifiers, ParseOperations, ParseSingle, Fold, Balance, FitsSingle, FitsOp, FitsOps, InfoOf, AreOperands, OpTokens, OpsTokens, Tokens, Tree, WordTokens;
    NoOps(lib, rest);
    if ops == [] {
      assert infos + [] == infos && xs + [] == xs && [] + rest == rest;
      NoOperation(lib, Fold(first, infos, xs), rest);
    } else {
      OpsUnfold(lib, ops, rest);
      var o, more := ops[0], OpsTokens(ops[1..]) + rest;
      var operand := Tokens(o.right) + more;
      var words := WordTokens(o.boolWord, o.group, o.join) + operand;
      assert OpsTokens(ops) + rest == [o.op] + words by { OpShape(o, ops[1..], rest); assert ops == [o] + ops[1..]; }
      ReadWords(o, operand);
      ReadSingleForm(lib, o.right, more);
      assert OpOf(o.op).Some? by { WordsHaveOp(o, operand); }
      OperationStep(lib, Fold(first, infos, xs), o.op, words, InfoOf(o), operand, Tree(lib, o.right), more);
      FoldMore(first, infos, xs, InfoOf(o), Tree(lib, o.right));
      ReadOps(lib, first, infos + [InfoOf(o)], xs + [Tree(lib, o.right)], ops[1..], rest);
      assert infos + [InfoOf(o)] + Infos(ops[1..]) == infos + Infos(ops);
      assert xs + [Tree(lib, o.right)] + Rights(lib, ops[1..]) == xs + Rights(lib, ops);
      OperandsOfMore(lib, ops);
    }
  }

  lemma OpsUnfold(lib: Lib, ops: seq<OpForm>, rest: seq<string>)
    requires ops != [] && FitsOps(lib, ops, rest)
    ensures var more := OpsTokens(ops[1..]) + rest;
            && FitsOp(ops[0], Tokens(ops[0].right) + more) && FitsSingle(lib, ops[0].right, more)
            && FitsOps(lib, ops[1..], rest)
  {
    hide FitsOp, FitsSingle, OpTokens, Tokens;
  }

  lemma OperandsOfMore(lib: Lib, ops: seq<OpForm>)
    requires ops != [] && !Tree(lib, ops[0].right).Binary? && AreOperands(Rights(lib, ops[1..]))
    ensures AreOperands(Rights(lib, ops))
  {
    hide Tree;
  }

  lemma WordsHaveOp(o: OpForm, operand: seq<string>)
    requires FitsOp(o, operand)
    ensures OpOf(o.op).Some?
  {
    hide OpOf;
  }

  lemma OpShape(o: OpForm, more: seq<OpForm>, rest: seq<string>)
    ensures OpsTokens([o] + more) + rest ==
            [o.op] + (WordTokens(o.boolWord, o.group, o.join) + (Tokens(o.right) + (OpsTokens(more) + rest)))
  {
    hide Tokens, ModifierTokens;
    assert ([o] + more)[1..] == more;
    assert OpsTokens([o] + more) == OpTokens(o) + OpsTokens(more);
    assert OpTokens(o) == [o.op] + BoolTokens(o.boolWord) + ModifierTokens(o.group) + ModifierTokens(o.join) + Tokens(o.right);
    assert OpTokens(o) == [o.op] + WordTokens(o.boolWord, o.group, o.join) + Tokens(o.right);
  }

  lemma SingleUnfold(lib: Lib, s: Stream)
    requires !StartsWith(s) && ParseUnsuffixed(lib, s).Parsed?
    ensures var r := ParseUnsuffixed(lib, s);
            ParseSingle(lib, s) ==
            if IsMark(r.rest, LBracket) || IsWord(r.rest, OffsetWord) then ParseRollup(r.v, r.rest) else r
  {
    hide KeywordOf, MarkOf, ParseUnsuffixed, ParseRollup, ParseWith, Advance;
  }

  lemma {:induction false} ReadSingleForm(lib: Lib, f: Form, rest: seq<string>)
    requires FitsSingle(lib, f, rest)
    ensures ParseSingle(lib, Good(Tokens(f) + rest)) == Parsed(Tree(lib, f), Good(rest)) && !Tree(lib, f).Binary?
    decreases f, 1
  {
    hide KeywordOf, MarkOf, ParseUnsuffixed, ParseRollup, ParseWith, ParseSingle, Advance, WindowTokens, OffsetTokens, FitsWindow, FitsOffset, StartsWith, FitsDefs, RepeatsName;
    var s := Good(Tokens(f) + rest);
    TokIsNext(rest);
    match f
    case WithForm(_, _, _, _) =>
      ReadWithForm(lib, f, rest);
    case RollupForm(inner, w, o) =>
      var suffix := WindowTokens(w) + OffsetTokens(o) + rest;
      assert Tokens(f) + rest == Tokens(inner) + suffix;
      AtomIsNoWith(lib, inner, suffix);
      ReadAtomForm(lib, inner, suffix);
      SingleUnfold(lib, s);
      ReadSuffix(Tree(lib, inner), w, o, rest);
    case Chain(_, _) =>
    case _ =>
      AtomIsNoWith(lib, f, rest);
      ReadAtomForm(lib, f, rest);
      SingleUnfold(lib, s);
  }

  lemma UnsuffixedSign(lib: Lib, sign: string, more: seq<string>)
    requires sign == "-" || sign == "+"
    ensures var r := ParseSingle(lib, Good(more));
            r.Parsed? ==>
              ParseUnsuffixed(lib, Good([sign] + more)) == Parsed(if sign == "-" then Negated(r.v) else r.v, r.rest)
  {
    hide ParseSingle;
    ReadSign(lib, sign, more);
  }

  lemma UnsuffixedString(lib: Lib, sum: seq<string>, rest: seq<string>)
    requires FitsSum(sum, rest) && IsStringPrefix(sum[0])
    ensures ParseUnsuffixed(lib, Good(SumTokens(sum) + rest)) == Parsed(Str(StringExpr("", sum)), Good(rest))
  {
    hide KeywordOf, MarkOf, IsNumberStart, ParseString, IsStringPrefix, FitsSum;
    SumIsNotEmpty(sum, rest);
    StringMarks(sum[0]);
    SumStarts(sum, rest);
    ReadSum(sum, [], rest);
    assert [] + sum == sum;
  }

  lemma SumIsNotEmpty(sum: seq<string>, rest: seq<string>)
    requires FitsSum(sum, rest)
    ensures sum != []
  {
  }

  lemma UnsuffixedParens(lib: Lib, s: Stream)
    requires Tok(s) == "("
    ensures ParseList(lib, s, []).Parsed? ==>
              ParseUnsuffixed(lib, s) == Parsed(Parens(ParseList(lib, s, []).v), ParseList(lib, s, []).rest)
  {
    hide KeywordOf, ParseList, IsNumberStart;
    MarksOfPunctuation();
    Punctuation("(");
    NotANumber("(");
  }

  lemma UnsuffixedIdent(lib: Lib, s: Stream)
    requires IsIdentPrefix(Tok(s)) && KeywordOf(Tok(s)) != NumberWord
    ensures ParseUnsuffixed(lib, s) == ParseIdentExpr(lib, s)
  {
    hide KeywordOf, ParseIdentExpr, IsNumberStart, MarkOf;
    NoPrefix();
    NonEmpty(s);
    IdentMarks(Tok(s));
    NotANumeral(Tok(s));
    StartOfUnsuffixed(lib, s);
  }

  lemma {:induction false} ReadAtomForm(lib: Lib, f: Form, rest: seq<string>)
    requires IsAtom(f) && Fits(lib, f, rest)
    ensures ParseUnsuffixed(lib, Good(Tokens(f) + rest)) == Parsed(Tree(lib, f), Good(rest)) && !Tree(lib, f).Binary?
    decreases f, 0
  {
    hide KeywordOf, MarkOf, OpOf, ParseUnsuffixed, ParseIdentExpr, ParseList, IsNumberStart, IsStringPrefix, IsIdentPrefix, FitsSum, FitsSingle, FitsAll, FitsBraces, Items, SumTokens, EndsName, FitsModifier, FitsLimit;
    match f
    case NumberForm(numeral) => ReadNumeral(lib, numeral, lib.parseFloat(numeral).value, rest);
    case StringForm(sum) => UnsuffixedString(lib, sum, rest);
    case MetricForm(_, _, _, _) => ReadSelectorForm(lib, f, rest);
    case FuncForm(_, _, _) => ReadFuncForm(lib, f, rest);
    case AggrForm(_, _, _, _, _, _) => ReadAggrForm(lib, f, rest);
    case ParensForm(args, trailing) =>
      var s := Good(["("] + Items(TokensAll(args), trailing) + [")"] + rest);
      assert Tokens(f) + rest == s.toks;
      ReadListForm(lib, args, trailing, "(", [], rest);
      assert [] + TreeAll(lib, args) == TreeAll(lib, args);
      UnsuffixedParens(lib, s);
    case SignForm(sign, inner) =>
      assert Tokens(f) + rest == [sign] + (Tokens(inner) + rest);
      ReadSingleForm(lib, inner, rest);
      UnsuffixedSign(lib, sign, Tokens(inner) + rest);
  }

  lemma IdentFold(lib: Lib, s: Stream)
    requires s.toks != [] && Advance(s).Parsed?
    ensures var t := Advance(s).v;
            && (EndsName(Tok(s), t) || MarkOf(t) == LBrace ==> ParseIdentExpr(lib, s) == ParseMetric(lib, s))
            && (MarkOf(t) == LParen ==> ParseIdentExpr(lib, s) == if IsWord(s, AggrName) then ParseAggr(lib, s) else ParseFunc(lib, s))
            && (IsIdentPrefix(t) && KeywordOf(t) == AggrModifier && IsWord(s, AggrName) ==> ParseIdentExpr(lib, s) == ParseAggr(lib, s))
  {
    hide KeywordOf, OpOf, Advance, ParseMetric, ParseAggr, ParseFunc, IsIdentPrefix, Tok;
    MarkIsToken(Advance(s).v);
    Punctuation("{");
    Punctuation("(");
    NoPrefix();
  }

  lemma SelectorStarts(lib: Lib, f: Form, rest: seq<string>)
    requires f.MetricForm? && Fits(lib, f, rest)
    ensures var s := Good(Tokens(f) + rest);
            && s.toks != [] && Tok(s) == (if f.name == "" then "{" else f.name)
            && (f.name == "" ==> f.braces)
            && (f.name != "" ==> IsIdentPrefix(f.name) && KeywordOf(f.name) != NumberWord && Advance(s).Parsed?)
            && (f.name != "" && f.braces ==> Advance(s).v == "{")
            && (f.name != "" && !f.braces ==> Advance(s).v == Next(rest) && EndsName(f.name, Next(rest)))
    ensures if f.braces then FitsBraces(f.filters, f.trailing, rest) else f.filters == [] && !f.trailing
  {
    hide KeywordOf, MarkOf, OpOf, IsIdentPrefix, FitsBraces, Items, EndsName, FilterItems, Advance, Tok, Tree;
    TokIsNext(rest);
    var braces := Items(FilterItems(f.filters), f.trailing) + ["}"] + rest;
    assert ["{"] + Items(FilterItems(f.filters), f.trailing) + ["}"] + rest == ["{"] + braces;
    MetricShape(lib, f, rest);
    if f.braces { AdvanceOver("{", braces); }
    if f.name != "" { AdvanceOver(f.name, if f.braces then ["{"] + braces else rest); }
  }

  lemma ReadSelectorForm(lib: Lib, f: Form, rest: seq<string>)
    requires f.MetricForm? && Fits(lib, f, rest)
    ensures ParseUnsuffixed(lib, Good(Tokens(f) + rest)) == Parsed(Tree(lib, f), Good(rest))
  {
    hide KeywordOf, MarkOf, OpOf, ParseUnsuffixed, ParseIdentExpr, ParseMetric, IsNumberStart, IsIdentPrefix, FitsBraces, EndsName, Advance, Tok, Tokens, Tree, Fits;
    var s := Good(Tokens(f) + rest);
    MarksOfPunctuation();
    SelectorStarts(lib, f, rest);
    if f.name == "" {
      Punctuation("{");
      NotANumber("{");
      assert !IsStringPrefix("{");
      StartOfUnsuffixed(lib, s);
    } else {
      if !f.braces { EndsNameMarks(f.name, Next(rest)); }
      UnsuffixedIdent(lib, s);
      IdentFold(lib, s);
    }
    ReadMetricForm(lib, f, rest);
  }

  lemma {:induction false} ReadArgsForm(lib: Lib, args: seq<Form>, trailing: bool, rest: seq<string>)
    requires (trailing ==> args != []) && FitsAll(lib, args, trailing, [")"] + rest)
    ensures ParseArgs(lib, Good(ListTokens(args, trailing) + rest)) == Parsed(TreeAll(lib, args), Good(rest))
    ensures Tok(Good(ListTokens(args, trailing) + rest)) == "("
    decreases args, 1
  {
    hide MarkOf, ParseList, Items, TokensAll, FitsAll;
    MarksOfPunctuation();
    assert ListTokens(args, trailing) + rest == ["("] + Items(TokensAll(args), trailing) + [")"] + rest;
    ReadListForm(lib, args, trailing, "(", [], rest);
    assert [] + TreeAll(lib, args) == TreeAll(lib, args);
  }

  lemma {:induction false} ReadFuncForm(lib: Lib, f: Form, rest: seq<string>)
    requires f.FuncForm? && Fits(lib, f, rest)
    ensures ParseUnsuffixed(lib, Good(Tokens(f) + rest)) == Parsed(Tree(lib, f), Good(rest))
    decreases f.args, 2
  {
    hide KeywordOf, MarkOf, ParseUnsuffixed, ParseIdentExpr, ParseArgs, IsIdentPrefix, FitsAll, Items, Advance, Tok;
    var s, list := Good(Tokens(f) + rest), ListTokens(f.args, f.trailing) + rest;
    MarksOfPunctuation();
    assert s.toks == [f.name] + list;
    AdvanceOver(f.name, list);
    ReadArgsForm(lib, f.args, f.trailing, rest);
    UnsuffixedIdent(lib, s);
    IdentFold(lib, s);
  }

  lemma AggrFold(lib: Lib, s: Stream)
    requires s.toks != [] && KeywordOf(Tok(s)) == AggrName && Advance(s).Parsed?
    ensures var r, name, s1 := ParseAggr(lib, s), Lower(Tok(s)), Advance(s).rest;
            && (IsIdentPrefix(Advance(s).v) && KeywordOf(Advance(s).v) == AggrModifier && ParseModifier(s1).Parsed? ==>
                  var args := ParseArgs(lib, ParseModifier(s1).rest);
                  args.Parsed? ==> r == ParseAggrSuffix(name, args.v, ParseModifier(s1).v, args.rest))
            && (!IsIdentPrefix(Advance(s).v) ==>
                  var args := ParseArgs(lib, s1);
                  args.Parsed? ==> r == ParseAggrSuffix(name, args.v, NO_MODIFIER, args.rest))
  {
    hide KeywordOf, Advance, ParseArgs, ParseModifier, ParseAggrSuffix, IsIdentPrefix;
  }

  lemma ReadSuffixForm(name: string, args: seq<Expr>, before: ModifierForm, m: ModifierForm, l: LimitForm, rest: seq<string>)
    requires FitsModifier(m, AggrModifier, []) && FitsLimit(l) && (l.NoLimit? ==> KeywordOf(Next(rest)) != LimitWord)
    requires if before.NoModifier? then m.NoModifier? && l.NoLimit? ==> KeywordOf(Next(rest)) != AggrModifier
             else m.NoModifier? && ModifierOf(before).op != ""
    ensures ParseAggrSuffix(name, args, ModifierOf(before), Good(ModifierTokens(m) + (LimitFormTokens(l) + rest))) ==
            Parsed(Aggr(name, args, ModifierOf(if before.NoModifier? then m else before), LimitOf(l)), Good(rest))
  {
    hide KeywordOf, ParseModifier, ParseLimit, ModifierTokens, FitsModifier, FitsLimit, LimitFormTokens;
    var limits := LimitFormTokens(l) + rest;
    NoModifierTokens();
    FirstOfModifierForm(m, AggrModifier, limits, []);
    FirstOfLimit(l, rest);
    ReadLimitForm(l, rest);
    if !m.NoModifier? {
      AggrIsListed(m, limits);
      ReadModifierForm(m, AggrModifier, limits);
    }
  }

  lemma AggrIsListed(m: ModifierForm, rest: seq<string>)
    requires FitsModifier(m, AggrModifier, [])
    ensures FitsModifier(m, AggrModifier, rest)
  {
  }

  lemma FirstOfLimit(l: LimitForm, rest: seq<string>)
    requires FitsLimit(l)
    ensures if l.NoLimit? then LimitFormTokens(l) + rest == rest && Tok(Good(rest)) == Next(rest)
            else KeywordOf(Tok(Good(LimitFormTokens(l) + rest))) == LimitWord
  {
    hide KeywordOf, Atoi;
  }

  lemma AggrFits(lib: Lib, f: Form, rest: seq<string>)
    requires f.AggrForm? && Fits(lib, f, rest)
    ensures FitsAggr(f, rest) && (f.isFirst ==> !f.modifier.NoModifier?)
    ensures var suffix := LimitFormTokens(f.limit) + rest;
            FitsAll(lib, f.args, f.trailing, [")"] + (if f.isFirst then suffix else ModifierTokens(f.modifier) + suffix))
  {
    hide KeywordOf, IsIdentPrefix, FitsAll, ModifierTokens, LimitFormTokens, FitsModifier, FitsLimit, Tree;
  }

  /** An aggregate, from its name on: the modifier comes first. */
  lemma FirstFold(lib: Lib, name: string, m: ModifierForm, args: seq<Expr>, list: seq<string>, l: LimitForm, rest: seq<string>)
    requires IsIdentPrefix(name) && KeywordOf(name) == AggrName && !m.NoModifier? && FitsModifier(m, AggrModifier, [])
    requires FitsLimit(l) && (l.NoLimit? ==> KeywordOf(Next(rest)) != LimitWord)
    requires ParseArgs(lib, Good(list)) == Parsed(args, Good(LimitFormTokens(l) + rest))
    ensures ParseUnsuffixed(lib, Good([name] + (ModifierTokens(m) + list))) ==
            Parsed(Aggr(Lower(name), args, ModifierOf(m), LimitOf(l)), Good(rest))
  {
    hide KeywordOf, MarkOf, ParseUnsuffixed, ParseIdentExpr, ParseAggr, ParseArgs, ParseModifier, ParseAggrSuffix, IsIdentPrefix, Advance, Tok, ModifierTokens, LimitFormTokens, FitsModifier, FitsLimit, ModifierOf, LimitOf;
    var s := Good([name] + (ModifierTokens(m) + list));
    NoModifierTokens();
    WordOfModifier(m, AggrModifier);
    AdvanceOver(name, ModifierTokens(m) + list);
    AggrIsListed(m, list);
    FirstIsWord(m, list);
    ReadModifierForm(m, AggrModifier, list);
    UnsuffixedIdent(lib, s);
    IdentFold(lib, s);
    AggrFold(lib, s);
    var suffix := LimitFormTokens(l) + rest;
    assert [] + suffix == suffix;
    ReadSuffixForm(Lower(name), args, m, NoModifier, l, rest);
  }

  lemma LastFold(lib: Lib, name: string, m: ModifierForm, args: seq<Expr>, list: seq<string>, l: LimitForm, rest: seq<string>)
    requires IsIdentPrefix(name) && KeywordOf(name) == AggrName && FitsModifier(m, AggrModifier, [])
    requires FitsLimit(l) && (l.NoLimit? ==> KeywordOf(Next(rest)) != LimitWord)
    requires m.NoModifier? && l.NoLimit? ==> KeywordOf(Next(rest)) != AggrModifier
    requires Tok(Good(list)) == "(" && ParseArgs(lib, Good(list)) == Parsed(args, Good(ModifierTokens(m) + (LimitFormTokens(l) + rest)))
    ensures ParseUnsuffixed(lib, Good([name] + list)) == Parsed(Aggr(Lower(name), args, ModifierOf(m), LimitOf(l)), Good(rest))
  {
    hide KeywordOf, MarkOf, ParseUnsuffixed, ParseIdentExpr, ParseAggr, ParseArgs, ParseModifier, ParseAggrSuffix, IsIdentPrefix, Advance, Tok, ModifierTokens, LimitFormTokens, FitsModifier, FitsLimit, ModifierOf, LimitOf;
    var s := Good([name] + list);
    NoModifierTokens();
    MarksOfPunctuation();
    AdvanceOver(name, list);
    BraceIsNoIdent();
    UnsuffixedIdent(lib, s);
    IdentFold(lib, s);
    AggrFold(lib, s);
    ReadSuffixForm(Lower(name), args, NoModifier, m, l, rest);
  }

  lemma {:induction false} ReadAggrForm(lib: Lib, f: Form, rest: seq<string>)
    requires f.AggrForm? && Fits(lib, f, rest)
    ensures ParseUnsuffixed(lib, Good(Tokens(f) + rest)) == Parsed(Tree(lib, f), Good(rest))
    decreases f.args, 2
  {
    hide KeywordOf, ParseUnsuffixed, ParseArgs, IsIdentPrefix, FitsAll, ListTokens, Tok, ModifierTokens, LimitFormTokens, FitsModifier, FitsLimit, Tree, Tokens, Fits, ModifierOf, LimitOf;
    var m, suffix := f.modifier, LimitFormTokens(f.limit) + rest;
    AggrFits(lib, f, rest);
    TreeOfAggr(lib, f);
    AggrShape(f, rest);
    if f.isFirst {
      ReadArgsForm(lib, f.args, f.trailing, suffix);
      FirstFold(lib, f.name, m, TreeAll(lib, f.args), ListTokens(f.args, f.trailing) + suffix, f.limit, rest);
    } else {
      ReadArgsForm(lib, f.args, f.trailing, ModifierTokens(m) + suffix);
      LastFold(lib, f.name, m, TreeAll(lib, f.args), ListTokens(f.args, f.trailing) + (ModifierTokens(m) + suffix), f.limit, rest);
    }
  }

  lemma FirstIsWord(m: ModifierForm, rest: seq<string>)
    requires FitsModifier(m, AggrModifier, []) && !m.NoModifier?
    ensures var t := Tok(Good(ModifierTokens(m) + rest)); IsIdentPrefix(t) && KeywordOf(t) == AggrModifier
  {
    hide KeywordOf, IsIdentPrefix, NamesTokens;
  }

  lemma AggrShape(f: Form, rest: seq<string>)
    requires f.AggrForm?
    ensures var suffix := LimitFormTokens(f.limit) + rest;
            Tokens(f) + rest ==
            [f.name] + (if f.isFirst then ModifierTokens(f.modifier) + (ListTokens(f.args, f.trailing) + suffix)
                        else ListTokens(f.args, f.trailing) + (ModifierTokens(f.modifier) + suffix))
  {
    hide ModifierTokens, LimitFormTokens, Items, TokensAll;
  }

  lemma ListStep(lib: Lib, open: string, f: Form, e: Expr, tail: seq<string>, before: seq<Expr>)
    requires Tokens(f) != [] && Starts(Tokens(f)[0]) && tail != []
    requires ParseExpr(lib, Good(Tokens(f) + tail)) == Parsed(e, Good(tail))
    ensures var r := ParseList(lib, Good([open] + (Tokens(f) + tail)), before);
            && (MarkOf(tail[0]) == Comma ==> r == ParseList(lib, Good(tail), before + [e]))
            && (MarkOf(tail[0]) == RParen ==> r == Parsed(before + [e], Good(tail[1..])))
  {
    hide MarkOf, ParseExpr, Tokens;
    AdvanceOver(open, Tokens(f) + tail);
    assert Tok(Good(Tokens(f) + tail)) == Tokens(f)[0];
    assert tail == [tail[0]] + tail[1..];
    AdvanceOver(tail[0], tail[1..]);
  }

  lemma EmptyList(lib: Lib, open: string, before: seq<Expr>, rest: seq<string>)
    ensures ParseList(lib, Good([open] + ([")"] + rest)), before) == Parsed(before, Good(rest))
  {
    MarksOfPunctuation();
    AdvanceOver(open, [")"] + rest);
    AdvanceOver(")", rest);
  }

  lemma {:induction false} ReadListForm(lib: Lib, fs: seq<Form>, trailing: bool, open: string, before: seq<Expr>, rest: seq<string>)
    requires (trailing ==> fs != []) && FitsAll(lib, fs, trailing, [")"] + rest)
    ensures ParseList(lib, Good([open] + Items(TokensAll(fs), trailing) + [")"] + rest), before) ==
            Parsed(before + TreeAll(lib, fs), Good(rest))
    decreases fs, 0
  {
    hide MarkOf, ParseList, ParseExpr, Fits, FitsAll, Items, Follow, TokensAll, Tokens, TreeAll, Tree, Good;
    MarksOfPunctuation();
    NoForms(lib, [")"] + rest);
    if fs == [] {
      NoItemsShape(open, trailing, ")", rest);
      EmptyList(lib, open, before, rest);
      assert before + [] == before;
    } else {
      var f, more := fs[0], fs[1..];
      assert fs == [f] + more;
      FirstItem(lib, f, more);
      assert TokensAll(fs) == [Tokens(f)] + TokensAll(more) && TreeAll(lib, fs) == [Tree(lib, f)] + TreeAll(lib, more);
      ItemShape(open, Tokens(f), TokensAll(more), trailing, ")", rest);
      FollowShape(TokensAll(more), trailing, ")", rest);
      var tail := Follow(TokensAll(more), trailing) + ([")"] + rest);
      ItemsParts(lib, fs, trailing, [")"] + rest);
      assert tail == Follow(TokensAll(fs[1..]), trailing) + ([")"] + rest);
      FormStarts(lib, f, tail);
      ReadExprForm(lib, f, tail);
      ListStep(lib, open, f, Tree(lib, f), tail, before);
      if more == [] && !trailing {
        assert tail[1..] == rest && before + [Tree(lib, f)] == before + TreeAll(lib, fs);
      } else {
        FewerForms(lib, more, trailing, [")"] + rest);
        ReadListForm(lib, more, trailing && more != [], ",", before + [Tree(lib, f)], rest);
        assert before + [Tree(lib, f)] + TreeAll(lib, more) == before + TreeAll(lib, fs);
      }
    }
  }

  lemma ItemsParts(lib: Lib, fs: seq<Form>, trailing: bool, rest: seq<string>)
    requires fs != [] && FitsAll(lib, fs, trailing, rest)
    ensures fs[0].Chain? && Fits(lib, fs[0], Follow(TokensAll(fs[1..]), trailing) + rest) && FitsAll(lib, fs[1..], trailing, rest)
  {
    hide Fits;
  }

  lemma FewerForms(lib: Lib, fs: seq<Form>, trailing: bool, rest: seq<string>)
    requires FitsAll(lib, fs, trailing, rest)
    ensures FitsAll(lib, fs, trailing && fs != [], rest)
  {
  }

  // ----- WITH -----

  lemma ReadParamsForm(d: DefForm, rest: seq<string>)
    requires if d.parens then FitsNames(d.params, d.trailing) else d.params == [] && !d.trailing
    requires MarkOf(Next(rest)) == Equal
    ensures ParseParams(Good((if d.parens then NamesTokens(d.params, d.trailing) else []) + rest)) == Parsed(d.params, Good(rest))
  {
    hide MarkOf, ParseIdentList, FitsNames, Items, NameItems;
    MarksOfPunctuation();
    TokIsNext(rest);
    if d.parens {
      assert NamesTokens(d.params, d.trailing) + rest == ["("] + Items(NameItems(d.params), d.trailing) + [")"] + rest;
      ReadNames(d.params, d.trailing, "(", [], rest);
      assert [] + d.params == d.params;
    } else {
      assert [] + rest == rest;
    }
  }

  lemma DefFold(lib: Lib, name: string, params: seq<string>, more: seq<string>, body: seq<string>, e: Expr, rest: seq<string>)
    requires IsIdentPrefix(name) && KeywordOf(name) !in {AggrName, WithWord} && !lib.isRollupOrTransform(name) && !Repeats(params)
    requires ParseParams(Good(more)) == Parsed(params, Good(["="] + body))
    requires ParseExpr(lib, Good(body)) == Parsed(e, Good(rest))
    ensures ParseWithArg(lib, Good([name] + more)) == Parsed(WithArg(|more| + 1, name, params, e), Good(rest))
  {
    hide KeywordOf, MarkOf, ParseParams, ParseExpr, IsIdentPrefix, Repeats;
    AdvanceOver(name, more);
    AdvanceOver("=", body);
    FilterOperator("=");
    assert |[name] + more| == |more| + 1;
  }

  lemma NothingRepeats()
    ensures !Repeats([])
  {
  }

  lemma {:induction false} ReadDef(lib: Lib, d: DefForm, rest: seq<string>)
    requires FitsDef(lib, d, rest)
    ensures ParseWithArg(lib, Good(DefTokens(d) + rest)) == Parsed(DefTree(lib, d), Good(rest))
    decreases d, 3
  {
    hide KeywordOf, MarkOf, ParseParams, ParseExpr, ParseWithArg, Fits, IsIdentPrefix, Repeats, NamesTokens, FitsNames, Tree;
    var list := if d.parens then NamesTokens(d.params, d.trailing) else [];
    var body := Tokens(d.body) + rest;
    assert DefTokens(d) + rest == [d.name] + (list + (["="] + body));
    assert MarkOf("=") == Equal by { FilterOperator("="); }
    assert !Repeats([]) by { NothingRepeats(); }
    ReadParamsForm(d, ["="] + body);
    ReadExprForm(lib, d.body, rest);
    DefFold(lib, d.name, d.params, list + (["="] + body), body, Tree(lib, d.body), rest);
  }

  lemma DefsStep(lib: Lib, open: string, d: DefForm, wa: WithArg, tail: seq<string>, before: seq<WithArg>)
    requires IsIdentPrefix(d.name) && tail != [] && ParseWithArg(lib, Good(DefTokens(d) + tail)) == Parsed(wa, Good(tail))
    ensures var r := ParseWithArgs(lib, Good([open] + (DefTokens(d) + tail)), before);
            && (MarkOf(tail[0]) == Comma ==> r == ParseWithArgs(lib, Good(tail), before + [wa]))
            && (MarkOf(tail[0]) == RParen ==> r == Parsed(before + [wa], Good(tail)))
  {
    hide MarkOf, ParseWithArg, NamesTokens, Tokens;
    AdvanceOver(open, DefTokens(d) + tail);
    IdentMarks(d.name);
  }

  lemma EmptyDefs(lib: Lib, open: string, before: seq<WithArg>, rest: seq<string>)
    ensures ParseWithArgs(lib, Good([open] + ([")"] + rest)), before) == Parsed(before, Good([")"] + rest))
  {
    MarksOfPunctuation();
    AdvanceOver(open, [")"] + rest);
  }

  lemma {:induction false} ReadDefs(lib: Lib, ds: seq<DefForm>, trailing: bool, open: string, before: seq<WithArg>, rest: seq<string>)
    requires (trailing ==> ds != []) && FitsDefs(lib, ds, trailing, [")"] + rest)
    ensures ParseWithArgs(lib, Good([open] + Items(DefItems(ds), trailing) + [")"] + rest), before) ==
            Parsed(before + DefTrees(lib, ds), Good([")"] + rest))
    decreases ds, 4
  {
    hide MarkOf, ParseWithArg, ParseWithArgs, FitsDef, FitsDefs, Items, Follow, DefItems, DefTokens, DefTrees, DefTree, Tokens, Tree, Fits, IsIdentPrefix, KeywordOf, Good;
    MarksOfPunctuation();
    NoDefs(lib, [")"] + rest);
    if ds == [] {
      NoItemsShape(open, trailing, ")", rest);
      EmptyDefs(lib, open, before, rest);
      assert before + [] == before;
    } else {
      var d, more := ds[0], ds[1..];
      assert ds == [d] + more;
      DefsParts(lib, ds, trailing, [")"] + rest);
      FirstDef(lib, d, more);
      assert DefItems(ds) == [DefTokens(d)] + DefItems(more) && DefTrees(lib, ds) == [DefTree(lib, d)] + DefTrees(lib, more);
      ItemShape(open, DefTokens(d), DefItems(more), trailing, ")", rest);
      FollowShape(DefItems(more), trailing, ")", rest);
      var tail := Follow(DefItems(more), trailing) + ([")"] + rest);
      assert tail == Follow(DefItems(ds[1..]), trailing) + ([")"] + rest);
      ReadDef(lib, d, tail);
      assert IsIdentPrefix(d.name) by { DefHasName(lib, d, tail); }
      DefsStep(lib, open, d, DefTree(lib, d), tail, before);
      if more == [] && !trailing {
        assert before + [DefTree(lib, d)] == before + DefTrees(lib, ds);
      } else {
        FewerDefs(lib, more, trailing, [")"] + rest);
        ReadDefs(lib, more, trailing && more != [], ",", before + [DefTree(lib, d)], rest);
        assert before + [DefTree(lib, d)] + DefTrees(lib, more) == before + DefTrees(lib, ds);
      }
    }
  }

  lemma DefsParts(lib: Lib, ds: seq<DefForm>, trailing: bool, rest: seq<string>)
    requires ds != [] && FitsDefs(lib, ds, trailing, rest)
    ensures FitsDef(lib, ds[0], Follow(DefItems(ds[1..]), trailing) + rest) && FitsDefs(lib, ds[1..], trailing, rest)
  {
    hide FitsDef;
  }

  lemma DefHasName(lib: Lib, d: DefForm, rest: seq<string>)
    requires FitsDef(lib, d, rest)
    ensures IsIdentPrefix(d.name)
  {
  }

  lemma FewerDefs(lib: Lib, ds: seq<DefForm>, trailing: bool, rest: seq<string>)
    requires FitsDefs(lib, ds, trailing, rest)
    ensures FitsDefs(lib, ds, trailing && ds != [], rest)
  {
  }

  lemma WithFold(lib: Lib, word: string, list: seq<string>, was: seq<WithArg>, body: seq<string>, e: Expr, rest: seq<string>)
    requires KeywordOf(word) == WithWord && list != [] && list[0] == "(" && !RepeatsName(was)
    requires ParseWithArgs(lib, Good(list), []) == Parsed(was, Good([")"] + body))
    requires ParseExpr(lib, Good(body)) == Parsed(e, Good(rest))
    ensures ParseSingle(lib, Good([word] + list)) == Parsed(With(was, e), Good(rest))
  {
    hide KeywordOf, MarkOf, ParseWithArgs, ParseExpr, RepeatsName, ParseUnsuffixed;
    MarksOfPunctuation();
    AdvanceOver(word, list);
    AdvanceOver(")", body);
  }

  lemma {:induction false} ReadWithForm(lib: Lib, f: Form, rest: seq<string>)
    requires f.WithForm? && Fits(lib, f, rest)
    ensures ParseSingle(lib, Good(Tokens(f) + rest)) == Parsed(Tree(lib, f), Good(rest))
    decreases f, 0
  {
    hide KeywordOf, ParseSingle, ParseWithArgs, ParseExpr, FitsDefs, Items, DefItems, RepeatsName;
    var body := Tokens(f.body) + rest;
    var list := ["("] + Items(DefItems(f.defs), f.trailing) + [")"] + body;
    assert Tokens(f) + rest == [f.word] + list;
    assert [")"] + Tokens(f.body) + rest == [")"] + body;
    ReadDefs(lib, f.defs, f.trailing, "(", [], body);
    assert [] + DefTrees(lib, f.defs) == DefTrees(lib, f.defs);
    ReadExprForm(lib, f.body, rest);
    WithFold(lib, f.word, list, DefTrees(lib, f.defs), body, Tree(lib, f.body), rest);
  }

  // ----- the language -----

  /** The grammar accepts exactly the tokens of the forms that fit, up to
      `rest`, and returns their trees. */
  lemma ExprIsExact(lib: Lib, toks: seq<string>, e: Expr, rest: seq<string>)
    ensures ParseExpr(lib, Good(toks)) == Parsed(e, Good(rest)) <==>
            exists f: Form :: f.Chain? && Tokens(f) + rest == toks && Tree(lib, f) == e && Fits(lib, f, rest)
  {
    hide ParseExpr, Fits, Tokens, Tree;
    if ParseExpr(lib, Good(toks)) == Parsed(e, Good(rest)) {
      var f := ExprAccepted(lib, Good(toks));
      assert Tokens(f) + rest == toks;
    }
    if f: Form :| f.Chain? && Tokens(f) + rest == toks && Tree(lib, f) == e && Fits(lib, f, rest) {
      ReadExprForm(lib, f, rest);
    }
  }

  lemma TokIsNotEmpty(toks: seq<string>, a: seq<string>, rest: Stream)
    requires toks == a + rest.toks && rest.toks != [] && forall t <- toks :: t != ""
    ensures Tok(rest) != ""
  {
    assert toks[|a|] == Tok(rest) && toks[|a|] in toks;
  }

  /** A query is exactly a form that fits the end of input; text that is no
      token makes any query an error. */
  lemma QueryIsExact(lib: Lib, s: Stream, e: Expr)
    requires forall t <- s.toks :: t != ""
    ensures ParseQuery(lib, s) == Some(e) <==>
            !s.bad && exists f: Form :: f.Chain? && Tokens(f) == s.toks && Tree(lib, f) == e && Fits(lib, f, [])
  {
    hide ParseExpr, Fits, Tokens, Tree;
    if ParseQuery(lib, s) == Some(e) {
      var f := ExprAccepted(lib, s);
      var rest := ParseExpr(lib, s).rest;
      if rest.toks != [] { TokIsNotEmpty(s.toks, Tokens(f), rest); }
      assert Tokens(f) + [] == Tokens(f);
    }
    if f: Form :| !s.bad && f.Chain? && Tokens(f) == s.toks && Tree(lib, f) == e && Fits(lib, f, []) {
      assert Tokens(f) + [] == Tokens(f) && s == Good(s.toks);
      ReadExprForm(lib, f, []);
    }
  }

  /** A modifier before the arguments is read as one after them. */
  lemma ModifierMayComeFirst(lib: Lib, e: Expr, rest: seq<string>)
    requires e.Aggr? && Readable(lib, e) && QuotesFaithfully(lib) && e.modifier != NO_MODIFIER && EndsAtom(Tok(Good(rest)))
    ensures var list := PrintList(lib, e.args);
            var limits := LimitTokens(e.limit);
            var first := [e.name] + PrintModifier(e.modifier) + list + limits;
            var last := [e.name] + list + PrintModifier(e.modifier) + limits;
            && last == Print(lib, e)
            && ParseIdentExpr(lib, Good(last + rest)) == Parsed(Raw(lib, e), Good(rest))
            && ParseIdentExpr(lib, Good(first + rest)) == Parsed(Raw(lib, e), Good(rest))
  {
    hide KeywordOf, MarkOf, OpOf, ParseIdentExpr, ParseAggr, ParseArgs, ParseModifier, ParseAggrSuffix, PrintList, PrintModifier, LimitTokens, RawAll, EndsAtom, ParseLimit, IsIdentPrefix, Readable, Advance, Tok, IsModifier;
    AggrTokens(lib, e);
    ReadAggr(lib, e, rest);
    assert IsAggr(e) && ReadableAll(lib, e.args) by { ReadableAggr(lib, e); }
    var m, suffix := e.modifier, LimitTokens(e.limit) + rest;
    var list := PrintList(lib, e.args) + suffix;
    var s := Good([e.name] + (PrintModifier(m) + list));
    assert [e.name] + PrintModifier(m) + PrintList(lib, e.args) + LimitTokens(e.limit) + rest == s.toks;
    AdvanceOver(e.name, PrintModifier(m) + list);
    ModifierStarts(m, list);
    ReadModifier(m, AggrModifier, list);
    ReadArgs(lib, e.args, suffix);
    ReadLimit(e.limit, rest);
    IdentFold(lib, s);
    AggrFold(lib, s);
    SuffixAfterModifier(e.name, RawAll(lib, e.args), m, e.limit, rest);
  }

  predicate IsAggr(e: Expr) {
    && e.Aggr? && IsIdentPrefix(e.name) && KeywordOf(e.name) == AggrName && Lower(e.name) == e.name
    && (e.modifier == NO_MODIFIER || IsModifier(e.modifier, AggrModifier)) && 0 <= e.limit <= MAX_INT64
  }

  lemma ReadableAggr(lib: Lib, e: Expr)
    requires e.Aggr? && Readable(lib, e)
    ensures IsAggr(e) && ReadableAll(lib, e.args)
  {
    hide KeywordOf, IsModifier, IsIdentPrefix;
  }

  lemma ModifierStarts(m: Modifier, rest: seq<string>)
    requires IsModifier(m, AggrModifier)
    ensures var t := Tok(Good(PrintModifier(m) + rest)); IsIdentPrefix(t) && KeywordOf(t) == AggrModifier && m.op != ""
  {
    hide KeywordOf, IsIdentPrefix, PrintIdents;
    NoPrefix();
  }

  lemma SuffixAfterModifier(name: string, args: seq<Expr>, m: Modifier, limit: int, rest: seq<string>)
    requires m.op != "" && ParseLimit(Good(LimitTokens(limit) + rest)) == Parsed(limit, Good(rest))
    ensures ParseAggrSuffix(name, args, m, Good(LimitTokens(limit) + rest)) == Parsed(Aggr(name, args, m, limit), Good(rest))
  {
    hide ParseLimit, LimitTokens, KeywordOf;
  }
}
