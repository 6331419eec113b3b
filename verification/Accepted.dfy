/** Whatever the grammar accepts is a written form, and the tree that it
    returns is the tree of that form. */
module Accepted {
  import opened Text
  import opened Syntax
  import opened Library
  import opened Scan
  import opened Operators
  import opened Grammar
  import opened Lexicon
  import opened Printer
  import opened RoundTrip
  import opened Forms

  /** The stream starts with these tokens and goes on as `r`. */
  predicate Leaves(s: Stream, toks: seq<string>, r: Stream) {
    s.toks == toks + r.toks && r.bad == s.bad && (s.bad ==> r.toks != [])
  }

  lemma Step(s: Stream)
    requires s.toks != [] && Advance(s).Parsed?
    ensures Leaves(s, [Tok(s)], Advance(s).rest) && Advance(s).v == Tok(Advance(s).rest) == Next(Advance(s).rest.toks)
  {
  }

  lemma Join(s: Stream, a: seq<string>, m: Stream, b: seq<string>, r: Stream)
    requires Leaves(s, a, m) && Leaves(m, b, r)
    ensures Leaves(s, a + b, r)
  {
  }

  lemma MarkIsToken(t: string)
    ensures MarkOf(t) == Comma ==> t == ","
    ensures MarkOf(t) == RParen ==> t == ")"
    ensures MarkOf(t) == LParen ==> t == "("
    ensures MarkOf(t) == RBrace ==> t == "}"
    ensures MarkOf(t) == LBrace ==> t == "{"
    ensures MarkOf(t) == RBracket ==> t == "]"
    ensures MarkOf(t) == LBracket ==> t == "["
    ensures MarkOf(t) == Plus ==> t == "+"
    ensures MarkOf(t) == Minus ==> t == "-"
  {
  }

  lemma FilterMarkIsToken(t: string)
    ensures MarkOf(t) == Equal ==> t == "="
    ensures MarkOf(t) == NotEqual ==> t == "!="
    ensures MarkOf(t) == Matches ==> t == "=~"
    ensures MarkOf(t) == NotMatches ==> t == "!~"
  {
  }

  // ----- lists -----

  lemma NoItems(s: Stream, s1: Stream, close: seq<string>, r: Stream)
    requires Leaves(s, [Tok(s)], s1) && Leaves(s1, close, r)
    ensures Leaves(s, [Tok(s)] + Items([], false) + close, r)
  {
  }

  lemma LastItem(s: Stream, s1: Stream, item: seq<string>, s2: Stream, close: seq<string>, r: Stream)
    requires Leaves(s, [Tok(s)], s1) && Leaves(s1, item, s2) && Leaves(s2, close, r)
    ensures Leaves(s, [Tok(s)] + Items([item], false) + close, r)
    ensures s2.toks == Follow([], false) + (close + r.toks)
  {
    assert [item][1..] == [];
    assert Items([item], false) == item;
  }

  /** An item, a comma, and what the list goes on with. */
  lemma ItemAndMore(
    s: Stream, s1: Stream, item: seq<string>, s2: Stream, more: seq<seq<string>>, last: bool, trailing: bool, close: seq<string>, r: Stream)
    requires Leaves(s, [Tok(s)], s1) && Leaves(s1, item, s2) && Leaves(s2, [","] + Items(more, last) + close, r)
    requires trailing == if more == [] then true else last
    ensures Leaves(s, [Tok(s)] + Items([item] + more, trailing) + close, r)
    ensures s2.toks == Follow(more, trailing) + (close + r.toks)
  {
    assert ([item] + more)[1..] == more;
    assert Items([item] + more, trailing) == item + Follow(more, trailing);
    assert Follow(more, trailing) == [","] + Items(more, last);
    Join(s, [Tok(s)], s1, item, s2);
    Join(s, [Tok(s)] + item, s2, [","] + Items(more, last) + close, r);
    assert [Tok(s)] + item + ([","] + Items(more, last) + close) == [Tok(s)] + Items([item] + more, trailing) + close;
  }

  // ----- sums of strings -----

  lemma SumStep(s: Stream, before: seq<string>)
    requires ParseString(s, before).Parsed?
    ensures s.toks != [] && Advance(s).Parsed? && (IsStringPrefix(Tok(s)) || IsIdentPrefix(Tok(s)))
    ensures var r, s1 := ParseString(s, before), Advance(s).rest;
            if MarkOf(Tok(s1)) == Plus && s1.toks != [] then
              && Advance(s1).Parsed?
              && var s2 := Advance(s1).rest;
                 r == if ContinuesString(s2.toks) then ParseString(s2, before + [Tok(s)]) else Parsed(before + [Tok(s)], s1)
            else r == Parsed(before + [Tok(s)], s1)
  {
    hide MarkOf, IsStringPrefix, IsIdentPrefix;
    var s1 := Advance(s).rest;
    if MarkOf(Tok(s1)) == Plus && s1.toks != [] && Advance(s1).Parsed? {
      var s2 := Advance(s1).rest;
      NoPrefix();
      EmptyIsEof();
      if s2.toks != [] { Lookahead(s2); }
    }
  }

  lemma NoPrefix()
    ensures !IsStringPrefix("") && !IsIdentPrefix("")
  {
  }

  lemma {:induction false} SumAccepted(s: Stream, before: seq<string>) returns (sum: seq<string>)
    requires ParseString(s, before).Parsed?
    ensures var r := ParseString(s, before);
            r.v == before + sum && Leaves(s, SumTokens(sum), r.rest) && FitsSum(sum, r.rest.toks)
    decreases |s.toks|
  {
    hide MarkOf, IsStringPrefix, IsIdentPrefix, Advance, ParseString, ContinuesString, Leaves;
    var r, t := ParseString(s, before), Tok(s);
    SumStep(s, before);
    var s1 := Advance(s).rest;
    Step(s);
    LeavesTokens(s, [t], s1);
    sum := [t];
    if MarkOf(Tok(s1)) == Plus && s1.toks != [] {
      MarkIsToken(Tok(s1));
      var s2 := Advance(s1).rest;
      Step(s1);
      LeavesTokens(s1, ["+"], s2);
      assert s1.toks[1..] == s2.toks;
      if ContinuesString(s2.toks) {
        var more := SumAccepted(s2, before + [t]);
        LeavesTokens(s2, SumTokens(more), r.rest);
        sum := [t] + more;
        assert before + [t] + more == before + sum;
        assert sum[1..] == more;
        Join(s, [t], s1, ["+"], s2);
        Join(s, [t] + ["+"], s2, SumTokens(more), r.rest);
        assert SumTokens(sum) == [t] + ["+"] + SumTokens(more);
      }
    }
  }

  lemma Lookahead(s: Stream)
    requires s.toks != []
    ensures Tok(s) == s.toks[0]
    ensures Advance(s).Parsed? ==> Advance(s).v == if |s.toks| > 1 then s.toks[1] else ""
  {
  }

  // ----- names and modifiers -----

  lemma NamesUnfold(s: Stream, before: seq<string>)
    requires s.toks != [] && ParseIdentList(s, before).Parsed?
    ensures Advance(s).Parsed?
    ensures var r, s1 := ParseIdentList(s, before), Advance(s).rest;
            && Advance(s1).Parsed?
            && if MarkOf(Tok(s1)) == RParen then r == Parsed(before, Advance(s1).rest)
               else
                 && IsIdentPrefix(Tok(s1))
                 && var s2 := Advance(s1).rest;
                 if MarkOf(Tok(s2)) == Comma then s2.toks != [] && r == ParseIdentList(s2, before + [Tok(s1)])
                 else MarkOf(Tok(s2)) == RParen && Advance(s2).Parsed? && r == Parsed(before + [Tok(s1)], Advance(s2).rest)
  {
    hide MarkOf, IsIdentPrefix, Advance;
  }

  lemma NoNames()
    ensures NameItems([]) == []
  {
  }

  lemma {:induction false} NamesAccepted(s: Stream, before: seq<string>) returns (names: seq<string>, trailing: bool)
    requires s.toks != [] && ParseIdentList(s, before).Parsed?
    ensures var r := ParseIdentList(s, before);
            r.v == before + names && Leaves(s, [Tok(s)] + Items(NameItems(names), trailing) + [")"], r.rest)
    ensures FitsNames(names, trailing)
    decreases |s.toks|
  {
    hide MarkOf, IsIdentPrefix, Advance, Leaves, Items, NameItems, ParseIdentList;
    NamesUnfold(s, before);
    NoNames();
    var r := ParseIdentList(s, before);
    var s1 := Advance(s).rest;
    Step(s);
    NoPrefix();
    MarkIsToken(Tok(s1));
    NonEmpty(s1);
    Step(s1);
    var s2 := Advance(s1).rest;
    names, trailing := [], false;
    if MarkOf(Tok(s1)) == RParen {
      NoItems(s, s1, [")"], r.rest);
      assert before + names == before;
    } else {
      MarkIsToken(Tok(s2));
      if MarkOf(Tok(s2)) == Comma {
        var more, last := NamesAccepted(s2, before + [Tok(s1)]);
        names, trailing := [Tok(s1)] + more, if more == [] then true else last;
        assert before + [Tok(s1)] + more == before + names;
        FirstName(Tok(s1), more);
        ItemAndMore(s, s1, [Tok(s1)], s2, NameItems(more), last, trailing, [")"], r.rest);
      } else {
        names := [Tok(s1)];
        NonEmpty(s2);
        Step(s2);
        FirstName(Tok(s1), []);
        assert [Tok(s1)] + [] == names;
        LastItem(s, s1, [Tok(s1)], s2, [")"], r.rest);
      }
    }
  }

  lemma FirstName(name: string, more: seq<string>)
    ensures NameItems([name] + more) == [[name]] + NameItems(more) && (NameItems(more) == [] <==> more == [])
    ensures NameItems([name]) == [[name]]
  {
    assert ([name] + more)[1..] == more;
    assert [name][1..] == [];
  }

  lemma NonEmpty(s: Stream)
    requires Tok(s) != ""
    ensures s.toks != []
  {
  }

  lemma KeywordOfLower(t: string)
    ensures KeywordOf(Lower(t)) == KeywordOf(t)
  {
    assert Lower(Lower(t)) == Lower(t);
  }

  lemma ModifierAccepted(s: Stream) returns (m: ModifierForm)
    requires ParseModifier(s).Parsed?
    ensures var r := ParseModifier(s);
            && r.v == ModifierOf(m) && Leaves(s, ModifierTokens(m), r.rest) && !m.NoModifier?
            && FitsModifier(m, KeywordOf(Tok(s)), r.rest.toks) && (m.Bare? ==> KeywordOf(Tok(s)) == JoinModifier)
  {
    hide MarkOf, KeywordOf, Advance, ParseIdentList, Leaves, IsIdentPrefix, FitsNames;
    var word := Tok(s);
    var s1 := Advance(s).rest;
    Step(s);
    KeywordOfLower(word);
    if KeywordOf(word) == JoinModifier && MarkOf(Tok(s1)) != LParen {
      m := Bare(word);
    } else {
      MarkIsToken(Tok(s1));
      var names, trailing := NamesAccepted(s1, []);
      m := Listed(word, names, trailing);
      assert [] + names == names;
      Join(s, [word], s1, ["("] + Items(NameItems(names), trailing) + [")"], ParseModifier(s).rest);
    }
  }

  // ----- filters -----

  lemma FilterAccepted(s: Stream)
    requires ParseLabelFilter(s).Parsed?
    ensures var r := ParseLabelFilter(s); Leaves(s, FilterTokens(r.v), r.rest) && FitsFilter(r.v, r.rest.toks)
  {
    hide MarkOf, ParseFilterValue, Advance, Leaves, IsIdentPrefix, FitsSum;
    var s1 := Advance(s).rest;
    Step(s);
    FilterMarkIsToken(Tok(s1));
    EmptyIsEof();
    match MarkOf(Tok(s1))
    case Equal => ValueAccepted(s, s1, false, false);
    case NotEqual => ValueAccepted(s, s1, true, false);
    case Matches => ValueAccepted(s, s1, false, true);
    case NotMatches => ValueAccepted(s, s1, true, true);
    case Comma | RBrace => assert ParseLabelFilter(s) == Parsed(LabelFilterExpr(Tok(s), None, false, false), s1);
    case _ =>
  }

  lemma ValueAccepted(s: Stream, s1: Stream, isNegative: bool, isRegexp: bool)
    requires Leaves(s, [Tok(s)], s1) && IsIdentPrefix(Tok(s)) && ParseFilterValue(Tok(s), isNegative, isRegexp, s1).Parsed?
    requires s1.toks != [] && Tok(s1) == FilterText(LabelFilterExpr(Tok(s), None, isNegative, isRegexp))
    ensures var r := ParseFilterValue(Tok(s), isNegative, isRegexp, s1);
            Leaves(s, FilterTokens(r.v), r.rest) && FitsFilter(r.v, r.rest.toks)
  {
    hide ParseString, Advance, Leaves, IsIdentPrefix, FitsSum;
    var r := ParseFilterValue(Tok(s), isNegative, isRegexp, s1);
    Step(s1);
    var s2 := Advance(s1).rest;
    var sum := SumAccepted(s2, []);
    assert [] + sum == sum;
    Join(s, [Tok(s)], s1, [Tok(s1)], s2);
    Join(s, [Tok(s)] + [Tok(s1)], s2, SumTokens(sum), r.rest);
    assert [Tok(s)] + [Tok(s1)] == [r.v.key, FilterText(r.v)];
  }

  lemma {:induction false} FiltersAccepted(s: Stream, before: seq<LabelFilterExpr>) returns (fs: seq<LabelFilterExpr>, trailing: bool)
    requires s.toks != [] && ParseLabelFilters(s, before).Parsed?
    ensures var r := ParseLabelFilters(s, before);
            && r.v == before + fs && Leaves(s, [Tok(s)] + Items(FilterItems(fs), trailing) + ["}"], r.rest)
            && FitsBraces(fs, trailing, r.rest.toks)
    decreases |s.toks|
  {
    hide MarkOf, ParseLabelFilter, Advance, Leaves, FitsFilter, FilterTokens, Items;
    var r := ParseLabelFilters(s, before);
    var s1 := Advance(s).rest;
    Step(s);
    MarkIsToken(Tok(s1));
    fs, trailing := [], false;
    if MarkOf(Tok(s1)) == RBrace {
      NonEmpty(s1);
      Step(s1);
      NoItems(s, s1, ["}"], r.rest);
      assert before + fs == before;
    } else {
      var f, s2 := ParseLabelFilter(s1).v, ParseLabelFilter(s1).rest;
      FilterAccepted(s1);
      MarkIsToken(Tok(s2));
      if MarkOf(Tok(s2)) == Comma {
        var more, last := FiltersAccepted(s2, before + [f]);
        fs, trailing := [f] + more, if more == [] then true else last;
        assert before + [f] + more == before + fs;
        FirstFilter(f, more);
        ItemAndMore(s, s1, FilterTokens(f), s2, FilterItems(more), last, trailing, ["}"], r.rest);
        MoreFilters(f, more, last, trailing, ["}"] + r.rest.toks);
      } else {
        fs := [f];
        NonEmpty(s2);
        Step(s2);
        FirstFilter(f, []);
        assert [f] + [] == fs;
        LastItem(s, s1, FilterTokens(f), s2, ["}"], r.rest);
        MoreFilters(f, [], false, false, ["}"] + r.rest.toks);
      }
    }
  }

  lemma MoreFilters(f: LabelFilterExpr, more: seq<LabelFilterExpr>, last: bool, trailing: bool, rest: seq<string>)
    requires FitsFilter(f, Follow(FilterItems(more), trailing) + rest) && FitsFilters(more, last, rest)
    requires more != [] ==> trailing == last
    ensures FitsFilters([f] + more, trailing, rest)
  {
    assert ([f] + more)[1..] == more;
  }

  lemma FirstFilter(f: LabelFilterExpr, more: seq<LabelFilterExpr>)
    ensures FilterItems([f] + more) == [FilterTokens(f)] + FilterItems(more) && (FilterItems(more) == [] <==> more == [])
    ensures ([f] + more)[0] == f && ([f] + more)[1..] == more
    ensures FilterItems([f]) == [FilterTokens(f)] && FilterItems([]) == []
  {
    hide FilterTokens;
    assert [f][1..] == [];
    assert ([f] + more)[1..] == more;
  }

  lemma LeavesTokens(s: Stream, toks: seq<string>, r: Stream)
    requires Leaves(s, toks, r)
    ensures s.toks == toks + r.toks && (s.bad ==> r.toks != []) && r.bad == s.bad
  {
  }

  /** A selector; what must follow a bare name is known to the caller. */
  lemma MetricAccepted(lib: Lib, s: Stream) returns (f: Form)
    requires s.toks != [] && ParseMetric(lib, s).Parsed?
    ensures f.MetricForm?
    ensures var r := ParseMetric(lib, s);
            && r.v == Tree(lib, f) && Leaves(s, Tokens(f), r.rest)
            && (if IsIdentPrefix(Tok(s)) then f.name == Tok(s) else f.name == "" && f.braces)
            && (if f.braces then FitsBraces(f.filters, f.trailing, r.rest.toks)
                else f.filters == [] && !f.trailing && Advance(s).Parsed? && r.rest == Advance(s).rest && MarkOf(Tok(r.rest)) != LBrace)
  {
    hide MarkOf, ParseLabelFilters, Advance, Leaves, FitsBraces;
    var r := ParseMetric(lib, s);
    if IsIdentPrefix(Tok(s)) {
      var name := Tok(s);
      var s1 := Advance(s).rest;
      Step(s);
      EmptyIsEof();
      if MarkOf(Tok(s1)) != LBrace || s1.toks == [] {
        f := MetricForm(name, false, [], false);
        assert [NameFilter(lib, name)] + [] == [NameFilter(lib, name)];
        assert [name] + [] == [name];
      } else {
        MarkIsToken(Tok(s1));
        var fs, trailing := FiltersAccepted(s1, []);
        assert [] + fs == fs;
        f := MetricForm(name, true, fs, trailing);
        Join(s, [name], s1, BraceTokens(fs, trailing), r.rest);
      }
    } else {
      MarkIsToken(Tok(s));
      var fs, trailing := FiltersAccepted(s, []);
      assert [] + fs == fs;
      f := MetricForm("", true, fs, trailing);
      assert [] + BraceTokens(fs, trailing) == BraceTokens(fs, trailing);
    }
  }

  // ----- rollups -----

  lemma DurationAccepted(t: string, s: Stream)
    requires s.toks != [] && ParsePositiveDuration(t, s).Parsed?
    ensures var r := ParsePositiveDuration(t, s);
            r.v == t && IsDuration(t) && Leaves(s, [Tok(s)], r.rest)
  {
    hide MarkOf, IsDuration;
    MarkIsToken(t);
    Step(s);
    MarksOfPunctuation();
  }

  lemma WindowCloses(window: string, step: string, inheritStep: bool, t: string, s: Stream)
    requires s.toks != [] && CloseWindow(window, step, inheritStep, t, s).Parsed?
    ensures var r := CloseWindow(window, step, inheritStep, t, s);
            r.v == (window, step, inheritStep) && Leaves(s, [Tok(s)], r.rest) && t == "]"
  {
    MarkIsToken(t);
    Step(s);
  }

  function StepOf(step: StepForm): string { if step.Joined? || step.Apart? then step.step else "" }

  lemma StepAccepted(window: string, inheritStep: bool, t: string, s: Stream)
    requires s.toks != [] && ParseStep(window, inheritStep, t, s).Parsed?
    ensures var r := ParseStep(window, inheritStep, t, s);
            if t == "]" then r.v == (window, "", inheritStep) && Leaves(s, [Tok(s)], r.rest)
            else IsDuration(t) && r.v == (window, t, inheritStep) && Leaves(s, [Tok(s), "]"], r.rest)
  {
    hide MarkOf, IsDuration, Advance, CloseWindow, ParsePositiveDuration, Leaves;
    MarkIsToken(t);
    MarksOfPunctuation();
    if MarkOf(t) == RBracket {
      WindowCloses(window, "", inheritStep, t, s);
    } else {
      var s1 := ParsePositiveDuration(t, s).rest;
      DurationAccepted(t, s);
      NothingCloses(window, t, inheritStep, s1);
      WindowCloses(window, t, inheritStep, Tok(s1), s1);
      Join(s, [Tok(s)], s1, [Tok(s1)], ParseStep(window, inheritStep, t, s).rest);
      assert [Tok(s)] + ["]"] == [Tok(s), "]"];
    }
  }

  lemma NothingCloses(window: string, step: string, inheritStep: bool, s: Stream)
    ensures s.toks == [] ==> CloseWindow(window, step, inheritStep, Tok(s), s).Failed?
    ensures s.toks == [] ==> ParsePositiveDuration(Tok(s), s).Failed? && ParseStep(window, inheritStep, Tok(s), s).Failed?
  {
    hide IsDuration;
    EmptyIsEof();
    assert !IsDuration("") by { if IsDuration("") { DurationMarks(""); } }
  }

  lemma ColonAccepted(window: string, s: Stream) returns (step: StepForm)
    requires ParseColon(window, s).Parsed?
    ensures var r := ParseColon(window, s);
            && r.v == (window, StepText(Window(window, step)), step.Inherited?) && Leaves(s, StepFormTokens(step), r.rest)
    ensures (step.NoStep? <==> !StartsWithColon(Tok(s))) && (step.Joined? || step.Apart? ==> IsDuration(step.step))
  {
    hide MarkOf, IsDuration, Advance, CloseWindow, ParseStep, Leaves;
    var r, t := ParseColon(window, s), Tok(s);
    if !StartsWithColon(t) {
      step := NoStep;
      NothingCloses(window, "", false, s);
      WindowCloses(window, "", false, t, s);
    } else if t[1..] != "" {
      assert t == ":" + t[1..];
      StepAccepted(window, false, t[1..], s);
      step := if t[1..] == "]" then Closing else Joined(t[1..]);
      assert ":" + "]" == ":]";
    } else {
      assert t == ":" + t[1..] == ":";
      var s1 := Advance(s).rest;
      var u := Tok(s1);
      Step(s);
      MarkIsToken(u);
      MarksOfPunctuation();
      NothingCloses(window, "", MarkOf(u) == RBracket, s1);
      StepAccepted(window, MarkOf(u) == RBracket, u, s1);
      step := if u == "]" then Inherited else Apart(u);
      if u == "]" { Join(s, [":"], s1, ["]"], r.rest); } else { Join(s, [":"], s1, [u, "]"], r.rest); }
      assert [":"] + ["]"] == [":", "]"] && [":"] + [u, "]"] == [":", u, "]"];
    }
  }

  lemma WindowAccepted(s: Stream) returns (w: WindowForm)
    requires ParseWindowAndStep(s).Parsed?
    ensures var r := ParseWindowAndStep(s);
            && w.Window? && r.v == (w.length, StepText(w), w.step.Inherited?) && Leaves(s, WindowTokens(w), r.rest)
            && FitsWindow(w)
  {
    hide MarkOf, IsDuration, Advance, ParseColon, ParsePositiveDuration, Leaves;
    var r, s1 := ParseWindowAndStep(s), Advance(s).rest;
    MarkIsToken(Tok(s));
    NonEmpty(s);
    Step(s);
    var t := Tok(s1);
    if StartsWithColon(t) {
      var step := ColonAccepted("", s1);
      w := Window("", step);
      Join(s, ["["], s1, StepFormTokens(step), r.rest);
      assert ["["] + [] + StepFormTokens(step) == ["["] + StepFormTokens(step);
    } else {
      NothingCloses("", "", false, s1);
      DurationAccepted(t, s1);
      DurationMarks(t);
      var s2 := ParsePositiveDuration(t, s1).rest;
      var step := ColonAccepted(t, s2);
      w := Window(t, step);
      Join(s, ["["], s1, [t], s2);
      Join(s, ["["] + [t], s2, StepFormTokens(step), r.rest);
    }
  }

  lemma OffsetAccepted(s: Stream) returns (o: OffsetForm)
    requires ParseOffset(s).Parsed? && s.toks != []
    ensures var r := ParseOffset(s); o.Offset? && r.v == OffsetText(o) && Leaves(s, OffsetTokens(o), r.rest) && FitsOffset(o)
  {
    hide MarkOf, KeywordOf, IsDuration, Advance, Leaves;
    var r, s1 := ParseOffset(s), Advance(s).rest;
    Step(s);
    var t := Tok(s1);
    MarkIsToken(t);
    NothingIsNoDuration();
    if MarkOf(t) == Minus {
      NonEmpty(s1);
      Step(s1);
      var s2 := Advance(s1).rest;
      o := Offset(Tok(s), true, Tok(s2));
      NonEmpty(s2);
      Step(s2);
      Join(s, [Tok(s)], s1, ["-"], s2);
      Join(s, [Tok(s)] + ["-"], s2, [Tok(s2)], r.rest);
    } else {
      o := Offset(Tok(s), false, t);
      NonEmpty(s1);
      Step(s1);
      Join(s, [Tok(s)], s1, [t], r.rest);
      assert [Tok(s)] + [] + [t] == [Tok(s)] + [t];
    }
  }

  lemma NothingIsNoDuration()
    ensures !IsDuration("")
  {
    if IsDuration("") { DurationMarks(""); }
  }

  lemma RollupAccepted(e: Expr, s: Stream) returns (w: WindowForm, o: OffsetForm)
    requires ParseRollup(e, s).Parsed? && s.toks != [] && (IsMark(s, LBracket) || IsWord(s, OffsetWord))
    ensures var r := ParseRollup(e, s);
            && r.v == Rollup(e, LengthOf(w), OffsetText(o), StepText(w), w.Window? && w.step.Inherited?)
            && Leaves(s, WindowTokens(w) + OffsetTokens(o), r.rest)
            && FitsWindow(w) && FitsOffset(o) && (w.Window? || o.Offset?)
            && (o.NoOffset? ==> KeywordOf(Next(r.rest.toks)) != OffsetWord)
  {
    hide MarkOf, KeywordOf, IsDuration, Advance, ParseWindowAndStep, ParseOffset, Leaves, WindowTokens, OffsetTokens;
    var r := ParseRollup(e, s);
    w, o := NoWindow, NoOffset;
    NoWindowOrOffset();
    if !IsMark(s, LBracket) {
      o := OffsetAccepted(s);
      assert [] + OffsetTokens(o) == OffsetTokens(o);
    } else {
      w := WindowAccepted(s);
      var s1 := ParseWindowAndStep(s).rest;
      if IsWord(s1, OffsetWord) {
        NoKeywordAtEnd();
        NonEmpty(s1);
        o := OffsetAccepted(s1);
        Join(s, WindowTokens(w), s1, OffsetTokens(o), r.rest);
      } else {
        assert WindowTokens(w) + [] == WindowTokens(w);
      }
    }
  }

  lemma NoWindowOrOffset()
    ensures WindowTokens(NoWindow) == [] && OffsetTokens(NoOffset) == []
  {
  }

  lemma NoKeywordAtEnd()
    ensures KeywordOf("") == NoKeyword && OpOf("") == None
  {
    Punctuation("");
  }

  // ----- operators -----

  lemma LimitAccepted(s: Stream) returns (l: LimitForm)
    requires ParseLimit(s).Parsed? && (s.bad ==> s.toks != [])
    ensures var r := ParseLimit(s);
            && r.v == LimitOf(l) && Leaves(s, LimitFormTokens(l), r.rest) && FitsLimit(l)
            && (l.NoLimit? ==> KeywordOf(Next(r.rest.toks)) != LimitWord) && (l.NoLimit? <==> !IsWord(s, LimitWord))
  {
    hide KeywordOf, Advance, Atoi;
    var r := ParseLimit(s);
    l := NoLimit;
    if IsWord(s, LimitWord) {
      NoKeywordAtEnd();
      NonEmpty(s);
      Step(s);
      var s1 := Advance(s).rest;
      assert Atoi("").None? by { EmptyIsNoNumeral(); }
      NonEmpty(s1);
      Step(s1);
      l := Limit(Tok(s), Tok(s1));
      Join(s, [Tok(s)], s1, [Tok(s1)], r.rest);
    }
  }

  lemma EmptyIsNoNumeral()
    ensures Atoi("").None?
  {
  }

  function BoolTokens(word: string): seq<string> { if word == "" then [] else [word] }

  lemma BoolAccepted(op: BinOp, s: Stream) returns (word: string)
    requires ParseBool(op, s).Parsed? && (s.bad ==> s.toks != [])
    ensures var r := ParseBool(op, s);
            && r.v == (word != "") && Leaves(s, BoolTokens(word), r.rest)
            && (if word == "" then KeywordOf(Next(s.toks)) != BoolWord && r.rest == s
                else KeywordOf(word) == BoolWord && IsCmp(op))
  {
    hide KeywordOf, Advance;
    word := "";
    NoKeywordAtEnd();
    if IsWord(s, BoolWord) {
      word := Tok(s);
      NonEmpty(s);
      Step(s);
    }
  }

  lemma GroupAccepted(s: Stream, k: Keyword) returns (m: ModifierForm)
    requires KeywordOf(Tok(s)) == k && ParseModifier(s).Parsed?
    ensures var r := ParseModifier(s);
            r.v == ModifierOf(m) && Leaves(s, ModifierTokens(m), r.rest) && !m.NoModifier? && FitsModifier(m, k, r.rest.toks)
    ensures k != JoinModifier ==> FitsModifier(m, k, [])
  {
    hide KeywordOf, MarkOf, FitsNames, ParseModifier;
    m := ModifierAccepted(s);
  }

  lemma WordsUnfold(op: BinOp, s: Stream)
    requires ParseOpModifiers(op, s).Parsed?
    ensures ParseBool(op, s).Parsed?
    ensures var r, b, s1 := ParseOpModifiers(op, s), ParseBool(op, s).v, ParseBool(op, s).rest;
            if !IsWord(s1, GroupModifier) then r == Parsed(OpInfo(op, b, NO_MODIFIER, NO_MODIFIER), s1)
            else
              && ParseModifier(s1).Parsed?
              && var g, s2 := ParseModifier(s1).v, ParseModifier(s1).rest;
              if !IsWord(s2, JoinModifier) then r == Parsed(OpInfo(op, b, g, NO_MODIFIER), s2)
              else
                && !IsLogicalSet(op) && ParseModifier(s2).Parsed?
                && r == Parsed(OpInfo(op, b, g, ParseModifier(s2).v), ParseModifier(s2).rest)
  {
    hide KeywordOf, ParseModifier, ParseBool;
  }

  /** The modifiers after an operator and its `bool`. */
  lemma GroupsAccepted(op: BinOp, s: Stream) returns (group: ModifierForm, join: ModifierForm)
    requires ParseOpModifiers(op, s).Parsed? && (s.bad ==> s.toks != [])
    requires ParseBool(op, s).Parsed? && Leaves(ParseBool(op, s).rest, [], ParseBool(op, s).rest)
    ensures var r, b, s1 := ParseOpModifiers(op, s), ParseBool(op, s).v, ParseBool(op, s).rest;
            && r.v == OpInfo(op, b, ModifierOf(group), ModifierOf(join))
            && Leaves(s1, ModifierTokens(group) + ModifierTokens(join), r.rest)
            && FitsModifiers(op, group, join, r.rest.toks)
  {
    hide KeywordOf, ParseModifier, ParseBool, ParseOpModifiers, ModifierTokens, FitsModifier, Leaves, ModifierOf;
    WordsUnfold(op, s);
    NoModifierTokens();
    var r, s1 := ParseOpModifiers(op, s), ParseBool(op, s).rest;
    group, join := NoModifier, NoModifier;
    if IsWord(s1, GroupModifier) {
      group := GroupAccepted(s1, GroupModifier);
      var s2 := ParseModifier(s1).rest;
      LeavesTokens(s1, ModifierTokens(group), s2);
      LeavesNothing(s2);
      if IsWord(s2, JoinModifier) { join := GroupAccepted(s2, JoinModifier); }
      Join(s1, ModifierTokens(group), s2, ModifierTokens(join), r.rest);
    } else {
      Join(s1, [], s1, [], s1);
    }
  }

  function WordTokens(word: string, group: ModifierForm, join: ModifierForm): seq<string> {
    BoolTokens(word) + (ModifierTokens(group) + ModifierTokens(join))
  }

  /** The words after an operator. */
  lemma WordsAccepted(op: string, s: Stream) returns (word: string, group: ModifierForm, join: ModifierForm)
    requires OpOf(op).Some? && ParseOpModifiers(OpOf(op).value, s).Parsed? && (s.bad ==> s.toks != [])
    ensures var r := ParseOpModifiers(OpOf(op).value, s);
            && Leaves(s, WordTokens(word, group, join), r.rest)
            && r.v == InfoOfWords(op, word, group, join) && FitsWords(op, word, group, join, r.rest.toks)
  {
    hide KeywordOf, OpOf, ParseModifier, ParseBool, ParseOpModifiers, ModifierTokens, FitsModifiers, FitsWords, InfoOfWords, Leaves, ModifierOf, BoolTokens, Next;
    var b := OpOf(op).value;
    WordsUnfold(b, s);
    word := BoolAccepted(b, s);
    var s1, rest := ParseBool(b, s).rest, ParseOpModifiers(b, s).rest;
    LeavesTokens(s, BoolTokens(word), s1);
    LeavesNothing(s1);
    group, join := GroupsAccepted(b, s);
    LeavesTokens(s1, ModifierTokens(group) + ModifierTokens(join), rest);
    Join(s, BoolTokens(word), s1, ModifierTokens(group) + ModifierTokens(join), rest);
    Regrouped(ModifierTokens(group), ModifierTokens(join), rest.toks);
    WordsFit(op, word, group, join, s.toks, s1.toks, rest.toks);
  }

  lemma Regrouped(a: seq<string>, b: seq<string>, c: seq<string>)
    ensures a + b + c == a + (b + c)
  {
  }

  lemma WordsFit(
    op: string, word: string, group: ModifierForm, join: ModifierForm, toks: seq<string>, groups: seq<string>, operand: seq<string>)
    requires OpOf(op).Some? && FitsModifiers(OpOf(op).value, group, join, operand)
    requires groups == ModifierTokens(group) + (ModifierTokens(join) + operand)
    requires if word == "" then KeywordOf(Next(toks)) != BoolWord && toks == groups else KeywordOf(word) == BoolWord && IsCmp(OpOf(op).value)
    ensures FitsWords(op, word, group, join, operand)
    ensures InfoOfWords(op, word, group, join) == OpInfo(OpOf(op).value, word != "", ModifierOf(group), ModifierOf(join))
  {
    hide KeywordOf, OpOf, ModifierTokens, FitsModifiers, ModifierOf;
  }

  lemma NoModifierTokens()
    ensures ModifierTokens(NoModifier) == [] && ModifierOf(NoModifier) == NO_MODIFIER
    ensures forall k, rest :: FitsModifier(NoModifier, k, rest)
    ensures forall m: ModifierForm :: ModifierOf(m).op == "" ==> m.NoModifier? || m.word == ""
  {
    assert forall t :: |Lower(t)| == |t|;
  }

  // ----- expressions -----

  lemma {:induction false} ExprAccepted(lib: Lib, s: Stream) returns (f: Form)
    requires ParseExpr(lib, s).Parsed?
    ensures var r := ParseExpr(lib, s);
            f.Chain? && r.v == Tree(lib, f) && Leaves(s, Tokens(f), r.rest) && Fits(lib, f, r.rest.toks)
    decreases |s.toks|, 9
  {
    hide ParseSingle, ParseOperations, FitsSingle, FitsOps, Layered, Fold, Leaves, OpOf, AreOperands;
    var r := ParseExpr(lib, s);
    var first := SingleAccepted(lib, s);
    var e, s1 := ParseSingle(lib, s).v, ParseSingle(lib, s).rest;
    LeavesTokens(s, Tokens(first), s1);
    assert e == Fold(e, [], []) by { FoldOfNone(e); }
    var ops := OperationsAccepted(lib, e, [], [], s1);
    f := Chain(first, ops);
    assert [] + Infos(ops) == Infos(ops) && [] + Rights(lib, ops) == Rights(lib, ops);
    FoldIsLayered(e, Infos(ops), Rights(lib, ops));
    LeavesTokens(s1, OpsTokens(ops), r.rest);
    Join(s, Tokens(first), s1, OpsTokens(ops), r.rest);
  }

  lemma FoldOfNone(e: Expr)
    ensures Fold(e, [], []) == e
  {
  }

  lemma FoldMore(first: Expr, ops: seq<OpInfo>, xs: seq<Expr>, o: OpInfo, x: Expr)
    requires |ops| == |xs|
    ensures Fold(first, ops + [o], xs + [x]) == Balance(Fold(first, ops, xs), o, x)
  {
    assert (ops + [o])[..|ops|] == ops && (xs + [x])[..|xs|] == xs;
  }

  lemma OperationsUnfold(lib: Lib, left: Expr, s: Stream)
    requires ParseOperations(lib, left, s).Parsed?
    ensures OpOf(Tok(s)).None? ==> ParseOperations(lib, left, s) == Parsed(left, s)
    ensures OpOf(Tok(s)).Some? ==>
              && s.toks != [] && Advance(s).Parsed?
              && var words := ParseOpModifiers(OpOf(Tok(s)).value, Advance(s).rest);
              && words.Parsed? && var right := ParseSingle(lib, words.rest);
              right.Parsed? && ParseOperations(lib, left, s) == ParseOperations(lib, Balance(left, words.v, right.v), right.rest)
  {
    hide OpOf, ParseOpModifiers, ParseSingle, Balance, Advance;
  }

  lemma {:induction false} OperationsAccepted(lib: Lib, first: Expr, infos: seq<OpInfo>, xs: seq<Expr>, s: Stream)
    returns (ops: seq<OpForm>)
    requires |infos| == |xs| && ParseOperations(lib, Fold(first, infos, xs), s).Parsed? && (s.bad ==> s.toks != [])
    ensures var r := ParseOperations(lib, Fold(first, infos, xs), s);
            && r.v == Fold(first, infos + Infos(ops), xs + Rights(lib, ops)) && Leaves(s, OpsTokens(ops), r.rest)
            && FitsOps(lib, ops, r.rest.toks) && AreOperands(Rights(lib, ops)) && OpOf(Next(r.rest.toks)).None?
    decreases |s.toks|, 0
  {
    hide OpOf, ParseOpModifiers, ParseOperations, ParseSingle, Leaves, Fold, Balance, FitsSingle, FitsOp, FitsWords, FitsOps, Advance, OpTokens, OpsTokens, AreOperands, InfoOf, InfoOfWords, Tokens, Tree, Infos, Rights, ModifierTokens, WordTokens, ModifierOf;
    var left := Fold(first, infos, xs);
    var r, t := ParseOperations(lib, left, s), Tok(s);
    OperationsUnfold(lib, left, s);
    ops := [];
    assert Infos([]) == [] && Rights(lib, []) == [] by { NoInfos(lib); }
    if OpOf(t).None? {
      assert infos + [] == infos && xs + [] == xs;
      LeavesNothing(s);
      NoOps(lib, r.rest.toks);
    } else {
      var s1 := Advance(s).rest;
      Step(s);
      LeavesTokens(s, [t], s1);
      var word, group, join := WordsAccepted(t, s1);
      var info, s2 := ParseOpModifiers(OpOf(t).value, s1).v, ParseOpModifiers(OpOf(t).value, s1).rest;
      LeavesTokens(s1, WordTokens(word, group, join), s2);
      var right := SingleAccepted(lib, s2);
      var s3 := ParseSingle(lib, s2).rest;
      LeavesTokens(s2, Tokens(right), s3);
      var o := OpForm(t, word, group, join, right);
      OpOfWords(o, s2.toks);
      FoldMore(first, infos, xs, info, Tree(lib, right));
      var more := OperationsAccepted(lib, first, infos + [info], xs + [Tree(lib, right)], s3);
      ops := [o] + more;
      LeavesTokens(s3, OpsTokens(more), r.rest);
      OpsFit(lib, o, more, r.rest.toks);
      assert infos + [info] + Infos(more) == infos + Infos(ops);
      assert xs + [Tree(lib, right)] + Rights(lib, more) == xs + Rights(lib, ops);
      OpJoins(s, s1, s2, s3, o, more, r.rest);
    }
  }

  lemma NoInfos(lib: Lib)
    ensures Infos([]) == [] && Rights(lib, []) == []
  {
  }

  lemma OpOfWords(o: OpForm, operand: seq<string>)
    ensures FitsOp(o, operand) == FitsWords(o.op, o.boolWord, o.group, o.join, operand)
    ensures InfoOf(o) == InfoOfWords(o.op, o.boolWord, o.group, o.join)
  {
  }

  lemma NoOps(lib: Lib, rest: seq<string>)
    ensures FitsOps(lib, [], rest) && AreOperands([]) && OpsTokens([]) == []
  {
  }

  lemma OpJoins(s: Stream, s1: Stream, s2: Stream, s3: Stream, o: OpForm, more: seq<OpForm>, r: Stream)
    requires Leaves(s, [o.op], s1) && Leaves(s1, WordTokens(o.boolWord, o.group, o.join), s2)
    requires Leaves(s2, Tokens(o.right), s3) && Leaves(s3, OpsTokens(more), r)
    ensures Leaves(s, OpTokens(o) + OpsTokens(more), r)
  {
    hide ModifierTokens, Tokens, OpsTokens, Leaves;
    var words := WordTokens(o.boolWord, o.group, o.join);
    Join(s, [o.op], s1, words, s2);
    Join(s, [o.op] + words, s2, Tokens(o.right), s3);
    Join(s, [o.op] + words + Tokens(o.right), s3, OpsTokens(more), r);
    assert OpTokens(o) == [o.op] + BoolTokens(o.boolWord) + ModifierTokens(o.group) + ModifierTokens(o.join) + Tokens(o.right);
    assert [o.op] + words + Tokens(o.right) == OpTokens(o);
  }

  lemma LeavesNothing(s: Stream)
    requires s.bad ==> s.toks != []
    ensures Leaves(s, [], s)
  {
    assert [] + s.toks == s.toks;
  }

  lemma OpsFit(lib: Lib, o: OpForm, more: seq<OpForm>, rest: seq<string>)
    requires FitsOp(o, Tokens(o.right) + (OpsTokens(more) + rest)) && FitsSingle(lib, o.right, OpsTokens(more) + rest)
    requires FitsOps(lib, more, rest) && AreOperands(Rights(lib, more)) && !Tree(lib, o.right).Binary?
    ensures FitsOps(lib, [o] + more, rest) && AreOperands(Rights(lib, [o] + more))
    ensures Infos([o] + more) == [InfoOf(o)] + Infos(more)
    ensures Rights(lib, [o] + more) == [Tree(lib, o.right)] + Rights(lib, more)
    ensures OpsTokens([o] + more) == OpTokens(o) + OpsTokens(more)
  {
    hide FitsOp, FitsSingle, OpTokens, InfoOf, Tree;
    assert ([o] + more)[1..] == more;
  }

  lemma SingleSplits(lib: Lib, s: Stream)
    requires ParseSingle(lib, s).Parsed?
    ensures var r := ParseSingle(lib, s);
            if StartsWith(s) then r == ParseWith(lib, s)
            else
              && ParseUnsuffixed(lib, s).Parsed?
              && var e, s1 := ParseUnsuffixed(lib, s).v, ParseUnsuffixed(lib, s).rest;
              r == if IsMark(s1, LBracket) || IsWord(s1, OffsetWord) then ParseRollup(e, s1) else Parsed(e, s1)
  {
    hide KeywordOf, MarkOf, Advance, ParseWith, ParseUnsuffixed, ParseRollup;
  }

  predicate StartsWith(s: Stream) { IsWord(s, WithWord) && Advance(s).Parsed? && MarkOf(Advance(s).v) == LParen }

  lemma {:induction false} SingleAccepted(lib: Lib, s: Stream) returns (f: Form)
    requires ParseSingle(lib, s).Parsed?
    ensures var r := ParseSingle(lib, s);
            && r.v == Tree(lib, f) && Leaves(s, Tokens(f), r.rest) && FitsSingle(lib, f, r.rest.toks)
            && !Tree(lib, f).Binary?
    decreases |s.toks|, 8
  {
    hide KeywordOf, MarkOf, Advance, ParseWith, ParseUnsuffixed, ParseRollup, Leaves, WindowTokens, OffsetTokens, FitsWindow, FitsOffset, FitsDefs, FitsAll, FitsBraces, FitsSum, RepeatsName, StartsWith, ParseSingle;
    SingleSplits(lib, s);
    var r := ParseSingle(lib, s);
    NoKeywordAtEnd();
    EmptyIsEof();
    if StartsWith(s) {
      f := WithAccepted(lib, s);
    } else {
      var atom := AtomAccepted(lib, s);
      var e, s1 := ParseUnsuffixed(lib, s).v, ParseUnsuffixed(lib, s).rest;
      if IsMark(s1, LBracket) || IsWord(s1, OffsetWord) {
        NonEmpty(s1);
        var w, o := RollupAccepted(e, s1);
        LeavesTokens(s1, WindowTokens(w) + OffsetTokens(o), r.rest);
        f := RollupForm(atom, w, o);
        Join(s, Tokens(atom), s1, WindowTokens(w) + OffsetTokens(o), r.rest);
        assert Tokens(f) == Tokens(atom) + (WindowTokens(w) + OffsetTokens(o));
      } else {
        f := atom;
      }
    }
  }

  lemma AtomUnfold(lib: Lib, s: Stream)
    requires ParseUnsuffixed(lib, s).Parsed?
    ensures s.toks != []
    ensures var r, t := ParseUnsuffixed(lib, s), Tok(s);
            if IsNumberStart(t) then
              lib.parseFloat(t).Some? && Advance(s).Parsed? && r == Parsed(Number(lib.parseFloat(t).value), Advance(s).rest)
            else if IsStringPrefix(t) then
              ParseString(s, []).Parsed? && r == Parsed(Str(StringExpr("", ParseString(s, []).v)), ParseString(s, []).rest)
            else if IsIdentPrefix(t) then r == ParseIdentExpr(lib, s)
            else if MarkOf(t) == LParen then
              ParseList(lib, s, []).Parsed? && r == Parsed(Parens(ParseList(lib, s, []).v), ParseList(lib, s, []).rest)
            else if MarkOf(t) == LBrace then r == ParseMetric(lib, s)
            else
              && (MarkOf(t) == Minus || MarkOf(t) == Plus) && Advance(s).Parsed?
              && var inner := ParseSingle(lib, Advance(s).rest);
              inner.Parsed? && r == Parsed(if MarkOf(t) == Minus then Negated(inner.v) else inner.v, inner.rest)
  {
    hide KeywordOf, MarkOf, Advance, ParseString, ParseIdentExpr, ParseList, ParseMetric, ParseSingle, IsNumberStart, IsStringPrefix, IsIdentPrefix;
  }

  lemma {:induction false} AtomAccepted(lib: Lib, s: Stream) returns (f: Form)
    requires ParseUnsuffixed(lib, s).Parsed? && !StartsWith(s)
    ensures var r := ParseUnsuffixed(lib, s);
            && IsAtom(f) && r.v == Tree(lib, f) && Leaves(s, Tokens(f), r.rest) && Fits(lib, f, r.rest.toks)
            && !Tree(lib, f).Binary?
    decreases |s.toks|, 7
  {
    hide KeywordOf, MarkOf, Advance, ParseString, ParseUnsuffixed, ParseIdentExpr, ParseList, ParseMetric, ParseSingle, IsNumberPrefix, IsStringPrefix, IsIdentPrefix, FitsSum, FitsSingle, Leaves, FitsBraces, FitsAll, SumTokens;
    AtomUnfold(lib, s);
    var r, t := ParseUnsuffixed(lib, s), Tok(s);
    MarkIsToken(t);
    if IsNumberStart(t) {
      Step(s);
      f := NumberForm(t);
    } else if IsStringPrefix(t) {
      var sum := SumAccepted(s, []);
      assert [] + sum == sum;
      SumStart(s, sum, r.rest);
      f := StringForm(sum);
    } else if IsIdentPrefix(t) {
      f := IdentAccepted(lib, s);
    } else if MarkOf(t) == LParen {
      var args, trailing := ListAccepted(lib, s, []);
      assert [] + TreeAll(lib, args) == TreeAll(lib, args);
      f := ParensForm(args, trailing);
    } else if MarkOf(t) == LBrace {
      f := MetricAccepted(lib, s);
      MetricFits(lib, f, r.rest.toks);
    } else {
      var s1 := Advance(s).rest;
      Step(s);
      var inner := SingleAccepted(lib, s1);
      f := SignForm(t, inner);
      Join(s, [t], s1, Tokens(inner), r.rest);
    }
  }

  lemma SumStart(s: Stream, sum: seq<string>, r: Stream)
    requires Leaves(s, SumTokens(sum), r) && FitsSum(sum, r.toks)
    ensures sum != [] && sum[0] == Tok(s)
  {
  }

  lemma ListUnfold(lib: Lib, s: Stream, before: seq<Expr>)
    requires s.toks != [] && ParseList(lib, s, before).Parsed?
    ensures Advance(s).Parsed?
    ensures var r, s1 := ParseList(lib, s, before), Advance(s).rest;
            if MarkOf(Tok(s1)) == RParen then Advance(s1).Parsed? && r == Parsed(before, Advance(s1).rest)
            else
              && ParseExpr(lib, s1).Parsed?
              && var e, s2 := ParseExpr(lib, s1).v, ParseExpr(lib, s1).rest;
              if MarkOf(Tok(s2)) == Comma then s2.toks != [] && r == ParseList(lib, s2, before + [e])
              else MarkOf(Tok(s2)) == RParen && Advance(s2).Parsed? && r == Parsed(before + [e], Advance(s2).rest)
  {
    hide MarkOf, ParseExpr, Advance;
    if Advance(s).Parsed? { Step(s); }
  }

  lemma {:induction false} ListAccepted(lib: Lib, s: Stream, before: seq<Expr>) returns (fs: seq<Form>, trailing: bool)
    requires s.toks != [] && ParseList(lib, s, before).Parsed?
    ensures var r := ParseList(lib, s, before);
            && r.v == before + TreeAll(lib, fs)
            && Leaves(s, [Tok(s)] + Items(TokensAll(fs), trailing) + [")"], r.rest)
            && (trailing ==> fs != []) && FitsAll(lib, fs, trailing, [")"] + r.rest.toks)
    decreases |s.toks|, 5
  {
    hide MarkOf, ParseExpr, ParseList, Advance, Leaves, Fits, FitsAll, TokensAll, TreeAll, Tokens, Items, Follow, Tree;
    ListUnfold(lib, s, before);
    NoForms(lib, [")"] + ParseList(lib, s, before).rest.toks);
    var r := ParseList(lib, s, before);
    var s1 := Advance(s).rest;
    Step(s);
    MarkIsToken(Tok(s1));
    fs, trailing := [], false;
    if MarkOf(Tok(s1)) == RParen {
      NonEmpty(s1);
      Step(s1);
      NoItems(s, s1, [")"], r.rest);
      assert before + TreeAll(lib, fs) == before;
    } else {
      var f := ExprAccepted(lib, s1);
      var s2 := ParseExpr(lib, s1).rest;
      MarkIsToken(Tok(s2));
      if MarkOf(Tok(s2)) == Comma {
        var more, last := ListAccepted(lib, s2, before + [Tree(lib, f)]);
        fs, trailing := [f] + more, if more == [] then true else last;
        FirstItem(lib, f, more);
        assert before + [Tree(lib, f)] + TreeAll(lib, more) == before + TreeAll(lib, fs);
        ItemAndMore(s, s1, Tokens(f), s2, TokensAll(more), last, trailing, [")"], r.rest);
        MoreItems(lib, f, more, last, trailing, [")"] + r.rest.toks);
      } else {
        fs := [f];
        NonEmpty(s2);
        Step(s2);
        FirstItem(lib, f, []);
        assert [f] + [] == fs;
        LastItem(s, s1, Tokens(f), s2, [")"], r.rest);
        MoreItems(lib, f, [], false, false, [")"] + r.rest.toks);
      }
    }
  }

  lemma NoForms(lib: Lib, rest: seq<string>)
    ensures TokensAll([]) == [] && TreeAll(lib, []) == [] && forall trailing :: FitsAll(lib, [], trailing, rest)
  {
  }

  lemma FirstItem(lib: Lib, f: Form, more: seq<Form>)
    ensures TokensAll([f] + more) == [Tokens(f)] + TokensAll(more) && (TokensAll(more) == [] <==> more == [])
    ensures TokensAll([f]) == [Tokens(f)] && TokensAll([]) == []
    ensures TreeAll(lib, [f] + more) == [Tree(lib, f)] + TreeAll(lib, more) && TreeAll(lib, [f]) == [Tree(lib, f)]
  {
    hide Tokens, Tree;
    assert ([f] + more)[1..] == more && [f][1..] == [];
  }

  lemma MoreItems(lib: Lib, f: Form, more: seq<Form>, last: bool, trailing: bool, rest: seq<string>)
    requires f.Chain? && Fits(lib, f, Follow(TokensAll(more), trailing) + rest) && FitsAll(lib, more, last, rest)
    requires more != [] ==> trailing == last
    ensures FitsAll(lib, [f] + more, trailing, rest)
  {
    hide Fits;
    assert ([f] + more)[1..] == more;
  }

  function ListTokens(fs: seq<Form>, trailing: bool): seq<string> { ["("] + Items(TokensAll(fs), trailing) + [")"] }

  lemma {:induction false} ArgsAccepted(lib: Lib, s: Stream) returns (fs: seq<Form>, trailing: bool)
    requires ParseArgs(lib, s).Parsed?
    ensures var r := ParseArgs(lib, s);
            && r.v == TreeAll(lib, fs) && Leaves(s, ListTokens(fs, trailing), r.rest)
            && (trailing ==> fs != []) && FitsAll(lib, fs, trailing, [")"] + r.rest.toks)
    decreases |s.toks|, 6
  {
    hide ParseList, Leaves, FitsAll, MarkOf;
    MarkIsToken(Tok(s));
    fs, trailing := ListAccepted(lib, s, []);
    assert [] + TreeAll(lib, fs) == TreeAll(lib, fs);
  }

  lemma MetricFits(lib: Lib, f: Form, rest: seq<string>)
    requires f.MetricForm? && (f.name == "" ==> f.braces)
    requires f.name != "" ==>
               IsIdentPrefix(f.name) && KeywordOf(f.name) != NumberWord && (!f.braces ==> EndsName(f.name, Next(rest)))
    requires if f.braces then FitsBraces(f.filters, f.trailing, rest) else f.filters == [] && !f.trailing
    ensures Fits(lib, f, rest)
  {
    hide KeywordOf, IsIdentPrefix, EndsName, FitsBraces;
  }

  lemma IdentUnfold(lib: Lib, s: Stream)
    requires s.toks != [] && ParseIdentExpr(lib, s).Parsed?
    ensures Advance(s).Parsed?
    ensures var r, t := ParseIdentExpr(lib, s), Advance(s).v;
            || (r == ParseMetric(lib, s) && (EndsName(Tok(s), t) || MarkOf(t) == LBrace))
            || (r == ParseAggr(lib, s) && IsWord(s, AggrName))
            || (r == ParseFunc(lib, s) && !IsWord(s, AggrName) && MarkOf(t) == LParen)
  {
    hide KeywordOf, MarkOf, OpOf, Advance, ParseMetric, ParseAggr, ParseFunc, IsIdentPrefix;
  }

  lemma {:induction false} IdentAccepted(lib: Lib, s: Stream) returns (f: Form)
    requires s.toks != [] && ParseIdentExpr(lib, s).Parsed? && IsIdentPrefix(Tok(s)) && KeywordOf(Tok(s)) != NumberWord && !StartsWith(s)
    ensures var r := ParseIdentExpr(lib, s);
            && IsAtom(f) && r.v == Tree(lib, f) && Leaves(s, Tokens(f), r.rest) && Fits(lib, f, r.rest.toks)
            && !Tree(lib, f).Binary?
    decreases |s.toks|, 6
  {
    hide KeywordOf, MarkOf, OpOf, Advance, ParseIdentExpr, ParseMetric, ParseAggr, ParseFunc, IsIdentPrefix, FitsBraces, FitsAll, Leaves, EndsName, Fits;
    IdentUnfold(lib, s);
    var r, t := ParseIdentExpr(lib, s), Advance(s).v;
    Step(s);
    if r == ParseMetric(lib, s) && (EndsName(Tok(s), t) || MarkOf(t) == LBrace) {
      NoPrefix();
      f := MetricAccepted(lib, s);
      MetricFits(lib, f, r.rest.toks);
    } else if IsWord(s, AggrName) {
      f := AggrAccepted(lib, s);
    } else {
      f := FuncAccepted(lib, s);
    }
  }

  lemma {:induction false} FuncAccepted(lib: Lib, s: Stream) returns (f: Form)
    requires s.toks != [] && ParseFunc(lib, s).Parsed? && KeywordOf(Tok(s)) !in {AggrName, NumberWord, WithWord}
    ensures var r := ParseFunc(lib, s);
            f.FuncForm? && r.v == Tree(lib, f) && Leaves(s, Tokens(f), r.rest) && Fits(lib, f, r.rest.toks)
    decreases |s.toks|, 5
  {
    hide KeywordOf, Advance, ParseArgs, FitsAll, Leaves, IsIdentPrefix;
    var r, s1 := ParseFunc(lib, s), Advance(s).rest;
    Step(s);
    var args, trailing := ArgsAccepted(lib, s1);
    f := FuncForm(Tok(s), args, trailing);
    Join(s, [Tok(s)], s1, ListTokens(args, trailing), r.rest);
  }

  lemma AggrUnfold(lib: Lib, s: Stream)
    requires s.toks != [] && ParseAggr(lib, s).Parsed?
    ensures Advance(s).Parsed? && KeywordOf(Tok(s)) == AggrName
    ensures var r, name, s1 := ParseAggr(lib, s), Lower(Tok(s)), Advance(s).rest;
            if IsIdentPrefix(Tok(s1)) then
              && KeywordOf(Tok(s1)) == AggrModifier && ParseModifier(s1).Parsed?
              && var args := ParseArgs(lib, ParseModifier(s1).rest);
              args.Parsed? && r == ParseAggrSuffix(name, args.v, ParseModifier(s1).v, args.rest)
            else
              var args := ParseArgs(lib, s1);
              args.Parsed? && r == ParseAggrSuffix(name, args.v, NO_MODIFIER, args.rest)
  {
    hide KeywordOf, Advance, ParseArgs, ParseModifier, ParseAggrSuffix, IsIdentPrefix;
    if Advance(s).Parsed? { Step(s); }
  }

  lemma {:induction false} AggrAccepted(lib: Lib, s: Stream) returns (f: Form)
    requires s.toks != [] && ParseAggr(lib, s).Parsed? && IsIdentPrefix(Tok(s))
    ensures var r := ParseAggr(lib, s);
            f.AggrForm? && r.v == Tree(lib, f) && Leaves(s, Tokens(f), r.rest) && Fits(lib, f, r.rest.toks)
    decreases |s.toks|, 5
  {
    hide KeywordOf, Advance, ParseAggr, ParseArgs, ParseModifier, ParseAggrSuffix, FitsAll, Leaves, IsIdentPrefix, FitsModifier, Tokens, Fits, Tree, FitsLimit, ListTokens;
    AggrUnfold(lib, s);
    var r, name, s1 := ParseAggr(lib, s), Tok(s), Advance(s).rest;
    Step(s);
    NoModifierTokens();
    if IsIdentPrefix(Tok(s1)) {
      var m := GroupAccepted(s1, AggrModifier);
      var s2 := ParseModifier(s1).rest;
      var args, trailing := ArgsAccepted(lib, s2);
      var s3 := ParseArgs(lib, s2).rest;
      LeavesTokens(s2, ListTokens(args, trailing), s3);
      WordOfModifier(m, AggrModifier);
      var m', l := SuffixAccepted(Lower(name), ParseArgs(lib, s2).v, m, s3);
      f := AggrForm(name, args, trailing, m, true, l);
      ModifierFirst(lib, s, s1, s2, s3, f, r.rest);
    } else {
      var args, trailing := ArgsAccepted(lib, s1);
      var s2 := ParseArgs(lib, s1).rest;
      LeavesTokens(s1, ListTokens(args, trailing), s2);
      var m, l := SuffixAccepted(Lower(name), ParseArgs(lib, s1).v, NoModifier, s2);
      f := AggrForm(name, args, trailing, m, false, l);
      ModifierLast(lib, s, s1, s2, f, r.rest);
    }
    assert r.v == Tree(lib, f) by { TreeOfAggr(lib, f); }
  }

  lemma TreeOfAggr(lib: Lib, f: Form)
    requires f.AggrForm?
    ensures Tree(lib, f) == Aggr(Lower(f.name), TreeAll(lib, f.args), ModifierOf(f.modifier), LimitOf(f.limit))
  {
  }

  /** What holds of an aggregate wherever its modifier is. */
  predicate FitsAggr(f: Form, rest: seq<string>)
    requires f.AggrForm?
  {
    && IsIdentPrefix(f.name) && KeywordOf(f.name) == AggrName && FitsModifier(f.modifier, AggrModifier, [])
    && FitsLimit(f.limit) && (f.limit.NoLimit? ==> KeywordOf(Next(rest)) != LimitWord)
    && (f.limit.NoLimit? && f.modifier.NoModifier? ==> KeywordOf(Next(rest)) != AggrModifier)
    && (f.trailing ==> f.args != [])
  }

  lemma ModifierFirst(lib: Lib, s: Stream, s1: Stream, s2: Stream, s3: Stream, f: Form, r: Stream)
    requires f.AggrForm? && f.isFirst && !f.modifier.NoModifier? && FitsAggr(f, r.toks)
    requires Leaves(s, [f.name], s1) && Leaves(s1, ModifierTokens(f.modifier), s2)
    requires Leaves(s2, ListTokens(f.args, f.trailing), s3) && Leaves(s3, [] + LimitFormTokens(f.limit), r)
    requires FitsAll(lib, f.args, f.trailing, [")"] + s3.toks)
    ensures Leaves(s, Tokens(f), r) && Fits(lib, f, r.toks)
  {
    hide KeywordOf, FitsModifier, FitsLimit, FitsAll, IsIdentPrefix, ModifierTokens, LimitFormTokens, Items, TokensAll, Leaves;
    Join(s, [f.name], s1, ModifierTokens(f.modifier), s2);
    Join(s, [f.name] + ModifierTokens(f.modifier), s2, ListTokens(f.args, f.trailing), s3);
    Join(s, [f.name] + ModifierTokens(f.modifier) + ListTokens(f.args, f.trailing), s3, [] + LimitFormTokens(f.limit), r);
    assert [f.name] + ModifierTokens(f.modifier) + ListTokens(f.args, f.trailing) + ([] + LimitFormTokens(f.limit)) ==
           [f.name] + (ModifierTokens(f.modifier) + ListTokens(f.args, f.trailing)) + LimitFormTokens(f.limit);
    LeavesTokens(s3, [] + LimitFormTokens(f.limit), r);
    assert s3.toks == LimitFormTokens(f.limit) + r.toks;
  }

  lemma ModifierLast(lib: Lib, s: Stream, s1: Stream, s2: Stream, f: Form, r: Stream)
    requires f.AggrForm? && !f.isFirst && FitsAggr(f, r.toks)
    requires Leaves(s, [f.name], s1) && Leaves(s1, ListTokens(f.args, f.trailing), s2)
    requires Leaves(s2, ModifierTokens(f.modifier) + LimitFormTokens(f.limit), r)
    requires FitsAll(lib, f.args, f.trailing, [")"] + s2.toks)
    ensures Leaves(s, Tokens(f), r) && Fits(lib, f, r.toks)
  {
    hide KeywordOf, FitsModifier, FitsLimit, FitsAll, IsIdentPrefix, ModifierTokens, LimitFormTokens, Items, TokensAll, Leaves;
    Join(s, [f.name], s1, ListTokens(f.args, f.trailing), s2);
    Join(s, [f.name] + ListTokens(f.args, f.trailing), s2, ModifierTokens(f.modifier) + LimitFormTokens(f.limit), r);
    assert [f.name] + ListTokens(f.args, f.trailing) + (ModifierTokens(f.modifier) + LimitFormTokens(f.limit)) ==
           [f.name] + (ListTokens(f.args, f.trailing) + ModifierTokens(f.modifier)) + LimitFormTokens(f.limit);
    LeavesTokens(s2, ModifierTokens(f.modifier) + LimitFormTokens(f.limit), r);
    assert s2.toks == ModifierTokens(f.modifier) + (LimitFormTokens(f.limit) + r.toks);
  }

  lemma WordOfModifier(m: ModifierForm, k: Keyword)
    requires FitsModifier(m, k, []) && !m.NoModifier? && k != NoKeyword
    ensures ModifierOf(m).op != ""
  {
    assert |Lower(m.word)| == |m.word|;
  }

  lemma SuffixUnfold(name: string, args: seq<Expr>, before: Modifier, s: Stream)
    requires ParseAggrSuffix(name, args, before, s).Parsed?
    ensures var own := before.op == "" && IsWord(s, AggrModifier);
            && (own ==> ParseModifier(s).Parsed?)
            && var m, s1 := if own then ParseModifier(s).v else before, if own then ParseModifier(s).rest else s;
            && ParseLimit(s1).Parsed?
            && ParseAggrSuffix(name, args, before, s) == Parsed(Aggr(name, args, m, ParseLimit(s1).v), ParseLimit(s1).rest)
  {
    hide KeywordOf, ParseModifier, ParseLimit;
  }

  /** The modifier after the arguments, if there was none before. */
  lemma OwnModifier(before: ModifierForm, s: Stream) returns (m: ModifierForm, s1: Stream)
    requires s.bad ==> s.toks != []
    requires !before.NoModifier? ==> ModifierOf(before).op != ""
    requires before.NoModifier? && IsWord(s, AggrModifier) ==> ParseModifier(s).Parsed?
    ensures Leaves(s, ModifierTokens(m), s1) && FitsModifier(m, AggrModifier, [])
    ensures if before.NoModifier? && IsWord(s, AggrModifier) then !m.NoModifier? && ParseModifier(s) == Parsed(ModifierOf(m), s1)
            else m.NoModifier? && s1 == s
  {
    hide KeywordOf, ParseModifier, Leaves, ModifierTokens, FitsModifier, ModifierOf;
    NoModifierTokens();
    if before.NoModifier? && IsWord(s, AggrModifier) {
      m := GroupAccepted(s, AggrModifier);
      s1 := ParseModifier(s).rest;
    } else {
      m, s1 := NoModifier, s;
      LeavesNothing(s);
    }
  }

  /** The modifier after the arguments, if there was none before, and the
      limit. */
  lemma SuffixAccepted(name: string, args: seq<Expr>, before: ModifierForm, s: Stream) returns (m: ModifierForm, l: LimitForm)
    requires ParseAggrSuffix(name, args, ModifierOf(before), s).Parsed? && (s.bad ==> s.toks != [])
    requires !before.NoModifier? ==> ModifierOf(before).op != ""
    ensures var r := ParseAggrSuffix(name, args, ModifierOf(before), s);
            && Leaves(s, (if before.NoModifier? then ModifierTokens(m) else []) + LimitFormTokens(l), r.rest)
            && r.v == Aggr(name, args, ModifierOf(if before.NoModifier? then m else before), LimitOf(l))
            && FitsModifier(m, AggrModifier, []) && FitsLimit(l)
            && (l.NoLimit? ==> KeywordOf(Next(r.rest.toks)) != LimitWord)
            && (before.NoModifier? && m.NoModifier? && l.NoLimit? ==> KeywordOf(Next(r.rest.toks)) != AggrModifier)
  {
    hide KeywordOf, ParseModifier, ParseLimit, ParseAggrSuffix, Leaves, ModifierTokens, LimitFormTokens, FitsModifier, FitsLimit, ModifierOf, LimitOf;
    var r := ParseAggrSuffix(name, args, ModifierOf(before), s);
    SuffixUnfold(name, args, ModifierOf(before), s);
    NoModifierTokens();
    var s1;
    m, s1 := OwnModifier(before, s);
    LeavesTokens(s, ModifierTokens(m), s1);
    l := LimitAccepted(s1);
    Join(s, ModifierTokens(m), s1, LimitFormTokens(l), r.rest);
    if l.NoLimit? { LimitLeaves(l, s1, r.rest); }
  }

  lemma LimitLeaves(l: LimitForm, s: Stream, r: Stream)
    requires Leaves(s, LimitFormTokens(l), r) && l.NoLimit?
    ensures Next(r.toks) == Tok(s)
  {
    assert LimitFormTokens(l) + r.toks == r.toks;
  }

  lemma NoLimitTokens()
    ensures LimitFormTokens(NoLimit) == []
  {
  }

  // ----- WITH -----

  lemma WithUnfold(lib: Lib, s: Stream)
    requires ParseWith(lib, s).Parsed?
    ensures s.toks != [] && IsWord(s, WithWord) && Advance(s).Parsed?
    ensures var s1 := Advance(s).rest;
            && s1.toks != [] && MarkOf(Tok(s1)) == LParen && ParseWithArgs(lib, s1, []).Parsed?
            && var was, s2 := ParseWithArgs(lib, s1, []).v, ParseWithArgs(lib, s1, []).rest;
            && !RepeatsName(was) && Advance(s2).Parsed?
            && var body := ParseExpr(lib, Advance(s2).rest);
            body.Parsed? && ParseWith(lib, s) == Parsed(With(was, body.v), body.rest)
  {
    hide KeywordOf, MarkOf, Advance, ParseWithArgs, ParseExpr, RepeatsName;
    if s.toks != [] && Advance(s).Parsed? { Step(s); }
  }

  lemma {:induction false} WithAccepted(lib: Lib, s: Stream) returns (f: Form)
    requires ParseWith(lib, s).Parsed?
    ensures var r := ParseWith(lib, s);
            f.WithForm? && r.v == Tree(lib, f) && Leaves(s, Tokens(f), r.rest) && Fits(lib, f, r.rest.toks)
    decreases |s.toks|, 7
  {
    hide KeywordOf, MarkOf, Advance, ParseWith, ParseWithArgs, ParseExpr, FitsDefs, Leaves, RepeatsName, Items, Fits, Tokens;
    WithUnfold(lib, s);
    var r, s1 := ParseWith(lib, s), Advance(s).rest;
    Step(s);
    MarkIsToken(Tok(s1));
    var ds, trailing := DefsAccepted(lib, s1, []);
    assert [] + DefTrees(lib, ds) == DefTrees(lib, ds);
    var s2 := ParseWithArgs(lib, s1, []).rest;
    MarkIsToken(Tok(s2));
    NonEmpty(s2);
    Step(s2);
    var s3 := Advance(s2).rest;
    var body := ExprAccepted(lib, s3);
    f := WithForm(Tok(s), ds, trailing, body);
    WithJoins(lib, s, s1, s2, s3, f, r.rest);
  }

  lemma WithTokens(f: Form)
    requires f.WithForm?
    ensures Tokens(f) == [f.word] + (["("] + Items(DefItems(f.defs), f.trailing) + []) + [")"] + Tokens(f.body)
  {
    hide Items, DefItems;
    var items, body := Items(DefItems(f.defs), f.trailing), Tokens(f.body);
    assert Tokens(f) == [f.word, "("] + items + [")"] + body;
    assert [f.word, "("] + items == [f.word] + (["("] + items + []);
  }

  lemma WithFits(lib: Lib, f: Form, rest: seq<string>)
    requires f.WithForm? && KeywordOf(f.word) == WithWord && (f.trailing ==> f.defs != [])
    requires FitsDefs(lib, f.defs, f.trailing, [")"] + Tokens(f.body) + rest) && !RepeatsName(DefTrees(lib, f.defs))
    requires f.body.Chain? && Fits(lib, f.body, rest)
    ensures Fits(lib, f, rest)
  {
    hide KeywordOf, FitsDefs, RepeatsName, DefTrees;
  }

  lemma WithJoins(lib: Lib, s: Stream, s1: Stream, s2: Stream, s3: Stream, f: Form, r: Stream)
    requires f.WithForm? && KeywordOf(f.word) == WithWord && (f.trailing ==> f.defs != [])
    requires Leaves(s, [f.word], s1) && Leaves(s1, ["("] + Items(DefItems(f.defs), f.trailing) + [], s2)
    requires Leaves(s2, [")"], s3) && Leaves(s3, Tokens(f.body), r)
    requires FitsDefs(lib, f.defs, f.trailing, s2.toks) && !RepeatsName(DefTrees(lib, f.defs))
    requires f.body.Chain? && Fits(lib, f.body, r.toks)
    ensures Leaves(s, Tokens(f), r) && Fits(lib, f, r.toks)
  {
    hide KeywordOf, FitsDefs, Leaves, RepeatsName, Items, DefItems, DefTrees, Fits, Tokens;
    var defs := ["("] + Items(DefItems(f.defs), f.trailing) + [];
    Join(s, [f.word], s1, defs, s2);
    Join(s, [f.word] + defs, s2, [")"], s3);
    Join(s, [f.word] + defs + [")"], s3, Tokens(f.body), r);
    WithTokens(f);
    LeavesTokens(s2, [")"], s3);
    LeavesTokens(s3, Tokens(f.body), r);
    assert s2.toks == [")"] + Tokens(f.body) + r.toks;
    WithFits(lib, f, r.toks);
  }

  lemma DefsUnfold(lib: Lib, s: Stream, before: seq<WithArg>)
    requires s.toks != [] && ParseWithArgs(lib, s, before).Parsed?
    ensures Advance(s).Parsed?
    ensures var r, s1 := ParseWithArgs(lib, s, before), Advance(s).rest;
            if MarkOf(Tok(s1)) == RParen then r == Parsed(before, s1)
            else
              && ParseWithArg(lib, s1).Parsed?
              && var wa, s2 := ParseWithArg(lib, s1).v, ParseWithArg(lib, s1).rest;
              if MarkOf(Tok(s2)) == Comma then s2.toks != [] && r == ParseWithArgs(lib, s2, before + [wa])
              else MarkOf(Tok(s2)) == RParen && r == Parsed(before + [wa], s2)
  {
    hide MarkOf, ParseWithArg, Advance;
    if Advance(s).Parsed? { Step(s); }
  }

  lemma NoDefs(lib: Lib, rest: seq<string>)
    ensures DefItems([]) == [] && DefTrees(lib, []) == [] && forall trailing :: FitsDefs(lib, [], trailing, rest)
  {
  }

  lemma {:induction false} DefsAccepted(lib: Lib, s: Stream, before: seq<WithArg>) returns (ds: seq<DefForm>, trailing: bool)
    requires s.toks != [] && ParseWithArgs(lib, s, before).Parsed?
    ensures var r := ParseWithArgs(lib, s, before);
            && r.v == before + DefTrees(lib, ds) && MarkOf(Tok(r.rest)) == RParen
            && Leaves(s, [Tok(s)] + Items(DefItems(ds), trailing) + [], r.rest)
            && (trailing ==> ds != []) && FitsDefs(lib, ds, trailing, r.rest.toks)
    decreases |s.toks|, 5
  {
    hide MarkOf, ParseWithArg, ParseWithArgs, Advance, Leaves, FitsDef, FitsDefs, DefTokens, DefItems, DefTrees, Items, Follow, Tree;
    DefsUnfold(lib, s, before);
    NoDefs(lib, ParseWithArgs(lib, s, before).rest.toks);
    var r := ParseWithArgs(lib, s, before);
    var s1 := Advance(s).rest;
    Step(s);
    MarkIsToken(Tok(s1));
    ds, trailing := [], false;
    if MarkOf(Tok(s1)) == RParen {
      NonEmpty(s1);
      LeavesNothing(s1);
      NoItems(s, s1, [], r.rest);
      assert before + DefTrees(lib, ds) == before;
    } else {
      var d := DefAccepted(lib, s1);
      var wa, s2 := ParseWithArg(lib, s1).v, ParseWithArg(lib, s1).rest;
      MarkIsToken(Tok(s2));
      if MarkOf(Tok(s2)) == Comma {
        var more, last := DefsAccepted(lib, s2, before + [wa]);
        ds, trailing := [d] + more, if more == [] then true else last;
        FirstDef(lib, d, more);
        assert before + [wa] + DefTrees(lib, more) == before + DefTrees(lib, ds);
        ItemAndMore(s, s1, DefTokens(d), s2, DefItems(more), last, trailing, [], r.rest);
        assert [] + r.rest.toks == r.rest.toks;
        MoreDefs(lib, d, more, last, trailing, r.rest.toks);
      } else {
        ds := [d];
        NonEmpty(s2);
        LeavesNothing(s2);
        FirstDef(lib, d, []);
        assert [d] + [] == ds;
        LastItem(s, s1, DefTokens(d), s2, [], r.rest);
        assert [] + r.rest.toks == r.rest.toks;
        MoreDefs(lib, d, [], false, false, r.rest.toks);
      }
    }
  }

  function DefTree(lib: Lib, d: DefForm): WithArg { WithArg(d.id, d.name, d.params, Tree(lib, d.body)) }

  lemma FirstDef(lib: Lib, d: DefForm, more: seq<DefForm>)
    ensures DefItems([d] + more) == [DefTokens(d)] + DefItems(more) && (DefItems(more) == [] <==> more == [])
    ensures DefItems([d]) == [DefTokens(d)] && DefItems([]) == []
    ensures DefTrees(lib, [d] + more) == [DefTree(lib, d)] + DefTrees(lib, more) && DefTrees(lib, [d]) == [DefTree(lib, d)]
  {
    hide DefTokens, Tree;
    assert ([d] + more)[1..] == more && [d][1..] == [];
  }

  lemma MoreDefs(lib: Lib, d: DefForm, more: seq<DefForm>, last: bool, trailing: bool, rest: seq<string>)
    requires FitsDef(lib, d, Follow(DefItems(more), trailing) + rest) && FitsDefs(lib, more, last, rest)
    requires more != [] ==> trailing == last
    ensures FitsDefs(lib, [d] + more, trailing, rest)
  {
    hide FitsDef;
    assert ([d] + more)[1..] == more;
  }

  lemma {:induction false} DefAccepted(lib: Lib, s: Stream) returns (d: DefForm)
    requires ParseWithArg(lib, s).Parsed?
    ensures var r := ParseWithArg(lib, s);
            r.v == DefTree(lib, d) && Leaves(s, DefTokens(d), r.rest) && FitsDef(lib, d, r.rest.toks)
    decreases |s.toks|, 4
  {
    hide KeywordOf, MarkOf, Advance, ParseParams, ParseExpr, Fits, Leaves, IsIdentPrefix, Repeats, NamesTokens;
    var r, s1 := ParseWithArg(lib, s), Advance(s).rest;
    Step(s);
    var parens, params, trailing := ParamsAccepted(s1);
    var s2 := ParseParams(s1).rest;
    FilterMarkIsToken(Tok(s2));
    NonEmpty(s2);
    Step(s2);
    var s3 := Advance(s2).rest;
    var body := ExprAccepted(lib, s3);
    d := DefForm(|s.toks|, Tok(s), parens, params, trailing, body);
    var list := if parens then NamesTokens(params, trailing) else [];
    Join(s, [Tok(s)], s1, list, s2);
    Join(s2, ["="], s3, Tokens(body), r.rest);
    Join(s, [Tok(s)] + list, s2, ["="] + Tokens(body), r.rest);
    LeavesTokens(s, DefTokens(d), r.rest);
  }

  lemma ParamsAccepted(s: Stream) returns (parens: bool, params: seq<string>, trailing: bool)
    requires ParseParams(s).Parsed? && (s.bad ==> s.toks != [])
    ensures var r := ParseParams(s);
            && r.v == params && Leaves(s, if parens then NamesTokens(params, trailing) else [], r.rest)
            && (if parens then FitsNames(params, trailing) else params == [] && !trailing)
  {
    hide MarkOf, ParseIdentList, Leaves, FitsNames;
    parens, params, trailing := IsMark(s, LParen), [], false;
    if parens {
      MarkIsToken(Tok(s));
      params, trailing := NamesAccepted(s, []);
      assert [] + params == params;
    } else {
      LeavesNothing(s);
    }
  }
}
