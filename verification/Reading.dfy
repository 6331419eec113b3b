/** Expanding what the parser makes of a printed tree gives the tree back. */
module Reading {
  import opened Text
  import opened Syntax
  import opened Library
  import opened Ident
  import opened Scan
  import opened Filters
  import opened Expansion
  import opened Normalize
  import opened Printer
  import opened RoundTrip
  import opened Lexicon

  /** strconv.Unquote undoes strconv.Quote. */
  ghost predicate UnquotesFaithfully(lib: Lib) { forall s :: lib.unquote(lib.quote(s)) == Some(s) }

  /** No definition in scope is used up by the bare name. */
  predicate KeepsName(scope: seq<Entry>, name: string) {
    var i := Lookup(scope, name);
    i < 0 || scope[i].params != []
  }

  predicate StableFilter(lib: Lib, f: LabelFilter) {
    && IsByteString(f.key) && (f.key == "__name__" ==> Unescape(f.value) == f.value)
    && (f.isRegexp ==> lib.regexpCompiles(f.value))
  }

  predicate StableMetric(lib: Lib, scope: seq<Entry>, filters: seq<LabelFilter>) {
    && WithoutRepeatedKeys(lib, filters) == filters
    && (HasMetricGroup(filters) ==>
          && IsByteString(filters[0].value) && KeepsName(scope, Escape(filters[0].value))
          && (Lookup(scope, Escape(filters[0].value)) >= 0 ==> Escape(filters[0].value) == filters[0].value))
    && forall i | (if HasMetricGroup(filters) then 1 else 0) <= i < |filters| :: StableFilter(lib, filters[i])
  }

  predicate StableModifier(scope: seq<Entry>, m: Modifier) {
    Distinct(m.args) && forall i | 0 <= i < |m.args| :: KeepsName(scope, m.args[i])
  }

  /** Folding the minus and the numeral yields the number again. */
  predicate StableNumber(lib: Lib, fl: Floats, n: Num) {
    IsNegative(lib, n) && Magnitude(lib, n).Some? ==> fl.minus(Finite(0.0), Magnitude(lib, n).value) == n
  }

  /** Trees that hold no unexpanded parts, no repetitions, no operation over
      two numbers, no list of one item, and no name that the definitions in
      scope would replace. */
  predicate Stable(lib: Lib, fl: Floats, scope: seq<Entry>, e: Expr)
    decreases e
  {
    match e
    case Number(n) => StableNumber(lib, fl, n)
    case Str(se) => se.tokens == []
    case Metric(filters, raw) => raw == [] && StableMetric(lib, scope, filters)
    case Func(name, args) => Lookup(scope, name) < 0 && (name == "" ==> |args| != 1) && StableAll(lib, fl, scope, args)
    case Aggr(_, args, modifier, _) => StableModifier(scope, modifier) && StableAll(lib, fl, scope, args)
    case Binary(info, left, right) =>
      && StableModifier(scope, info.group) && StableModifier(scope, info.join) && !(left.Number? && right.Number?)
      && !(info.op == Add && left.Str? && right.Str?) && Stable(lib, fl, scope, left) && Stable(lib, fl, scope, right)
    case Rollup(inner, _, _, _, _) => Stable(lib, fl, scope, inner)
    case _ => false
  }

  predicate StableAll(lib: Lib, fl: Floats, scope: seq<Entry>, es: seq<Expr>)
    decreases es
  {
    forall i | 0 <= i < |es| :: Stable(lib, fl, scope, es[i])
  }

  lemma {:induction false} RawIsWellFormed(lib: Lib, e: Expr)
    requires Readable(lib, e)
    ensures Has(WellFormed, Raw(lib, e))
    decreases e, 1
  {
    hide IsReadableMetric, IsModifier, IsRollup, IsOpInfo, IsReadableNumber, WrapIf, NeedsParens, OperandsFit, IsFuncName;
    match e
    case Func(_, args) => RawAllWellFormed(lib, args);
    case Aggr(_, args, _, _) => RawAllWellFormed(lib, args);
    case Number(n) => if IsNegative(lib, n) && Magnitude(lib, n).Some? { NegatedIsWellFormed(Magnitude(lib, n).value); }
    case Metric(filters, _) => RawFiltersWellFormed(lib, if HasMetricGroup(filters) then filters[1..] else filters);
    case Binary(_, left, right) =>
      RawIsWellFormed(lib, left);
      RawIsWellFormed(lib, right);
      WrappedIsWellFormed(left.Binary?, Raw(lib, left));
      WrappedIsWellFormed(right.Binary?, Raw(lib, right));
    case Rollup(inner, _, _, _, _) =>
      RawIsWellFormed(lib, inner);
      WrappedIsWellFormed(NeedsParens(inner), Raw(lib, inner));
    case _ =>
  }

  lemma NegatedIsWellFormed(n: Num)
    ensures Has(WellFormed, Negated(Number(n)).args[0]) && Has(WellFormed, Negated(Number(n)))
  {
    var be := Negated(Number(n)).args[0];
    assert be == Binary(SUB, Number(Finite(0.0)), Number(n));
    assert Has(WellFormed, be.left) && Has(WellFormed, be.right) && Has(WellFormed, be);
  }

  lemma WrappedIsWellFormed(wrap: bool, e: Expr)
    requires Has(WellFormed, e)
    ensures Has(WellFormed, WrapIf(wrap, e))
  {
    assert [e][0] == e;
  }

  lemma {:induction false} RawAllWellFormed(lib: Lib, es: seq<Expr>)
    requires ReadableAll(lib, es)
    ensures HasAll(WellFormed, RawAll(lib, es))
    decreases es, 0
  {
    if es != [] {
      RawIsWellFormed(lib, es[0]);
      RawAllWellFormed(lib, es[1..]);
    }
  }

  lemma {:induction false} RawFiltersWellFormed(lib: Lib, fs: seq<LabelFilter>)
    ensures RawWellFormed(RawFilters(lib, fs))
  {
    if fs != [] { RawFiltersWellFormed(lib, fs[1..]); }
  }

  // ----- modifiers and selectors -----

  lemma {:induction false} ModifierArgsStay(scope: seq<Entry>, args: seq<string>)
    requires forall i | 0 <= i < |args| :: KeepsName(scope, args[i])
    ensures ModifierArgs(scope, args) == Ok(args)
  {
    if args != [] {
      ModifierArgsStay(scope, args[1..]);
      assert [args[0]] + args[1..] == args;
    }
  }

  lemma ModifierStays(scope: seq<Entry>, m: Modifier)
    requires StableModifier(scope, m)
    ensures ExpandModifier(scope, m) == Ok(m)
  {
    ModifierArgsStay(scope, m.args);
    FirstOccurrencesCorrect(m.args);
  }

  /** What the theorems below assume of the library. */
  ghost predicate LibraryOk(lib: Lib) { QuotesFaithfully(lib) && UnquotesFaithfully(lib) }

  lemma QuotedStringExpands(lib: Lib, scope: seq<Entry>, v: string)
    requires LibraryOk(lib) && ScopeWellFormed(scope)
    ensures ExpandTokens(lib, AsWritten, scope, [lib.quote(v)]) == Ok(v)
    ensures ExpandString(lib, AsWritten, scope, StringExpr("", [lib.quote(v)])) == Ok(StringExpr(v, []))
  {
    var t := lib.quote(v);
    assert ExtractString(lib, t) == Some(v);
    assert [t][1..] == [];
    assert ExpandTokens(lib, AsWritten, scope, []) == Ok("");
    assert v + "" == v;
  }

  lemma EscapeRoundTrip(s: string)
    requires IsByteString(s)
    ensures Unescape(Escape(s)) == s
  {
    UnescapeOfEscape(s, true);
  }

  lemma FilterExpands(lib: Lib, scope: seq<Entry>, f: LabelFilter)
    requires LibraryOk(lib) && ScopeWellFormed(scope) && StableFilter(lib, f)
    ensures ExpandFilter(lib, AsWritten, scope, RawFilter(lib, f)) == Ok([f])
  {
    hide ExpandString, Escape, Unescape;
    QuotedStringExpands(lib, scope, f.value);
    EscapeRoundTrip(f.key);
  }

  lemma {:induction false} FiltersExpand(lib: Lib, scope: seq<Entry>, fs: seq<LabelFilter>)
    requires LibraryOk(lib) && ScopeWellFormed(scope) && forall i | 0 <= i < |fs| :: StableFilter(lib, fs[i])
    ensures RawWellFormed(RawFilters(lib, fs))
    ensures ExpandFilters(lib, AsWritten, scope, RawFilters(lib, fs)) == Ok(fs)
  {
    hide ExpandFilter, StableFilter;
    RawFiltersWellFormed(lib, fs);
    if fs != [] {
      FilterExpands(lib, scope, fs[0]);
      FiltersExpand(lib, scope, fs[1..]);
      var raw := RawFilters(lib, fs);
      assert raw[0] == RawFilter(lib, fs[0]) && raw[1..] == RawFilters(lib, fs[1..]);
      assert [fs[0]] + fs[1..] == fs;
    }
  }

  lemma NameExpands(lib: Lib, scope: seq<Entry>, name: string)
    requires LibraryOk(lib) && ScopeWellFormed(scope) && IsByteString(name)
    ensures ExpandFilter(lib, AsWritten, scope,
                         LabelFilterExpr("__name__", Some(StringExpr("", [lib.quote(Escape(name))])), false, false)) ==
            Ok([LabelFilter("__name__", name, false, false)])
  {
    hide ExpandString, Escape;
    QuotedStringExpands(lib, scope, Escape(name));
    EscapeRoundTrip(name);
    PlainNameUnescapes();
  }

  lemma PlainNameUnescapes()
    ensures Unescape("__name__") == "__name__"
  {
    UnescapeWithoutBackslash("__name__");
  }

  lemma MetricFiltersExpand(lib: Lib, scope: seq<Entry>, filters: seq<LabelFilter>)
    requires LibraryOk(lib) && ScopeWellFormed(scope) && StableMetric(lib, scope, filters)
    ensures RawWellFormed(RawMetric(lib, filters))
    ensures ExpandFilters(lib, AsWritten, scope, RawMetric(lib, filters)) == Ok(filters)
  {
    hide ExpandFilter, StableFilter, Escape, WithoutRepeatedKeys;
    if HasMetricGroup(filters) {
      var name := filters[0].value;
      FiltersExpand(lib, scope, filters[1..]);
      NameExpands(lib, scope, name);
      var raw := RawMetric(lib, filters);
      assert raw[1..] == RawFilters(lib, filters[1..]);
      assert [filters[0]] + filters[1..] == filters;
    } else {
      FiltersExpand(lib, scope, filters);
    }
  }

  lemma MetricExpands(lib: Lib, scope: seq<Entry>, filters: seq<LabelFilter>)
    requires LibraryOk(lib) && ScopeWellFormed(scope) && StableMetric(lib, scope, filters)
    ensures RawWellFormed(RawMetric(lib, filters))
    ensures ExpandMetric(lib, AsWritten, scope, RawMetric(lib, filters)) == Ok(Metric(filters, []))
  {
    hide ExpandFilters, RawMetric, StableFilter, Escape, WithoutRepeatedKeys;
    MetricFiltersExpand(lib, scope, filters);
    if HasMetricGroup(filters) {
      var i := Lookup(scope, Escape(filters[0].value));
      if i >= 0 {
        var group := LabelFilter("__name__", scope[i].name, false, false);
        assert filters[0] == group && [group] + filters[1..] == filters;
      }
    }
  }

  // ----- trees -----

  /** What is left of `x` in the end. */
  function Finish(fl: Floats, x: Expr): Expr { Simplify(fl, RemoveParens(x)) }

  function FinishAll(fl: Floats, xs: seq<Expr>): (r: seq<Expr>)
    ensures |r| == |xs| && forall i | 0 <= i < |xs| :: r[i] == Finish(fl, xs[i])
  {
    seq(|xs|, i requires 0 <= i < |xs| => Finish(fl, xs[i]))
  }

  /** `r` becomes `e` and is no string unless `e` is one. */
  predicate Becomes(fl: Floats, r: Outcome<Expr>, e: Expr) {
    r.Ok? && Finish(fl, r.value) == e && (r.value.Str? ==> e.Str?)
  }

  lemma FinishOfParts(fl: Floats, e: Expr)
    ensures e.Func? ==> Finish(fl, e) == Func(e.name, FinishAll(fl, e.args))
    ensures e.Aggr? ==> Finish(fl, e) == Aggr(e.name, FinishAll(fl, e.args), e.modifier, e.limit)
    ensures e.Rollup? ==> Finish(fl, e) == e.(expr := Finish(fl, e.expr))
    ensures e.Number? || e.Str? || e.Metric? ==> Finish(fl, e) == e
    ensures e.Parens? ==> Finish(fl, e) == if |e.args| == 1 then Finish(fl, e.args[0]) else Func("", FinishAll(fl, e.args))
  {
    if e.Func? || e.Aggr? || e.Parens? {
      var args := RemoveParensAll(e.args);
      assert SimplifyAll(fl, args) == FinishAll(fl, e.args);
    }
  }

  /** A minus before a numeral is folded. */
  lemma NegatedExpands(lib: Lib, fl: Floats, scope: seq<Entry>, v: Num)
    requires ScopeWellFormed(scope)
    ensures Has(WellFormed, Negated(Number(v)))
    ensures Becomes(fl, Expand(lib, AsWritten, scope, Negated(Number(v))), Number(fl.minus(Finite(0.0), v)))
  {
    hide ExpandModifier, ExpandAll, Finish;
    var be := Negated(Number(v)).args[0];
    NegatedIsWellFormed(v);
    ModifierStays(scope, NO_MODIFIER);
    assert Expand(lib, AsWritten, scope, be) == Ok(Parens([be]));
    ExpandSingle(lib, AsWritten, scope, [be]);
    FinishOfParts(fl, Parens([Parens([be])]));
    FinishOfParts(fl, Parens([be]));
    FoldsDifference(fl, v);
  }

  lemma FoldsDifference(fl: Floats, v: Num)
    ensures Finish(fl, Binary(SUB, Number(Finite(0.0)), Number(v))) == Number(fl.minus(Finite(0.0), v))
  {
    var be := Binary(SUB, Number(Finite(0.0)), Number(v));
    assert RemoveParens(be.left) == be.left && RemoveParens(be.right) == be.right && RemoveParens(be) == be;
    assert Simplify(fl, be.left) == be.left && Simplify(fl, be.right) == be.right;
  }

  lemma NumberExpands(lib: Lib, fl: Floats, scope: seq<Entry>, n: Num)
    requires ScopeWellFormed(scope) && StableNumber(lib, fl, n)
    ensures Has(WellFormed, RawNumber(lib, n)) && Becomes(fl, Expand(lib, AsWritten, scope, RawNumber(lib, n)), Number(n))
  {
    hide Expand, Negated, Has;
    if IsNegative(lib, n) && Magnitude(lib, n).Some? {
      NegatedExpands(lib, fl, scope, Magnitude(lib, n).value);
    } else {
      NumberStays(lib, fl, scope, n);
    }
  }

  lemma NumberStays(lib: Lib, fl: Floats, scope: seq<Entry>, n: Num)
    requires ScopeWellFormed(scope)
    ensures Has(WellFormed, Number(n)) && Becomes(fl, Expand(lib, AsWritten, scope, Number(n)), Number(n))
  {
  }

  lemma {:induction false} RawExpands(lib: Lib, fl: Floats, scope: seq<Entry>, e: Expr)
    requires LibraryOk(lib) && ScopeWellFormed(scope) && Readable(lib, e) && Stable(lib, fl, scope, e)
    ensures Has(WellFormed, Raw(lib, e)) && Becomes(fl, Expand(lib, AsWritten, scope, Raw(lib, e)), e)
    decreases e, 1
  {
    hide ExpandMetric, ExpandModifier, ExpandString, Lookup, StableMetric, StableModifier, ExpandAll, JoinOperands, WrapIf;
    hide OperandsFit, IsOpInfo, IsModifier, IsRollup, IsReadableMetric, IsReadableNumber, StableNumber, RawNumber, Finish, FinishAll;
    RawIsWellFormed(lib, e);
    match e
    case Number(n) => NumberExpands(lib, fl, scope, n);
    case Str(se) =>
      QuotedStringExpands(lib, scope, se.s);
      FinishOfParts(fl, e);
    case Metric(filters, _) =>
      MetricExpands(lib, scope, filters);
      FinishOfParts(fl, e);
    case Func(name, args) => CallExpands(lib, fl, scope, e);
    case Aggr(_, args, modifier, _) =>
      RawAllExpands(lib, fl, scope, args);
      ModifierStays(scope, modifier);
      var r := Expand(lib, AsWritten, scope, Raw(lib, e));
      FinishOfParts(fl, r.value);
    case Binary(info, left, right) =>
      OperandExpands(lib, fl, scope, left, left.Binary?);
      OperandExpands(lib, fl, scope, right, right.Binary?);
      ModifierStays(scope, info.group);
      ModifierStays(scope, info.join);
      var l := Expand(lib, AsWritten, scope, WrapIf(left.Binary?, Raw(lib, left)));
      var r := Expand(lib, AsWritten, scope, WrapIf(right.Binary?, Raw(lib, right)));
      JoinReadsBack(fl, info, l.value, r.value, e);
    case Rollup(inner, _, _, _, _) =>
      OperandExpands(lib, fl, scope, inner, NeedsParens(inner));
      var r := Expand(lib, AsWritten, scope, Raw(lib, e));
      FinishOfParts(fl, r.value);
  }

  lemma {:induction false} CallExpands(lib: Lib, fl: Floats, scope: seq<Entry>, e: Expr)
    requires LibraryOk(lib) && ScopeWellFormed(scope) && Readable(lib, e) && Stable(lib, fl, scope, e)
    requires e.Func? && Has(WellFormed, Raw(lib, e))
    ensures Becomes(fl, Expand(lib, AsWritten, scope, Raw(lib, e)), e)
    decreases e, 0
  {
    hide Lookup, ExpandAll, Finish, FinishAll;
    RawAllExpands(lib, fl, scope, e.args);
    var r := Expand(lib, AsWritten, scope, Raw(lib, e));
    FinishOfParts(fl, r.value);
  }

  /** Joined operands read back as the operation. */
  lemma JoinReadsBack(fl: Floats, info: OpInfo, l: Expr, r: Expr, e: Expr)
    requires Has(Expanded, l) && Has(Expanded, r) && e.Binary? && e.info == info
    requires Finish(fl, l) == e.left && Finish(fl, r) == e.right && !(e.left.Number? && e.right.Number?)
    requires (l.Str? ==> e.left.Str?) && (r.Str? ==> e.right.Str?) && !(info.op == Add && e.left.Str? && e.right.Str?)
    ensures Finish(fl, JoinOperands(info, l, r)) == e && !JoinOperands(info, l, r).Str?
  {
    var args := [Binary(info, l, r)];
    assert RemoveParensAll(args)[0] == RemoveParens(args[0]);
  }

  lemma {:induction false} OperandExpands(lib: Lib, fl: Floats, scope: seq<Entry>, e: Expr, wrap: bool)
    requires LibraryOk(lib) && ScopeWellFormed(scope) && Readable(lib, e) && Stable(lib, fl, scope, e)
    ensures Has(WellFormed, WrapIf(wrap, Raw(lib, e)))
    ensures Becomes(fl, Expand(lib, AsWritten, scope, WrapIf(wrap, Raw(lib, e))), e)
    decreases e, 2
  {
    hide Finish, Stable, Readable, Raw;
    RawExpands(lib, fl, scope, e);
    if wrap {
      var x := Raw(lib, e);
      var r := Expand(lib, AsWritten, scope, x);
      ExpandSingle(lib, AsWritten, scope, [x]);
      FinishOfParts(fl, Parens([r.value]));
    }
  }

  lemma {:induction false} RawAllExpands(lib: Lib, fl: Floats, scope: seq<Entry>, es: seq<Expr>)
    requires LibraryOk(lib) && ScopeWellFormed(scope) && ReadableAll(lib, es) && StableAll(lib, fl, scope, es)
    ensures HasAll(WellFormed, RawAll(lib, es))
    ensures var r := ExpandAll(lib, AsWritten, scope, RawAll(lib, es));
            r.Ok? && FinishAll(fl, r.value) == es
    decreases es, 0
  {
    hide Expand, Readable, Stable, Raw, Finish;
    RawAllWellFormed(lib, es);
    if es != [] {
      RawExpands(lib, fl, scope, es[0]);
      RawAllExpands(lib, fl, scope, es[1..]);
      var raw := RawAll(lib, es);
      assert raw[0] == Raw(lib, es[0]) && raw[1..] == RawAll(lib, es[1..]);
    }
  }
}
