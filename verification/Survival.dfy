/** Exactly which of the trees that are parsed as intended survive the whole of
    Parse after printing. */
module Survival {
  import opened Text
  import opened Syntax
  import opened Library
  import opened Ident
  import opened Filters
  import opened Grammar
  import opened Printer
  import opened RoundTrip
  import opened Expansion
  import opened Normalize
  import opened Hygiene
  import opened Reading
  import opened Reexpansion
  import opened Pipeline
  import opened Defaults
  import L = Limits

  /** Labels and names are byte strings, as all strings of the program are,
      and no list is a list of one item, which no pass builds. */
  predicate IsBuilt(e: Expr)
    decreases e
  {
    match e
    case Metric(filters, _) =>
      && (forall i | 0 <= i < |filters| :: IsByteString(filters[i].key))
      && (HasMetricGroup(filters) ==> IsByteString(filters[0].value))
    case Func(name, args) => (name == "" ==> |args| != 1) && forall i | 0 <= i < |args| :: IsBuilt(args[i])
    case Aggr(_, args, _, _) => forall i | 0 <= i < |args| :: IsBuilt(args[i])
    case Binary(_, left, right) => IsBuilt(left) && IsBuilt(right)
    case Rollup(inner, _, _, _, _) => IsBuilt(inner)
    case _ => true
  }

  /** All definitions have parameters, and none results in a call of its own
      name. */
  ghost predicate IsTame(lib: Lib, scope: seq<Entry>) {
    && ScopeWellFormed(scope) && (forall name :: KeepsName(scope, name)) && "" !in Names(scope)
    && forall i | 0 <= i < |scope| :: EntrySettles(lib, scope, i, {scope[i].name})
  }

  lemma TameFacts(lib: Lib, scope: seq<Entry>)
    requires IsTame(lib, scope)
    ensures ScopeWellFormed(scope) && (forall name :: KeepsName(scope, name)) && "" !in Names(scope)
  {
  }

  // ----- a part that survives is stable -----

  lemma {:induction false} DistinctWhenKept(args: seq<string>)
    requires FirstOccurrences(args) == args
    ensures Distinct(args)
  {
    FirstOccurrencesCorrect(args);
  }

  lemma ModifierIsStable(scope: seq<Entry>, m: Modifier)
    requires (forall name :: KeepsName(scope, name)) && ExpandModifier(scope, m) == Ok(m)
    ensures StableModifier(scope, m)
  {
    hide KeepsName, FirstOccurrences;
    ModifierArgsStay(scope, m.args);
    DistinctWhenKept(m.args);
  }

  /** What is no call of `f` without parens is none after folding. */
  lemma FinishedRoot(fl: Floats, f: string, x: Expr)
    requires Has(ParenFree, RemoveParens(x)) && !IsCall({f}, x)
    ensures !(Finish(fl, x).Func? && Finish(fl, x).name == f)
  {
    hide RemoveParens;
  }

  lemma ExpandedIsParenFree(x: Expr)
    requires Has(Expanded, x)
    ensures Has(ParenFree, RemoveParens(x))
  {
    RemoveParensIsParenFree(x);
  }

  /** Survived: expanding what the printed tree is read as and finishing it
      gives the tree. */
  predicate Survives(lib: Lib, fl: Floats, scope: seq<Entry>, e: Expr)
    requires ScopeWellFormed(scope) && Has(WellFormed, Raw(lib, e))
  {
    var r := Expand(lib, AsWritten, scope, Raw(lib, e));
    r.Ok? && Finish(fl, r.value) == e
  }

  lemma {:induction false} SurvivorIsStable(lib: Lib, fl: Floats, scope: seq<Entry>, e: Expr)
    requires LibraryOk(lib) && IsTame(lib, scope) && Readable(lib, e) && IsBuilt(e)
    requires ScopeWellFormed(scope) && Has(WellFormed, Raw(lib, e)) && Survives(lib, fl, scope, e)
    ensures Stable(lib, fl, scope, e)
    decreases e, 1
  {
    hide IsTame, ExpandMetric, ExpandModifier, ExpandString, ExpandAll, Lookup, StableMetric, StableModifier, JoinOperands;
    hide OperandsFit, IsOpInfo, IsModifier, IsRollup, IsReadableMetric, IsReadableNumber, StableNumber, RawNumber, Finish, FinishAll;
    hide Weight, ArgCount, Call, KeepsName;
    TameFacts(lib, scope);
    match e
    case Number(n) => NumberIsStable(lib, fl, scope, n);
    case Str(se) =>
      QuotedStringExpands(lib, scope, se.s);
      FinishOfParts(fl, Str(StringExpr(se.s, [])));
    case Metric(filters, raw) => MetricIsStable(lib, fl, scope, e);
    case Func(name, args) => CallIsStable(lib, fl, scope, e);
    case Aggr(_, args, modifier, _) => AggregateIsStable(lib, fl, scope, e);
    case Binary(info, left, right) => OperationIsStable(lib, fl, scope, e);
    case Rollup(inner, _, _, _, _) => RollupIsStable(lib, fl, scope, e);
  }

  lemma NumberIsStable(lib: Lib, fl: Floats, scope: seq<Entry>, n: Num)
    requires ScopeWellFormed(scope) && Has(WellFormed, Raw(lib, Number(n))) && Survives(lib, fl, scope, Number(n))
    ensures StableNumber(lib, fl, n)
  {
    hide Expand, Finish;
    if IsNegative(lib, n) && Magnitude(lib, n).Some? { NegatedExpands(lib, fl, scope, Magnitude(lib, n).value); }
  }

  lemma MetricIsStable(lib: Lib, fl: Floats, scope: seq<Entry>, e: Expr)
    requires LibraryOk(lib) && e.Metric? && Readable(lib, e) && IsBuilt(e)
    requires ScopeWellFormed(scope) && (forall name :: KeepsName(scope, name))
    requires Has(WellFormed, Raw(lib, e)) && Survives(lib, fl, scope, e)
    ensures Stable(lib, fl, scope, e)
  {
    hide ExpandMetric, StableMetric, KeepsName, Finish, IsReadableMetric, RawMetric;
    var r := ExpandMetric(lib, AsWritten, scope, RawMetric(lib, e.filters));
    L.ReadIsMetric(lib, scope, RawMetric(lib, e.filters));
    FinishOfParts(fl, r.value);
    assert r.value == e;
    assert e.raw == [] by { ExpandedMetric(e); }
    L.SelectorMustBeStable(lib, scope, e.filters);
  }

  lemma {:induction false} ArgsAreStable(lib: Lib, fl: Floats, scope: seq<Entry>, es: seq<Expr>)
    requires LibraryOk(lib) && IsTame(lib, scope) && ReadableAll(lib, es) && forall i | 0 <= i < |es| :: IsBuilt(es[i])
    requires ScopeWellFormed(scope) && HasAll(WellFormed, RawAll(lib, es))
    requires var r := ExpandAll(lib, AsWritten, scope, RawAll(lib, es)); r.Ok? && FinishAll(fl, r.value) == es
    ensures StableAll(lib, fl, scope, es)
    decreases es, 0
  {
    hide Expand, ExpandAll, Finish, Stable, Readable, IsBuilt, IsTame, Raw;
    var r := ExpandAll(lib, AsWritten, scope, RawAll(lib, es));
    forall i | 0 <= i < |es| ensures Stable(lib, fl, scope, es[i]) {
      RawAllAt(lib, es, i);
      ExpandAllAt(lib, scope, RawAll(lib, es), i);
      assert Finish(fl, r.value[i]) == es[i];
      SurvivorIsStable(lib, fl, scope, es[i]);
    }
  }

  lemma {:induction false} RawAllAt(lib: Lib, es: seq<Expr>, i: nat)
    requires i < |es|
    ensures RawAll(lib, es)[i] == Raw(lib, es[i])
  {
    hide Raw;
    if i > 0 { RawAllAt(lib, es[1..], i - 1); }
  }

  lemma {:induction false} CallIsStable(lib: Lib, fl: Floats, scope: seq<Entry>, e: Expr)
    requires LibraryOk(lib) && IsTame(lib, scope) && Readable(lib, e) && IsBuilt(e) && e.Func?
    requires ScopeWellFormed(scope) && Has(WellFormed, Raw(lib, e)) && Survives(lib, fl, scope, e)
    ensures Stable(lib, fl, scope, e)
    decreases e, 0
  {
    hide IsTame, ExpandAll, Lookup, Finish, FinishAll, Call, StableAll, Readable, IsBuilt, Has;
    TameFacts(lib, scope);
    assert ReadableAll(lib, e.args) && (forall i | 0 <= i < |e.args| :: IsBuilt(e.args[i])) && (e.name == "" ==> |e.args| != 1) by {
      PartsOfCall(lib, e);
    }
    RawAllWellFormed(lib, e.args);
    var args := ExpandAll(lib, AsWritten, scope, RawAll(lib, e.args));
    var r := Expand(lib, AsWritten, scope, Raw(lib, e));
    if e.name == "" {
      FinishOfParts(fl, Parens(args.value));
      NameIsVisible(scope, "");
    } else if Lookup(scope, e.name) >= 0 {
      VisibleCallChanges(lib, scope, e.name, args.value);
      ExpandedIsParenFree(r.value);
      FinishedRoot(fl, e.name, r.value);
    } else {
      FinishOfParts(fl, Func(e.name, args.value));
    }
    ArgsAreStable(lib, fl, scope, e.args);
  }

  lemma PartsOfCall(lib: Lib, e: Expr)
    requires Readable(lib, e) && IsBuilt(e) && (e.Func? || e.Aggr?)
    ensures ReadableAll(lib, e.args) && (forall i | 0 <= i < |e.args| :: IsBuilt(e.args[i])) && (e.Func? && e.name == "" ==> |e.args| != 1)
  {
  }

  lemma VisibleCallChanges(lib: Lib, scope: seq<Entry>, f: string, args: seq<Expr>)
    requires LibraryOk(lib) && IsTame(lib, scope) && ScopeWellFormed(scope) && Lookup(scope, f) >= 0 && HasAll(Expanded, args)
    ensures var r := Call(lib, AsWritten, scope, Lookup(scope, f), Some(args)); r.Ok? ==> !IsCall({f}, r.value)
  {
    hide Call, EntrySettles, IsCall;
    NameIsVisible(scope, f);
    EntryHasRoot(lib, scope, Lookup(scope, f), {f}, Some(args));
  }

  lemma {:induction false} AggregateIsStable(lib: Lib, fl: Floats, scope: seq<Entry>, e: Expr)
    requires LibraryOk(lib) && IsTame(lib, scope) && Readable(lib, e) && IsBuilt(e) && e.Aggr?
    requires ScopeWellFormed(scope) && Has(WellFormed, Raw(lib, e)) && Survives(lib, fl, scope, e)
    ensures Stable(lib, fl, scope, e)
    decreases e, 0
  {
    hide IsTame, ExpandAll, ExpandModifier, Finish, FinishAll, StableAll, StableModifier, Readable, IsBuilt, Has;
    TameFacts(lib, scope);
    assert ReadableAll(lib, e.args) && (forall i | 0 <= i < |e.args| :: IsBuilt(e.args[i])) by { PartsOfCall(lib, e); }
    RawAllWellFormed(lib, e.args);
    FinishOfParts(fl, Expand(lib, AsWritten, scope, Raw(lib, e)).value);
    ModifierIsStable(scope, e.modifier);
    ArgsAreStable(lib, fl, scope, e.args);
  }

  /** An operand in the parens it is printed with. */
  lemma OperandSurvives(lib: Lib, fl: Floats, scope: seq<Entry>, e: Expr, wrap: bool)
    requires ScopeWellFormed(scope) && Has(WellFormed, Raw(lib, e)) && Has(WellFormed, WrapIf(wrap, Raw(lib, e)))
    requires var r := Expand(lib, AsWritten, scope, WrapIf(wrap, Raw(lib, e))); r.Ok? && Finish(fl, r.value) == e
    ensures Survives(lib, fl, scope, e)
  {
    hide Expand, ExpandAll, Finish, Raw;
    if wrap {
      ParensExpand(lib, scope, Raw(lib, e));
      FinishOfParts(fl, Expand(lib, AsWritten, scope, Parens([Raw(lib, e)])).value);
    }
  }

  lemma ParensExpand(lib: Lib, scope: seq<Entry>, x: Expr)
    requires ScopeWellFormed(scope) && Has(WellFormed, x) && Has(WellFormed, Parens([x]))
    ensures var r, y := Expand(lib, AsWritten, scope, Parens([x])), Expand(lib, AsWritten, scope, x);
            if y.Ok? then r == Ok(Parens([y.value])) else !r.Ok?
  {
    hide ExpandAll;
    ExpandSingle(lib, AsWritten, scope, [x]);
  }

  /** Finished operations come from operands that do not fold or join. */
  lemma OperationParts(fl: Floats, info: OpInfo, l: Expr, r: Expr, e: Expr)
    requires Has(Expanded, l) && Has(Expanded, r) && e.Binary? && Finish(fl, JoinOperands(info, l, r)) == e
    ensures e == Binary(info, Finish(fl, l), Finish(fl, r)) && !(e.left.Number? && e.right.Number?)
    ensures !(info.op == Add && l.Str? && r.Str?)
  {
    var args := [Binary(info, l, r)];
    assert RemoveParensAll(args)[0] == RemoveParens(args[0]);
  }

  lemma {:induction false} OperationIsStable(lib: Lib, fl: Floats, scope: seq<Entry>, e: Expr)
    requires LibraryOk(lib) && IsTame(lib, scope) && Readable(lib, e) && IsBuilt(e) && e.Binary?
    requires ScopeWellFormed(scope) && Has(WellFormed, Raw(lib, e)) && Survives(lib, fl, scope, e)
    ensures Stable(lib, fl, scope, e)
    decreases e, 0
  {
    hide IsTame, ExpandModifier, Finish, StableModifier, JoinOperands, OperandsFit, Has, WrapIf;
    TameFacts(lib, scope);
    var info := e.info;
    var left, right := WrapIf(e.left.Binary?, Raw(lib, e.left)), WrapIf(e.right.Binary?, Raw(lib, e.right));
    RawIsWellFormed(lib, e.left);
    RawIsWellFormed(lib, e.right);
    WrappedIsWellFormed(e.left.Binary?, Raw(lib, e.left));
    WrappedIsWellFormed(e.right.Binary?, Raw(lib, e.right));
    var l, r := Expand(lib, AsWritten, scope, left), Expand(lib, AsWritten, scope, right);
    var group, join := ExpandModifier(scope, info.group), ExpandModifier(scope, info.join);
    assert l.Ok? && r.Ok? && group.Ok? && join.Ok?;
    OperationParts(fl, info.(group := group.value, join := join.value), l.value, r.value, e);
    ModifierIsStable(scope, info.group);
    ModifierIsStable(scope, info.join);
    OperandSurvives(lib, fl, scope, e.left, e.left.Binary?);
    OperandSurvives(lib, fl, scope, e.right, e.right.Binary?);
    SurvivorIsStable(lib, fl, scope, e.left);
    SurvivorIsStable(lib, fl, scope, e.right);
    if e.left.Str? && e.right.Str? {
      StringsStayStrings(lib, scope, e.left);
      StringsStayStrings(lib, scope, e.right);
    }
  }

  lemma StringsStayStrings(lib: Lib, scope: seq<Entry>, e: Expr)
    requires e.Str? && ScopeWellFormed(scope) && Has(WellFormed, WrapIf(e.Binary?, Raw(lib, e)))
    ensures var r := Expand(lib, AsWritten, scope, WrapIf(e.Binary?, Raw(lib, e))); r.Ok? ==> r.value.Str?
  {
    hide ExpandString;
  }

  lemma {:induction false} RollupIsStable(lib: Lib, fl: Floats, scope: seq<Entry>, e: Expr)
    requires LibraryOk(lib) && IsTame(lib, scope) && Readable(lib, e) && IsBuilt(e) && e.Rollup?
    requires ScopeWellFormed(scope) && Has(WellFormed, Raw(lib, e)) && Survives(lib, fl, scope, e)
    ensures Stable(lib, fl, scope, e)
    decreases e, 0
  {
    hide IsTame, Finish, WrapIf, Has, IsRollup, NeedsParens;
    TameFacts(lib, scope);
    RawIsWellFormed(lib, e.expr);
    WrappedIsWellFormed(NeedsParens(e.expr), Raw(lib, e.expr));
    FinishOfParts(fl, Expand(lib, AsWritten, scope, Raw(lib, e)).value);
    OperandSurvives(lib, fl, scope, e.expr, NeedsParens(e.expr));
    SurvivorIsStable(lib, fl, scope, e.expr);
  }

  // ----- the exact condition -----

  /** A tree that is parsed as intended survives printing and Parse if and only
      if it is stable. */
  lemma SurvivalIsExact(lib: Lib, fl: Floats, was: seq<Entry>, e: Expr)
    requires LibraryOk(lib) && IsTame(lib, was) && ScopeWellFormed(was) && Readable(lib, e) && IsBuilt(e)
    ensures Parse(lib, fl, AsWritten, was, Good(Print(lib, e))) == Ok(e) <==> Stable(lib, fl, was, e)
  {
    hide IsTame, Expand, Readable, IsBuilt, Stable, Print, Raw;
    if Stable(lib, fl, was, e) {
      ParseInvertsPrint(lib, fl, was, e);
    }
    if Parse(lib, fl, AsWritten, was, Good(Print(lib, e))) == Ok(e) {
      ParseOfPrint(lib, e);
      RawIsWellFormed(lib, e);
      SurvivorIsStable(lib, fl, was, e);
    }
  }

  // ----- the known definitions -----

  lemma NamesAreUncalled(lib: Lib)
    ensures forall i | 0 <= i < 5 :: DefaultScope(lib)[i].name !in CALLED && DefaultScope(lib)[i].name != ""
  {
    hide Ru, Ttf, MedianOverTime, RangeMedian, Alias, Fine;
    var scope := DefaultScope(lib);
    assert scope[0].name == "ru" && scope[1].name == "ttf" && scope[2].name == "median_over_time";
    assert scope[3].name == "range_median" && scope[4].name == "alias";
  }

  lemma ParamsAreUncalled(lib: Lib)
    ensures forall i | 0 <= i < 5 :: forall p <- DefaultScope(lib)[i].params :: p !in CALLED
  {
    hide Ru, Ttf, MedianOverTime, RangeMedian, Alias, Fine, CALLED;
    assert forall p <- ["freev", "maxv", "m", "q", "name"] :: p !in CALLED by { ShortNamesAreUncalled(); }
    var scope := DefaultScope(lib);
    assert scope[0].params == ["freev", "maxv"] && scope[1].params == ["freev"] && scope[2].params == ["m"];
    assert scope[3].params == ["q"] && scope[4].params == ["q", "name"];
  }

  lemma ShortNamesAreUncalled()
    ensures forall p <- ["freev", "maxv", "m", "q", "name"] :: p !in CALLED
  {
  }

  lemma BodiesAreCalls(lib: Lib)
    ensures forall i | 0 <= i < 5 :: DefaultScope(lib)[i].body.Func? || DefaultScope(lib)[i].body.Binary?
  {
    hide Fine;
  }

  /** No known definition results in a call of its own name. */
  lemma DefaultsAreTame(lib: Lib)
    ensures |DefaultScope(lib)| == 5 && IsTame(lib, DefaultScope(lib))
  {
    hide DefaultScope, ScopeWellFormed, KeepsName, Has, CALLED;
    DefaultScopeIsUsable(lib, {});
    DefaultScopeFacts(lib);
    NamesAreUncalled(lib);
    ParamsAreUncalled(lib);
    BodiesAreCalls(lib);
    var scope := DefaultScope(lib);
    forall i | 0 <= i < 5 ensures EntrySettles(lib, scope, i, {scope[i].name}) {
      var base := Base(AsWritten, scope, i);
      if scope[i].body.Func? {
        var f := scope[i].body.name;
        assert f in CALLED;
        forall k | 0 <= k < |base| ensures base[k].name != f { assert base[k] == scope[k]; }
        assert Lookup(base, f) < 0;
      }
    }
  }

  /** Under the known definitions. */
  lemma SurvivalUnderDefaults(lib: Lib, fl: Floats, e: Expr)
    requires LibraryOk(lib) && Readable(lib, e) && IsBuilt(e)
    ensures ScopeWellFormed(DefaultScope(lib))
    ensures Parse(lib, fl, AsWritten, DefaultScope(lib), Good(Print(lib, e))) == Ok(e) <==> Stable(lib, fl, DefaultScope(lib), e)
  {
    hide IsTame, Expand, Readable, IsBuilt, Stable, Print, Parse, DefaultScope;
    DefaultsAreTame(lib);
    TameFacts(lib, DefaultScope(lib));
    SurvivalIsExact(lib, fl, DefaultScope(lib), e);
  }
}
