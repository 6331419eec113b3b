/** Expanding an expanded tree once more, as reading an argument does: exactly
    when this changes the tree. */
module Reexpansion {
  import opened Text
  import opened Syntax
  import opened Library
  import opened Ident
  import opened Filters
  import opened Expansion
  import opened Normalize
  import opened Reading
  import opened Hygiene
  import opened Substitution

  // ----- what a tree calls -----

  /** Some function called in `e` is among `names`. */
  predicate Calls(names: set<string>, e: Expr)
    decreases e
  {
    match e
    case Func(name, args) => name in names || exists i | 0 <= i < |args| :: Calls(names, args[i])
    case Aggr(_, args, _, _) => exists i | 0 <= i < |args| :: Calls(names, args[i])
    case Parens(args) => exists i | 0 <= i < |args| :: Calls(names, args[i])
    case Binary(_, left, right) => Calls(names, left) || Calls(names, right)
    case Rollup(inner, _, _, _, _) => Calls(names, inner)
    case _ => false
  }

  /** No modifier has a list. */
  predicate NoLists(e: Expr)
    decreases e
  {
    match e
    case Func(_, args) => forall i | 0 <= i < |args| :: NoLists(args[i])
    case Aggr(_, args, modifier, _) => modifier.args == [] && forall i | 0 <= i < |args| :: NoLists(args[i])
    case Parens(args) => forall i | 0 <= i < |args| :: NoLists(args[i])
    case Binary(info, left, right) => info.group.args == [] && info.join.args == [] && NoLists(left) && NoLists(right)
    case Rollup(inner, _, _, _, _) => NoLists(inner)
    case _ => true
  }

  lemma {:induction false} InertIsHygienic(names: set<string>, e: Expr)
    requires Has(Expanded, e)
    ensures Hygienic(names, {}, {}, e) <==> NoLists(e) && !Calls(names, e)
    decreases e
  {
    match e
    case Func(_, args) => InertAreHygienic(names, args);
    case Aggr(_, args, _, _) => InertAreHygienic(names, args);
    case Parens(args) => InertAreHygienic(names, args);
    case Binary(_, left, right) => InertIsHygienic(names, left); InertIsHygienic(names, right);
    case Rollup(inner, _, _, _, _) => InertIsHygienic(names, inner);
    case _ =>
  }

  lemma {:induction false} InertAreHygienic(names: set<string>, es: seq<Expr>)
    requires HasAll(Expanded, es)
    ensures HygienicAll(names, {}, {}, es) <==> forall i | 0 <= i < |es| :: NoLists(es[i]) && !Calls(names, es[i])
    decreases es
  {
    forall i | 0 <= i < |es| ensures Hygienic(names, {}, {}, es[i]) <==> NoLists(es[i]) && !Calls(names, es[i]) {
      InertIsHygienic(names, es[i]);
    }
  }

  // ----- definitions that leave no call of a visible name at the root -----

  /** Without parens, the tree is a call of one of `names`. */
  predicate IsCall(names: set<string>, e: Expr) { RemoveParens(e).Func? && RemoveParens(e).name in names }

  /** Operators, numbers, strings, aggregates, rollups and lists, also under
      WITH: whatever is in scope, the result is no call. */
  predicate IsSolid(e: Expr)
    decreases e
  {
    match e
    case Func(_, _) => false
    case Metric(filters, _) => filters != []
    case With(_, body) => IsSolid(body)
    case Parens(args) => |args| == 1 ==> IsSolid(args[0])
    case _ => true
  }

  /** The plain metric name that a selector starts with. */
  function LeadingName(lib: Lib, raw: seq<LabelFilterExpr>): Option<string> {
    if raw != [] && raw[0].value.Some? && |raw[0].value.value.tokens| == 1 then
      var name := lib.unquote(raw[0].value.value.tokens[0]);
      if name.Some? && IsPlain(name.value) && [raw[0]] == Reference(lib, name.value).raw then name else None
    else None
  }

  /** The result is no call of one of `names`: a solid body; a selector whose
      name means nothing, or a definition that settles itself; a call of a name
      that means nothing and is not among `names`, or of such a definition. */
  predicate BodySettles(lib: Lib, before: seq<Entry>, names: set<string>, params: seq<string>, e: Expr)
    decreases |before|, 1, e
  {
    IsSolid(e) ||
    match e
    case Parens(args) => |args| == 1 && BodySettles(lib, before, names, params, args[0])
    case Func(f, _) =>
      f !in params && var j := Lookup(before, f); if j < 0 then f !in names else EntrySettles(lib, before, j, names)
    case Metric(_, raw) =>
      || raw == []
      || (raw[0].value.Some? && Unescape(raw[0].key) != "__name__")
      || (var name := LeadingName(lib, raw);
          && name.Some? && name.value !in params
          && var j := Lookup(before, name.value); j < 0 || EntrySettles(lib, before, j, names))
    case _ => false
  }

  predicate EntrySettles(lib: Lib, scope: seq<Entry>, j: nat, names: set<string>)
    requires j < |scope|
    decreases |scope|, 0
  {
    var x := scope[j];
    if x.isArg then !IsCall(Names(scope[..j]) + names, x.body) else BodySettles(lib, Base(AsWritten, scope, j), names, x.params, x.body)
  }

  /** A definition that returns one of its arguments. */
  predicate IsProjection(lib: Lib, x: Entry) {
    && !x.isArg && Distinct(x.params) && NameOf(lib, x.body).Some? && IsPlain(NameOf(lib, x.body).value)
    && NameOf(lib, x.body).value in x.params
  }

  function Projections(lib: Lib, scope: seq<Entry>): set<string> {
    set i | 0 <= i < |scope| && IsProjection(lib, scope[i]) :: scope[i].name
  }

  /** No definition results in a call of its own name, or of one that returns
      an argument. */
  predicate ScopeSettles(lib: Lib, scope: seq<Entry>) {
    && "" !in Names(scope)
    && forall i | 0 <= i < |scope| :: IsProjection(lib, scope[i]) || EntrySettles(lib, scope, i, {scope[i].name} + Projections(lib, scope))
  }

  /** No definition results in a call of one of `names`, but for those that
      return an argument, which are all among them. */
  predicate Avoids(lib: Lib, scope: seq<Entry>, names: set<string>) {
    && "" !in names && Projections(lib, scope) <= names <= Names(scope)
    && forall i | 0 <= i < |scope| :: IsProjection(lib, scope[i]) || EntrySettles(lib, scope, i, names)
  }

  // ----- their results -----

  lemma NameIsVisible(scope: seq<Entry>, name: string)
    ensures Lookup(scope, name) >= 0 <==> name in Names(scope)
  {
    var i := Lookup(scope, name);
    if i >= 0 { assert scope[i].name in Names(scope); }
  }

  lemma {:induction false} SolidStays(lib: Lib, scope: seq<Entry>, names: set<string>, e: Expr)
    requires ScopeWellFormed(scope) && Has(WellFormed, e) && IsSolid(e) && "" !in names
    ensures var r := Expand(lib, AsWritten, scope, e); r.Ok? ==> !IsCall(names, r.value)
    decreases e
  {
    hide ExpandAll, ExpandString, ExpandMetric, ExpandModifier, Weight, ArgCount, Defs;
    match e
    case With(was, body) =>
      WeightOfDefs(scope, was);
      assert HasDefs(WellFormed, was);
      SolidStays(lib, scope + DefEntries(was), names, body);
    case Parens(args) =>
      if |args| == 1 {
        SolidStays(lib, scope, names, args[0]);
        ExpandSingle(lib, AsWritten, scope, args);
      }
    case Binary(info, left, right) =>
      var l, r := Expand(lib, AsWritten, scope, left), Expand(lib, AsWritten, scope, right);
      if l.Ok? && r.Ok? { JoinIsNoCall(names, Reinfo(scope, info), l.value, r.value); }
    case _ =>
  }

  /** The operator with its modifier lists expanded. */
  function Reinfo(scope: seq<Entry>, info: OpInfo): OpInfo {
    var group, join := ExpandModifier(scope, info.group), ExpandModifier(scope, info.join);
    if group.Ok? && join.Ok? then info.(group := group.value, join := join.value) else info
  }

  lemma JoinIsNoCall(names: set<string>, info: OpInfo, l: Expr, r: Expr)
    requires Has(Expanded, l) && Has(Expanded, r)
    ensures !IsCall(names, JoinOperands(info, l, r))
  {
    hide Has;
  }

  lemma BaseInPrefix(scope: seq<Entry>, n: nat, j: nat)
    requires j < n <= |scope|
    ensures Base(AsWritten, scope[..n], j) == Base(AsWritten, scope, j)
  {
    assert scope == scope[..n] + scope[n..];
    if !scope[j].isArg { FirstWithIdBefore(scope[..n], scope[n..], scope[j].id, j); }
  }

  /** Later entries do not matter. */
  lemma SettlesInPrefix(lib: Lib, scope: seq<Entry>, n: nat, j: nat, names: set<string>)
    requires j < n <= |scope|
    ensures EntrySettles(lib, scope[..n], j, names) <==> EntrySettles(lib, scope, j, names)
  {
    hide BodySettles, IsCall;
    BaseInPrefix(scope, n, j);
    assert scope[..n][..j] == scope[..j];
  }

  lemma {:induction false} EntrySettlesForFewer(lib: Lib, scope: seq<Entry>, j: nat, names: set<string>, fewer: set<string>)
    requires j < |scope| && EntrySettles(lib, scope, j, names) && fewer <= names
    ensures EntrySettles(lib, scope, j, fewer)
    decreases |scope|, 0
  {
    hide BodySettles, RemoveParens;
    var x := scope[j];
    if !x.isArg { BodySettlesForFewer(lib, Base(AsWritten, scope, j), names, fewer, x.params, x.body); }
  }

  lemma {:induction false} BodySettlesForFewer(
      lib: Lib, before: seq<Entry>, names: set<string>, fewer: set<string>, params: seq<string>, e: Expr)
    requires BodySettles(lib, before, names, params, e) && fewer <= names
    ensures BodySettles(lib, before, fewer, params, e)
    decreases |before|, 1, e
  {
    hide EntrySettles, Lookup, LeadingName;
    if !IsSolid(e) {
      match e
      case Parens(args) => BodySettlesForFewer(lib, before, names, fewer, params, args[0]);
      case Func(f, _) => if Lookup(before, f) >= 0 { EntrySettlesForFewer(lib, before, Lookup(before, f), names, fewer); }
      case Metric(_, raw) =>
        var name := LeadingName(lib, raw);
        if name.Some? && Lookup(before, name.value) >= 0 {
          if EntrySettles(lib, before, Lookup(before, name.value), names) {
            EntrySettlesForFewer(lib, before, Lookup(before, name.value), names, fewer);
          }
        }
    }
  }

  /** The first `n` entries result in no call of `names`, or are named by it;
      after them there are only arguments, none such a call. */
  predicate ArgsFrom(lib: Lib, scope: seq<Entry>, n: nat, names: set<string>) {
    && n <= |scope|
    && (forall i | 0 <= i < n :: scope[i].name in names || EntrySettles(lib, scope, i, names))
    && forall i | n <= i < |scope| :: scope[i].isArg && !IsCall(names, scope[i].body)
  }

  lemma ArgsFromInPrefix(lib: Lib, scope: seq<Entry>, n: nat, j: nat, names: set<string>)
    requires ArgsFrom(lib, scope, n, names) && n <= j <= |scope|
    ensures ArgsFrom(lib, scope[..j], n, names)
  {
    hide EntrySettles, IsCall;
    forall i | 0 <= i < n && scope[i].name !in names ensures EntrySettles(lib, scope[..j], i, names) {
      SettlesInPrefix(lib, scope, j, i, names);
    }
  }

  /** The root of an expanded tree stays unless it is a call of a name in
      scope. */
  lemma {:induction false} RootStays(lib: Lib, scope: seq<Entry>, n: nat, names: set<string>, e: Expr)
    requires LibraryOk(lib) && ScopeWellFormed(scope) && ArgsFrom(lib, scope, n, names) && "" !in names
    requires Has(Expanded, e) && Has(WellFormed, e) && !IsCall(names, e)
    ensures var r := Expand(lib, AsWritten, scope, e); r.Ok? ==> !IsCall(names, r.value)
    decreases |scope|, 4, e
  {
    hide ExpandAll, ExpandString, ExpandModifier, Weight, ArgCount, Defs, ScopeWellFormed, Has, ArgsFrom, Call, EntrySettles;
    match e
    case Func(f, args) =>
      assert HasAll(WellFormed, args) by { ItemsOfCall(e); }
      var r := ExpandAll(lib, AsWritten, scope, args);
      if r.Ok? && Lookup(scope, f) >= 0 { VisibleHasRoot(lib, scope, n, names, f, r.value); }
    case Parens(args) =>
      assert HasAll(Expanded, args) && HasAll(WellFormed, args) by { ItemsOfParens(e); }
      if |args| == 1 {
        RootStays(lib, scope, n, names, args[0]);
        ExpandSingle(lib, AsWritten, scope, args);
      }
    case Binary(info, left, right) =>
      assert Has(WellFormed, left) && Has(WellFormed, right) by { PartsOfBinary(e); }
      var l, r := Expand(lib, AsWritten, scope, left), Expand(lib, AsWritten, scope, right);
      if l.Ok? && r.Ok? { JoinIsNoCall(names, Reinfo(scope, info), l.value, r.value); }
    case Metric(filters, raw) =>
      assert raw == [] by { ExpandedMetric(e); }
      if filters == [] { EmptySelectorStays(lib, scope); }
    case With(_, _) => ExpandedMetric(e);
    case _ =>
  }

  /** A call of a name that is not among `names` results in none of them. */
  lemma {:induction false} VisibleHasRoot(lib: Lib, scope: seq<Entry>, n: nat, names: set<string>, f: string, args: seq<Expr>)
    requires LibraryOk(lib) && ScopeWellFormed(scope) && ArgsFrom(lib, scope, n, names) && "" !in names
    requires f !in names && Lookup(scope, f) >= 0 && HasAll(Expanded, args)
    ensures var r := Call(lib, AsWritten, scope, Lookup(scope, f), Some(args)); r.Ok? ==> !IsCall(names, r.value)
    decreases |scope|, 3
  {
    hide Call, Weight, ArgCount, Defs, Has, Lookup, ScopeWellFormed, EntrySettles, IsCall;
    var j := Lookup(scope, f);
    if j < n {
      EntryHasRoot(lib, scope, j, names, Some(args));
    } else {
      ArgumentIsNoCall(lib, scope, n, names, j, Some(args));
    }
  }

  /** Reading an argument yields no call of `names`. */
  lemma {:induction false} ArgumentIsNoCall(lib: Lib, scope: seq<Entry>, n: nat, names: set<string>, j: nat, args: Option<seq<Expr>>)
    requires LibraryOk(lib) && ScopeWellFormed(scope) && ArgsFrom(lib, scope, n, names) && "" !in names && n <= j < |scope|
    requires args.Some? ==> HasAll(Expanded, args.value)
    ensures var r := Call(lib, AsWritten, scope, j, args); r.Ok? ==> !IsCall(names, r.value)
    decreases |scope|, 1
  {
    hide Expand, Weight, ArgCount, Defs, Has, Lookup, ScopeWellFormed, IsCall, EntrySettles;
    ArgIsExpanded(scope, j);
    if args.None? || args.value == [] {
      assert scope[..j] + ArgEntries([], []) == scope[..j];
      CallDescends(AsWritten, scope, j, []);
      ArgsFromInPrefix(lib, scope, n, j, names);
      RootStays(lib, scope[..j], n, names, scope[j].body);
    }
  }

  lemma ItemsOfParens(e: Expr)
    requires e.Parens? && Has(Expanded, e) && Has(WellFormed, e)
    ensures HasAll(Expanded, e.args) && HasAll(WellFormed, e.args)
  {
  }

  lemma ItemsOfCall(e: Expr)
    requires e.Func? && Has(WellFormed, e)
    ensures HasAll(WellFormed, e.args)
  {
  }

  lemma PartsOfBinary(e: Expr)
    requires e.Binary? && Has(WellFormed, e)
    ensures Has(WellFormed, e.left) && Has(WellFormed, e.right)
  {
  }

  lemma ExpandedMetric(e: Expr)
    requires Has(Expanded, e)
    ensures !e.With? && (e.Metric? ==> e.raw == [])
  {
  }

  lemma EmptySelectorStays(lib: Lib, scope: seq<Entry>)
    requires ScopeWellFormed(scope)
    ensures ExpandMetric(lib, AsWritten, scope, []) == Ok(Metric([], []))
  {
    assert ExpandFilters(lib, AsWritten, scope, []) == Ok([]);
  }

  /** Entries after a definition do not matter for its call. */
  lemma {:induction false} FirstWithIdBefore(scope: seq<Entry>, more: seq<Entry>, id: int, i: nat)
    requires i < |scope| && !scope[i].isArg && scope[i].id == id
    ensures FirstWithId(scope + more, id, i) == FirstWithId(scope, id, i)
    decreases i
  {
    assert (scope + more)[1..] == scope[1..] + more;
    if !(!scope[0].isArg && scope[0].id == id) { FirstWithIdBefore(scope[1..], more, id, i - 1); }
  }

  lemma CallBefore(lib: Lib, scope: seq<Entry>, more: seq<Entry>, j: nat, args: Option<seq<Expr>>)
    requires ScopeWellFormed(scope) && ScopeWellFormed(scope + more) && j < |scope|
    requires args.Some? ==> HasAll(Expanded, args.value)
    ensures Call(lib, AsWritten, scope + more, j, args) == Call(lib, AsWritten, scope, j, args)
  {
    hide Expand, Weight, ArgCount, ScopeWellFormed, FirstWithId;
    var s := scope + more;
    if !scope[j].isArg { FirstWithIdBefore(scope, more, scope[j].id, j); }
    var k := FirstSame(scope, j);
    assert FirstSame(s, j) == k;
    assert s[..k] == scope[..k];
  }

  lemma NamesOfBase(scope: seq<Entry>, j: nat)
    requires j < |scope|
    ensures Names(Base(AsWritten, scope, j)) <= Names(scope)
  {
    var base := Base(AsWritten, scope, j);
    forall k | 0 <= k < |base| ensures base[k].name in Names(scope) { assert base[k] == scope[k]; }
  }

  /** A definition that settles results in no call of `names`. */
  lemma {:induction false} EntryHasRoot(lib: Lib, scope: seq<Entry>, j: nat, names: set<string>, args: Option<seq<Expr>>)
    requires LibraryOk(lib) && ScopeWellFormed(scope) && j < |scope| && "" !in names && EntrySettles(lib, scope, j, names)
    requires args.Some? ==> HasAll(Expanded, args.value)
    ensures var r := Call(lib, AsWritten, scope, j, args); r.Ok? ==> !IsCall(names, r.value)
    decreases |scope|, 0
  {
    hide Expand, Weight, ArgCount, ScopeWellFormed, BodySettles, Has, Names, Defs;
    var x := scope[j];
    var given := if args.Some? then args.value else [];
    if |x.params| == |given| {
      CallDescends(AsWritten, scope, j, given);
      var base := Base(AsWritten, scope, j);
      if x.isArg {
        ArgIsExpanded(scope, j);
        assert base + ArgEntries(x.params, given) == base == scope[..j];
        ReadArgument(lib, base, names, x.body);
      } else {
        BodyIsWellFormed(scope, j);
        BodyHasRoot(lib, base, names, x.params, given, x.body);
      }
    }
  }

  /** An argument that calls nothing visible at its root keeps it. */
  lemma {:induction false} ReadArgument(lib: Lib, base: seq<Entry>, names: set<string>, e: Expr)
    requires LibraryOk(lib) && ScopeWellFormed(base) && "" !in names && Has(Expanded, e) && Has(WellFormed, e)
    requires !IsCall(Names(base) + names, e)
    ensures var r := Expand(lib, AsWritten, base, e); r.Ok? ==> !IsCall(names, r.value)
    decreases |base|, 3, e
  {
    hide ExpandAll, ExpandString, ExpandModifier, Weight, ArgCount, Defs, ScopeWellFormed, Has, Call;
    match e
    case Func(f, args) => NameIsVisible(base, f);
    case Parens(args) =>
      assert HasAll(Expanded, args) && HasAll(WellFormed, args) by { ItemsOfParens(e); }
      if |args| == 1 {
        ReadArgument(lib, base, names, args[0]);
        ExpandSingle(lib, AsWritten, base, args);
      }
    case Binary(info, left, right) =>
      assert Has(WellFormed, left) && Has(WellFormed, right) by { PartsOfBinary(e); }
      var l, r := Expand(lib, AsWritten, base, left), Expand(lib, AsWritten, base, right);
      if l.Ok? && r.Ok? { JoinIsNoCall(names, Reinfo(base, info), l.value, r.value); }
    case Metric(filters, raw) =>
      assert raw == [] by { ExpandedMetric(e); }
      if filters == [] { EmptySelectorStays(lib, base); }
    case With(_, _) => ExpandedMetric(e);
    case _ =>
  }

  lemma ArgIsExpanded(scope: seq<Entry>, j: nat)
    requires ScopeWellFormed(scope) && j < |scope| && scope[j].isArg
    ensures Has(Expanded, scope[j].body) && Has(WellFormed, scope[j].body) && scope[j].params == []
  {
  }

  lemma BodyIsWellFormed(scope: seq<Entry>, j: nat)
    requires ScopeWellFormed(scope) && j < |scope|
    ensures Has(WellFormed, scope[j].body)
    ensures ScopeWellFormed(Base(AsWritten, scope, j))
  {
  }

  lemma {:induction false} BodyHasRoot(
      lib: Lib, before: seq<Entry>, names: set<string>, params: seq<string>, args: seq<Expr>, e: Expr)
    requires LibraryOk(lib) && |params| == |args| && ScopeWellFormed(before) && ScopeWellFormed(before + ArgEntries(params, args))
    requires Has(WellFormed, e) && "" !in names && BodySettles(lib, before, names, params, e)
    ensures var r := Expand(lib, AsWritten, before + ArgEntries(params, args), e); r.Ok? ==> !IsCall(names, r.value)
    decreases |before|, 2, e
  {
    hide ExpandAll, ExpandMetric, ExpandModifier, Weight, ArgCount, ScopeWellFormed, Names, Defs, Lookup, EntrySettles;
    var s := before + ArgEntries(params, args);
    if IsSolid(e) {
      SolidStays(lib, s, names, e);
    } else {
      match e
      case Parens(es) =>
        BodyHasRoot(lib, before, names, params, args, es[0]);
        ExpandSingle(lib, AsWritten, s, es);
      case Func(f, es) =>
        LookupBefore(before, ArgEntries(params, args), f);
        var j := Lookup(before, f);
        var r := ExpandAll(lib, AsWritten, s, es);
        if j >= 0 && r.Ok? {
          CallBefore(lib, before, ArgEntries(params, args), j, Some(r.value));
          EntryHasRoot(lib, before, j, names, Some(r.value));
        }
      case Metric(_, raw) => SelectorIsNoCall(lib, before, names, params, args, raw);
    }
  }

  lemma {:induction false} SelectorIsNoCall(
      lib: Lib, before: seq<Entry>, names: set<string>, params: seq<string>, args: seq<Expr>, raw: seq<LabelFilterExpr>)
    requires LibraryOk(lib) && |params| == |args| && ScopeWellFormed(before) && ScopeWellFormed(before + ArgEntries(params, args))
    requires RawWellFormed(raw) && "" !in names && BodySettles(lib, before, names, params, Metric([], raw))
    ensures var r := ExpandMetric(lib, AsWritten, before + ArgEntries(params, args), raw); r.Ok? ==> !IsCall(names, r.value)
    decreases |before|, 1
  {
    hide Weight, ArgCount, ScopeWellFormed, Lookup, EntrySettles, MergeMetric, Call, Escape, Unescape;
    hide WithoutRepeatedKeys, ExpandFilter, Has;
    var s := before + ArgEntries(params, args);
    var r := ExpandFilters(lib, AsWritten, s, raw);
    if r.Ok? && raw != [] {
      FirstFilterStays(lib, r.value);
      FirstFilterOf(lib, s, raw);
      if LeadingName(lib, raw).Some? {
        var name := LeadingName(lib, raw).value;
        var own := WithoutRepeatedKeys(lib, r.value);
        assert HasMetricGroup(own) ==> Escape(own[0].value) == name by { LeadingIsPlain(lib, raw); }
        if HasMetricGroup(own) && Unescape(raw[0].key) == "__name__" && name !in params {
          LookupBefore(before, ArgEntries(params, args), name);
          var j := Lookup(before, name);
          if j >= 0 && EntrySettles(lib, before, j, names) {
            CallBefore(lib, before, ArgEntries(params, args), j, None);
            EntryHasRoot(lib, before, j, names, None);
            var e := Call(lib, AsWritten, s, j, None);
            if e.Ok? { MergedIsNoCall(lib, names, own, e.value); }
          }
        }
      }
    } else if r.Ok? {
      EmptySelectorStays(lib, s);
    }
  }

  lemma LeadingIsPlain(lib: Lib, raw: seq<LabelFilterExpr>)
    requires LeadingName(lib, raw).Some?
    ensures Escape(LeadingName(lib, raw).value) == LeadingName(lib, raw).value
  {
  }

  lemma MergedIsNoCall(lib: Lib, names: set<string>, own: seq<LabelFilter>, e: Expr)
    requires Has(Expanded, e) && !IsCall(names, e) && HasMetricGroup(own)
    ensures var r := MergeMetric(lib, own, e); r.Ok? ==> !IsCall(names, r.value)
  {
    hide WithoutRepeatedKeys, Has;
  }

  lemma FirstFilterOf(lib: Lib, scope: seq<Entry>, raw: seq<LabelFilterExpr>)
    requires LibraryOk(lib) && ScopeWellFormed(scope) && RawWellFormed(raw) && raw != []
    requires ExpandFilters(lib, AsWritten, scope, raw).Ok?
    ensures var fs := ExpandFilters(lib, AsWritten, scope, raw).value;
            && (raw[0].value.Some? ==> fs != [] && fs[0].key == Unescape(raw[0].key))
            && (LeadingName(lib, raw).Some? ==> fs != [] && fs[0] == LabelFilter("__name__", LeadingName(lib, raw).value, false, false))
  {
    hide Weight, ArgCount, Unescape, ExpandString, Escape, IsByteString;
    if LeadingName(lib, raw).Some? {
      var name := LeadingName(lib, raw).value;
      NameFilterExpands(lib, AsWritten, scope, name);
      assert Reference(lib, name).raw[0] == raw[0];
      SingleFilter(lib, scope, raw[0]);
    }
  }

  lemma SingleFilter(lib: Lib, scope: seq<Entry>, f: LabelFilterExpr)
    requires ScopeWellFormed(scope) && RawWellFormed([f]) && ExpandFilters(lib, AsWritten, scope, [f]).Ok?
    ensures f.value.Some? ==> StringWellFormed(f.value.value)
    ensures ExpandFilter(lib, AsWritten, scope, f) == Ok(ExpandFilters(lib, AsWritten, scope, [f]).value)
  {
    hide ExpandFilter;
    assert [f][0] == f && [f][1..] == [] && ExpandFilters(lib, AsWritten, scope, []) == Ok([]);
    var r := ExpandFilter(lib, AsWritten, scope, f);
    if r.Ok? { assert r.value + [] == r.value; }
  }

  // ----- no visible call survives -----

  lemma {:induction false} ExpandAllAt(lib: Lib, scope: seq<Entry>, es: seq<Expr>, i: nat)
    requires ScopeWellFormed(scope) && HasAll(WellFormed, es) && i < |es|
    ensures var r, x := ExpandAll(lib, AsWritten, scope, es), Expand(lib, AsWritten, scope, es[i]);
            r.Ok? ==> x == Ok(r.value[i])
  {
    hide Expand;
    if i > 0 { ExpandAllAt(lib, scope, es[1..], i - 1); }
  }

  /** Whatever an expanded tree is, expanding it again leaves no call of a name
      at its root that the scope avoids. */
  lemma {:induction false} NoAvoidedRoot(lib: Lib, scope: seq<Entry>, names: set<string>, e: Expr)
    requires LibraryOk(lib) && ScopeWellFormed(scope) && Avoids(lib, scope, names)
    requires Has(Expanded, e) && Has(WellFormed, e)
    ensures var r := Expand(lib, AsWritten, scope, e); r.Ok? ==> !IsCall(names, r.value)
    decreases e, 1
  {
    hide Expand, ScopeWellFormed, Avoids, Has, Names;
    assert "" !in names && names <= Names(scope) by { AvoidedNames(lib, scope, names); }
    if !IsCall(names, e) {
      AvoidedArgsFrom(lib, scope, names);
      RootStays(lib, scope, |scope|, names, e);
    } else {
      match e
      case Func(f, args) => AvoidedCallHasRoot(lib, scope, names, f, args);
      case Parens(args) =>
        ItemsOfParens(e);
        ParensIsItem(lib, scope, names, args);
        NoAvoidedRoot(lib, scope, names, args[0]);
    }
  }

  lemma AvoidedNames(lib: Lib, scope: seq<Entry>, names: set<string>)
    requires Avoids(lib, scope, names)
    ensures "" !in names && names <= Names(scope)
  {
  }

  lemma AvoidedArgsFrom(lib: Lib, scope: seq<Entry>, names: set<string>)
    requires Avoids(lib, scope, names)
    ensures ArgsFrom(lib, scope, |scope|, names)
  {
    hide EntrySettles, IsProjection;
    assert forall i | 0 <= i < |scope| && IsProjection(lib, scope[i]) :: scope[i].name in Projections(lib, scope);
  }

  /** If no definition results in a call of a visible name, no expansion does. */
  lemma NoVisibleRoot(lib: Lib, scope: seq<Entry>, e: Expr)
    requires LibraryOk(lib) && ScopeWellFormed(scope) && Avoids(lib, scope, Names(scope))
    requires Has(Expanded, e) && Has(WellFormed, e)
    ensures var r := Expand(lib, AsWritten, scope, e); r.Ok? ==> !IsCall(Names(scope), r.value)
  {
    NoAvoidedRoot(lib, scope, Names(scope), e);
  }

  lemma ParensIsItem(lib: Lib, scope: seq<Entry>, names: set<string>, args: seq<Expr>)
    requires ScopeWellFormed(scope) && HasAll(WellFormed, args) && Has(WellFormed, Parens(args))
    requires "" !in names && IsCall(names, Parens(args))
    ensures |args| == 1
    ensures var r, x := Expand(lib, AsWritten, scope, Parens(args)), Expand(lib, AsWritten, scope, args[0]);
            if x.Ok? then r == Ok(Parens([x.value])) else !r.Ok?
  {
    hide Names, Has, ExpandAll;
    ExpandSingle(lib, AsWritten, scope, args);
  }

  lemma {:induction false} AvoidedCallHasRoot(lib: Lib, scope: seq<Entry>, names: set<string>, f: string, args: seq<Expr>)
    requires LibraryOk(lib) && ScopeWellFormed(scope) && Avoids(lib, scope, names)
    requires Has(Expanded, Func(f, args)) && Has(WellFormed, Func(f, args)) && f in Names(scope)
    ensures var r := Expand(lib, AsWritten, scope, Func(f, args)); r.Ok? ==> !IsCall(names, r.value)
    decreases Func(f, args), 0
  {
    hide ExpandAll, Call, Weight, ArgCount, Defs, ScopeWellFormed, Names, IsCall;
    NameIsVisible(scope, f);
    var j := Lookup(scope, f);
    var r := ExpandAll(lib, AsWritten, scope, args);
    if r.Ok? {
      assert HasAll(Expanded, args) && HasAll(WellFormed, args);
      forall i | 0 <= i < |args| ensures !IsCall(names, r.value[i]) {
        assert args[i] < Func(f, args);
        NoAvoidedRoot(lib, scope, names, args[i]);
        ExpandAllAt(lib, scope, args, i);
      }
      if EntrySettles(lib, scope, j, names) {
        EntryHasRoot(lib, scope, j, names, Some(r.value));
      } else {
        ProjectionHasRoot(lib, scope, names, j, r.value);
      }
    }
  }

  /** A definition that returns an argument returns no call of `names` if the
      arguments are none. */
  lemma ProjectionHasRoot(lib: Lib, scope: seq<Entry>, names: set<string>, j: nat, args: seq<Expr>)
    requires LibraryOk(lib) && ScopeWellFormed(scope) && j < |scope| && IsProjection(lib, scope[j]) && Avoids(lib, scope, names)
    requires HasAll(Expanded, args) && forall i | 0 <= i < |args| :: !IsCall(names, args[i])
    ensures var r := Call(lib, AsWritten, scope, j, Some(args)); r.Ok? ==> !IsCall(names, r.value)
  {
    hide Expand, Weight, ArgCount, Defs, ScopeWellFormed, Names, IsCall, Has, Lookup, IsProjection, Reference, Avoids;
    var x := scope[j];
    if |x.params| == |args| {
      CallDescends(AsWritten, scope, j, args);
      var base := Base(AsWritten, scope, j);
      AvoidedArgsFrom(lib, scope, names);
      PrefixArgsFrom(lib, scope, |base|, names);
      AvoidedNames(lib, scope, names);
      var name := ProjectedName(lib, x);
      BodyIsWellFormed(scope, j);
      assert base == scope[..|base|];
      ParameterHasRoot(lib, base, names, x.params, args, name);
    }
  }

  lemma PrefixArgsFrom(lib: Lib, scope: seq<Entry>, m: nat, names: set<string>)
    requires ArgsFrom(lib, scope, |scope|, names) && m <= |scope|
    ensures ArgsFrom(lib, scope[..m], m, names)
  {
    hide EntrySettles;
    forall i | 0 <= i < m && scope[i].name !in names ensures EntrySettles(lib, scope[..m], i, names) {
      SettlesInPrefix(lib, scope, m, i, names);
    }
  }

  lemma ProjectedName(lib: Lib, x: Entry) returns (name: string)
    requires LibraryOk(lib) && IsProjection(lib, x)
    ensures x.body == Reference(lib, name) && IsPlain(name) && name in x.params && Distinct(x.params)
  {
    name := NameOf(lib, x.body).value;
  }

  lemma ParameterHasRoot(lib: Lib, base: seq<Entry>, names: set<string>, params: seq<string>, args: seq<Expr>, name: string)
    requires LibraryOk(lib) && |params| == |args| && Distinct(params) && IsPlain(name) && name in params
    requires ScopeWellFormed(base + ArgEntries(params, args)) && ArgsFrom(lib, base, |base|, names) && "" !in names
    requires HasAll(Expanded, args) && forall i | 0 <= i < |args| :: !IsCall(names, args[i])
    requires Has(WellFormed, Reference(lib, name))
    ensures var r := Expand(lib, AsWritten, base + ArgEntries(params, args), Reference(lib, name)); r.Ok? ==> !IsCall(names, r.value)
  {
    hide Lookup, ExpandFilters, Escape, IsByteString, Position, ScopeWellFormed, Weight, ArgCount, Has, WithoutRepeatedKeys;
    hide Call, MergeMetric, Names, IsCall, ArgsFrom, EntrySettles, Distinct, Base;
    var s := base + ArgEntries(params, args);
    var f := LabelFilter("__name__", name, false, false);
    NameFilterExpands(lib, AsWritten, s, name);
    OneFilterStays(lib, f);
    LookupArg(base, params, args, name);
    var i := |base| + Position(params, name);
    assert s[i] == Entry(0, name, [], args[i - |base|], true);
    WithArgsFrom(lib, base, names, params, args);
    ArgumentIsNoCall(lib, s, |base|, names, i, None);
    var r := Call(lib, AsWritten, s, i, None);
    if r.Ok? { MergeIsNoCall(lib, names, f, r.value); }
  }

  lemma WithArgsFrom(lib: Lib, base: seq<Entry>, names: set<string>, params: seq<string>, args: seq<Expr>)
    requires |params| == |args| && ArgsFrom(lib, base, |base|, names) && forall i | 0 <= i < |args| :: !IsCall(names, args[i])
    ensures ArgsFrom(lib, base + ArgEntries(params, args), |base|, names)
  {
    hide EntrySettles, IsCall;
    var s := base + ArgEntries(params, args);
    assert s[..|base|] == base;
    forall i | 0 <= i < |base| && s[i].name !in names ensures EntrySettles(lib, s, i, names) {
      SettlesInPrefix(lib, s, |base|, i, names);
    }
  }

  lemma MergeIsNoCall(lib: Lib, names: set<string>, f: LabelFilter, e: Expr)
    requires Has(Expanded, e) && !IsCall(names, e) && HasMetricGroup([f])
    ensures var r := MergeMetric(lib, [f], e); r.Ok? ==> !IsCall(names, r.value)
  {
    hide WithoutRepeatedKeys, Has;
  }

  // ----- the exact condition -----

  lemma {:induction false} ReexpansionOfAllChanges(lib: Lib, scope: seq<Entry>, es: seq<Expr>, i: nat)
    requires LibraryOk(lib) && ScopeWellFormed(scope) && ScopeSettles(lib, scope)
    requires HasAll(Expanded, es) && HasAll(WellFormed, es) && i < |es| && Calls(Names(scope), es[i])
    ensures var r := ExpandAll(lib, AsWritten, scope, es); r.Ok? ==> RemoveParensAll(r.value) != RemoveParensAll(es)
    decreases es, 0
  {
    hide Expand, ExpandAll, ScopeWellFormed, ScopeSettles, Calls, RemoveParens, Names;
    ReexpansionChanges(lib, scope, es[i]);
    ExpandAllAt(lib, scope, es, i);
    var r := ExpandAll(lib, AsWritten, scope, es);
    if r.Ok? { assert RemoveParensAll(r.value)[i] != RemoveParensAll(es)[i]; }
  }

  lemma SettlingAvoids(lib: Lib, scope: seq<Entry>)
    requires ScopeSettles(lib, scope)
    ensures Avoids(lib, scope, Projections(lib, scope))
  {
    hide EntrySettles, IsProjection;
    forall i | 0 <= i < |scope| && !IsProjection(lib, scope[i]) ensures EntrySettles(lib, scope, i, Projections(lib, scope)) {
      EntrySettlesForFewer(lib, scope, i, {scope[i].name} + Projections(lib, scope), Projections(lib, scope));
    }
  }

  /** A call of a visible name does not come back as a call of that name. */
  lemma OwnRootChanges(lib: Lib, scope: seq<Entry>, f: string, args: seq<Expr>)
    requires LibraryOk(lib) && ScopeWellFormed(scope) && ScopeSettles(lib, scope) && f in Names(scope)
    requires Has(Expanded, Func(f, args)) && Has(WellFormed, Func(f, args))
    ensures var r := Expand(lib, AsWritten, scope, Func(f, args)); r.Ok? ==> !IsCall({f}, r.value)
  {
    hide ExpandAll, Call, Weight, ArgCount, Defs, ScopeWellFormed, IsCall, Has, EntrySettles, IsProjection;
    NameIsVisible(scope, f);
    var j := Lookup(scope, f);
    if IsProjection(lib, scope[j]) {
      assert f in Projections(lib, scope);
      SettlingAvoids(lib, scope);
      NoAvoidedRoot(lib, scope, Projections(lib, scope), Func(f, args));
      FewerCalls({f}, Projections(lib, scope));
    } else {
      EntrySettlesForFewer(lib, scope, j, {scope[j].name} + Projections(lib, scope), {f});
      assert HasAll(WellFormed, args) by { ItemsOfCall(Func(f, args)); }
      var r := ExpandAll(lib, AsWritten, scope, args);
      if r.Ok? { EntryHasRoot(lib, scope, j, {f}, Some(r.value)); }
    }
  }

  lemma FewerCalls(fewer: set<string>, names: set<string>)
    requires fewer <= names
    ensures forall e :: IsCall(fewer, e) ==> IsCall(names, e)
  {
    hide RemoveParens;
  }

  /** An expanded tree that calls a visible name is not reproduced. */
  lemma {:induction false} ReexpansionChanges(lib: Lib, scope: seq<Entry>, e: Expr)
    requires LibraryOk(lib) && ScopeWellFormed(scope) && ScopeSettles(lib, scope)
    requires Has(Expanded, e) && Has(WellFormed, e) && Calls(Names(scope), e)
    ensures var r := Expand(lib, AsWritten, scope, e); r.Ok? ==> RemoveParens(r.value) != RemoveParens(e)
    decreases e, 1
  {
    hide ExpandAll, ExpandModifier, ScopeWellFormed, ScopeSettles, Names, Weight, ArgCount, Defs, Lookup, Call, JoinOperands;
    match e
    case Func(f, args) =>
      NameIsVisible(scope, f);
      if f in Names(scope) {
        OwnRootChanges(lib, scope, f, args);
      } else {
        var i :| 0 <= i < |args| && Calls(Names(scope), args[i]);
        ReexpansionOfAllChanges(lib, scope, args, i);
      }
    case Aggr(_, args, _, _) =>
      var i :| 0 <= i < |args| && Calls(Names(scope), args[i]);
      ReexpansionOfAllChanges(lib, scope, args, i);
    case Parens(args) =>
      var i :| 0 <= i < |args| && Calls(Names(scope), args[i]);
      ReexpansionOfAllChanges(lib, scope, args, i);
      ParensDiffer(args);
    case Binary(info, left, right) =>
      if Calls(Names(scope), left) { ReexpansionChanges(lib, scope, left); } else { ReexpansionChanges(lib, scope, right); }
      var l, r := Expand(lib, AsWritten, scope, left), Expand(lib, AsWritten, scope, right);
      if l.Ok? && r.Ok? { JoinsDiffer(e, Reinfo(scope, info), l.value, r.value); }
    case Rollup(inner, _, _, _, _) => ReexpansionChanges(lib, scope, inner);
  }

  lemma ParensDiffer(args: seq<Expr>)
    ensures forall other | |other| == |args| && RemoveParensAll(other) != RemoveParensAll(args) ::
              RemoveParens(Parens(other)) != RemoveParens(Parens(args))
  {
    forall other | |other| == |args| && RemoveParensAll(other) != RemoveParensAll(args)
      ensures RemoveParens(Parens(other)) != RemoveParens(Parens(args))
    {
      var a, b := RemoveParensAll(other), RemoveParensAll(args);
      if |args| == 1 { assert a == [a[0]] && b == [b[0]]; }
    }
  }

  lemma JoinsDiffer(e: Expr, info: OpInfo, l: Expr, r: Expr)
    requires e.Binary? && Has(Expanded, l) && Has(Expanded, r)
    requires RemoveParens(l) != RemoveParens(e.left) || RemoveParens(r) != RemoveParens(e.right)
    ensures RemoveParens(JoinOperands(info, l, r)) != RemoveParens(e)
  {
    hide Has, RemoveParens;
    ParensOfOperation(info, l, r);
    ParensOfOperation(e.info, e.left, e.right);
    assert forall se :: RemoveParens(Str(se)) == Str(se) by { StringsStay(); }
  }

  lemma StringsStay()
    ensures forall se :: RemoveParens(Str(se)) == Str(se)
  {
  }

  lemma ParensOfOperation(info: OpInfo, l: Expr, r: Expr)
    ensures RemoveParens(Binary(info, l, r)) == Binary(info, RemoveParens(l), RemoveParens(r))
    ensures RemoveParens(Parens([Binary(info, l, r)])) == Binary(info, RemoveParens(l), RemoveParens(r))
  {
    assert RemoveParensAll([Binary(info, l, r)])[0] == RemoveParens(Binary(info, l, r));
  }

  /** Expanding an expanded tree without modifier lists once more reproduces
      it if and only if it calls no visible name. */
  lemma ReexpansionIsExact(lib: Lib, scope: seq<Entry>, e: Expr)
    requires LibraryOk(lib) && ScopeWellFormed(scope) && ScopeSettles(lib, scope)
    requires Has(Expanded, e) && Has(WellFormed, e) && NoLists(e)
    ensures var r := Expand(lib, AsWritten, scope, e);
            r.Ok? && RemoveParens(r.value) == RemoveParens(e) <==> !Calls(Names(scope), e)
  {
    hide Expand, ScopeWellFormed, ScopeSettles, Names, Canon, Hygienic, RemoveParens, Has, NoLists, Calls;
    if Calls(Names(scope), e) {
      ReexpansionChanges(lib, scope, e);
    } else {
      InertIsHygienic(Names(scope), e);
      ReexpansionIsIdentity(lib, Names(scope), scope, e);
      RemoveParensOfCanon(e);
      RemoveParensOfCanon(Expand(lib, AsWritten, scope, e).value);
    }
  }

  /** A body that is a call of a name defined later settles, as in
      `f(x) = g(x), g(y) = y + 1`: re-expanding `f(1)` there gives `g(1)`. */
  lemma LaterCallSettles(lib: Lib, f: string, g: string, body: Expr, later: Expr)
    requires f != g && f != "" && g !in {"", "x"} && body.Func? && body.name == g && later.Binary?
    ensures ScopeSettles(lib, [Entry(1, f, ["x"], body, false), Entry(2, g, ["y"], later, false)])
  {
    hide IsProjection;
    var scope := [Entry(1, f, ["x"], body, false), Entry(2, g, ["y"], later, false)];
    assert !IsProjection(lib, scope[0]) && !IsProjection(lib, scope[1]) by { OnlyNamesAreProjections(lib, scope[0]); OnlyNamesAreProjections(lib, scope[1]); }
    assert Projections(lib, scope) == {};
    assert Base(AsWritten, scope, 0) == [] && Lookup([], g) < 0 && g !in ["x"];
    assert BodySettles(lib, [], {f} + {}, ["x"], body);
    assert EntrySettles(lib, scope, 0, {scope[0].name} + Projections(lib, scope));
    assert EntrySettles(lib, scope, 1, {scope[1].name} + Projections(lib, scope));
  }

  lemma OnlyNamesAreProjections(lib: Lib, x: Entry)
    requires !x.body.Metric?
    ensures !IsProjection(lib, x)
  {
  }

  /** A definition whose body is a call of its own name, which is not visible
      there, does not settle: under `f() = f()` the tree `f()` calls a visible
      name and is reproduced. */
  lemma SelfCallIsReproduced(lib: Lib)
    ensures var scope, e := [Entry(1, "f", [], Func("f", []), false)], Func("f", []);
            && ScopeWellFormed(scope) && Has(Expanded, e) && Has(WellFormed, e) && NoLists(e)
            && Calls(Names(scope), e) && !ScopeSettles(lib, scope) && Expand(lib, AsWritten, scope, e) == Ok(e)
  {
    hide Weight, ArgCount, Defs;
    var scope, e := [Entry(1, "f", [], Func("f", []), false)], Func("f", []);
    assert Lookup(scope, "f") == 0 && Base(AsWritten, scope, 0) == [] && [] + ArgEntries([], []) == [];
    assert scope[0].name in Names(scope);
    assert Lookup([], "f") < 0;
    assert ExpandAll(lib, AsWritten, scope, []) == Ok([]) == ExpandAll(lib, AsWritten, [], []);
    assert Expand(lib, AsWritten, [], e) == Ok(e);
    assert !EntrySettles(lib, scope, 0, Names(scope));
  }

  // ----- calls: when substitution is exact -----

  /** An expanded tree sees the definitions it calls and nothing else. */
  lemma {:induction false} OnlyCalledMatters(lib: Lib, scope: seq<Entry>, more: seq<Entry>, e: Expr)
    requires ScopeWellFormed(scope) && ScopeWellFormed(scope + more)
    requires Has(Expanded, e) && Has(WellFormed, e) && NoLists(e) && !Calls(Names(more), e)
    ensures Expand(lib, AsWritten, scope + more, e) == Expand(lib, AsWritten, scope, e)
    decreases e, 1
  {
    hide ExpandAll, ExpandModifier, ScopeWellFormed, Names, Weight, ArgCount, Defs, Lookup, Call, JoinOperands;
    match e
    case Func(f, args) =>
      OnlyCalledMattersIn(lib, scope, more, args);
      NamesAreApart(more, f);
      LookupBefore(scope, more, f);
      var j, r := Lookup(scope, f), ExpandAll(lib, AsWritten, scope, args);
      if j >= 0 && r.Ok? { CallBefore(lib, scope, more, j, Some(r.value)); }
    case Aggr(_, args, modifier, _) =>
      OnlyCalledMattersIn(lib, scope, more, args);
      EmptyModifier(scope, modifier);
      EmptyModifier(scope + more, modifier);
    case Parens(args) => OnlyCalledMattersIn(lib, scope, more, args);
    case Binary(info, left, right) =>
      OnlyCalledMatters(lib, scope, more, left);
      OnlyCalledMatters(lib, scope, more, right);
      EmptyModifier(scope, info.group);
      EmptyModifier(scope, info.join);
      EmptyModifier(scope + more, info.group);
      EmptyModifier(scope + more, info.join);
    case Rollup(inner, _, _, _, _) => OnlyCalledMatters(lib, scope, more, inner);
    case Metric(filters, _) =>
      if filters == [] {
        EmptySelectorStays(lib, scope);
        EmptySelectorStays(lib, scope + more);
      }
    case Str(se) =>
      assert ExpandTokens(lib, AsWritten, scope, se.tokens) == Ok("") == ExpandTokens(lib, AsWritten, scope + more, se.tokens);
    case Number(_) =>
  }

  lemma NamesAreApart(more: seq<Entry>, f: string)
    requires f !in Names(more)
    ensures forall k | 0 <= k < |more| :: more[k].name != f
  {
    forall k | 0 <= k < |more| ensures more[k].name != f { assert more[k].name in Names(more); }
  }

  lemma {:induction false} OnlyCalledMattersIn(lib: Lib, scope: seq<Entry>, more: seq<Entry>, es: seq<Expr>)
    requires ScopeWellFormed(scope) && ScopeWellFormed(scope + more) && HasAll(Expanded, es) && HasAll(WellFormed, es)
    requires forall i | 0 <= i < |es| :: NoLists(es[i]) && !Calls(Names(more), es[i])
    ensures ExpandAll(lib, AsWritten, scope + more, es) == ExpandAll(lib, AsWritten, scope, es)
    decreases es, 0
  {
    hide Expand, ScopeWellFormed, Names, Has, NoLists, Calls;
    if es != [] {
      OnlyCalledMatters(lib, scope, more, es[0]);
      OnlyCalledMattersIn(lib, scope, more, es[1..]);
    }
  }

  lemma {:induction false} CallsOfMore(some: set<string>, others: set<string>, e: Expr)
    ensures Calls(some + others, e) <==> Calls(some, e) || Calls(others, e)
    decreases e
  {
    match e
    case Func(_, args) => CallsOfMoreIn(some, others, args);
    case Aggr(_, args, _, _) => CallsOfMoreIn(some, others, args);
    case Parens(args) => CallsOfMoreIn(some, others, args);
    case Binary(_, left, right) => CallsOfMore(some, others, left); CallsOfMore(some, others, right);
    case Rollup(inner, _, _, _, _) => CallsOfMore(some, others, inner);
    case _ =>
  }

  lemma {:induction false} CallsOfMoreIn(some: set<string>, others: set<string>, es: seq<Expr>)
    ensures forall i | 0 <= i < |es| :: Calls(some + others, es[i]) <==> Calls(some, es[i]) || Calls(others, es[i])
    decreases es
  {
    forall i | 0 <= i < |es| ensures Calls(some + others, es[i]) <==> Calls(some, es[i]) || Calls(others, es[i]) {
      CallsOfMore(some, others, es[i]);
    }
  }

  /** Arguments that call no parameter and have no modifier lists. */
  predicate AreLocal(params: seq<string>, args: seq<Expr>) {
    forall i | 0 <= i < |args| :: NoLists(args[i]) && !Calls(ToSet(params), args[i])
  }

  /** Reading an argument changes it if it is not inert. */
  lemma ArgumentChanges(lib: Lib, base: seq<Entry>, params: seq<string>, args: seq<Expr>, i: nat)
    requires LibraryOk(lib) && Fits(lib, base, params, args) && i < |args| && AreLocal(params, args)
    requires ScopeWellFormed(base) && ScopeSettles(lib, base) && !IsInert(base, params, args[i])
    ensures var r := Call(lib, AsWritten, base + ArgEntries(params, args), |base| + i, None);
            Calls(Names(base), args[i]) && (r.Ok? ==> RemoveParens(r.value) != RemoveParens(args[i]))
  {
    hide Names, ToSet, Hygienic, IsSettled, ScopeWellFormed, ScopeSettles, Weight, ArgCount, Expand, NoLists, Calls, RemoveParens;
    var s := base + ArgEntries(params, args);
    assert s[|base| + i] == Entry(0, params[i], [], args[i], true);
    SettledIsExpanded(lib, args[i]);
    ExpandedIsWellFormed(args[i]);
    InertIsHygienic(Names(base) + ToSet(params), args[i]);
    CallsOfMore(Names(base), ToSet(params), args[i]);
    ReexpansionChanges(lib, base, args[i]);
    CallDescends(AsWritten, s, |base| + i, []);
    var more := ArgEntries(params, args)[..i];
    assert s[..|base| + i] + ArgEntries([], []) == s[..|base| + i] == base + more;
    NamesOfArgs(params, args, i);
    CallsOfMore(ToSet(params), Names(more), args[i]);
    assert ToSet(params) + Names(more) == ToSet(params);
    OnlyCalledMatters(lib, base, more, args[i]);
  }

  lemma NamesOfArgs(params: seq<string>, args: seq<Expr>, i: nat)
    requires |params| == |args| && i <= |params|
    ensures Names(ArgEntries(params, args)[..i]) <= ToSet(params)
  {
    var more := ArgEntries(params, args)[..i];
    forall k | 0 <= k < i ensures more[k].name in ToSet(params) { assert more[k].name == params[k]; }
  }

  /** Calls do not hide under a selector. */
  lemma {:induction false} SelectorsCallNothing(names: set<string>, e: Expr)
    ensures var p := RemoveParens(e);
            p.Metric? || (p.Rollup? && p.expr.Metric?) ==> !Calls(names, e)
    decreases e
  {
    match e
    case Parens(args) =>
      if |args| == 1 {
        SelectorsCallNothing(names, args[0]);
        assert RemoveParensAll(args)[0] == RemoveParens(args[0]);
      }
    case Rollup(inner, _, _, _, _) => SelectorsCallNothing(names, inner);
    case _ =>
  }

  lemma MergeDiffers(lib: Lib, names: set<string>, f: LabelFilter, x: Expr, e: Expr)
    requires Has(Expanded, x) && HasMetricGroup([f]) && Calls(names, e) && RemoveParens(x) != RemoveParens(e)
    ensures var r := MergeMetric(lib, [f], x); r.Ok? ==> RemoveParens(r.value) != RemoveParens(e)
  {
    hide WithoutRepeatedKeys, Has, Calls;
    SelectorsCallNothing(names, e);
  }

  lemma NameChanges(lib: Lib, base: seq<Entry>, params: seq<string>, args: seq<Expr>, name: string)
    requires LibraryOk(lib) && Fits(lib, base, params, args) && AreLocal(params, args) && IsPlain(name)
    requires ScopeWellFormed(base) && ScopeSettles(lib, base)
    requires Position(params, name) >= 0 && !IsInert(base, params, args[Position(params, name)])
    requires Has(WellFormed, Reference(lib, name))
    ensures var r := Expand(lib, AsWritten, base + ArgEntries(params, args), Reference(lib, name));
            r.Ok? ==> RemoveParens(r.value) != RemoveParens(args[Position(params, name)])
  {
    hide Lookup, ExpandFilters, Escape, IsByteString, ScopeWellFormed, ScopeSettles, Weight, ArgCount, Has, WithoutRepeatedKeys;
    hide Call, MergeMetric, IsSettled, IsInert, RemoveParens, AreLocal, Names, Calls;
    var s := base + ArgEntries(params, args);
    var f := LabelFilter("__name__", name, false, false);
    NameFilterExpands(lib, AsWritten, s, name);
    OneFilterStays(lib, f);
    LookupArg(base, params, args, name);
    var i := Position(params, name);
    ArgumentChanges(lib, base, params, args, i);
    var r := Call(lib, AsWritten, s, |base| + i, None);
    if r.Ok? { MergeDiffers(lib, Names(base), f, r.value, args[i]); }
  }

  /** A body that reads an argument that is not inert does not become the body
      with the arguments in place. */
  lemma {:induction false} BodyChanges(lib: Lib, base: seq<Entry>, params: seq<string>, args: seq<Expr>, e: Expr)
    requires LibraryOk(lib) && Fits(lib, base, params, args) && AreLocal(params, args)
    requires ScopeWellFormed(base) && ScopeSettles(lib, base)
    requires IsTemplate(lib, e) && Closed(lib, base, params, e) && !ReadsInert(lib, base, params, args, e)
    ensures Has(WellFormed, e)
    ensures var r := Expand(lib, AsWritten, base + ArgEntries(params, args), e);
            r.Ok? ==> RemoveParens(r.value) != RemoveParens(Subst(lib, params, args, e))
    decreases e, 2
  {
    hide NameOf, Lookup, ExpandAll, ExpandMetric, ExpandModifier, ScopeWellFormed, ScopeSettles, Weight, ArgCount, Defs, Has;
    hide JoinOperands, IsInert, AreLocal, IsPlain, Call;
    TemplateIsWellFormed(lib, e);
    var s := base + ArgEntries(params, args);
    match e
    case Metric(_, _) =>
      TemplateName(lib, e);
      NameChanges(lib, base, params, args, NameOf(lib, e).value);
    case Func(_, es) => CallBodyChanges(lib, base, params, args, e);
    case Aggr(_, es, _, _) => CallBodyChanges(lib, base, params, args, e);
    case Parens(es) => CallBodyChanges(lib, base, params, args, e);
    case Binary(info, left, right) =>
      if !ReadsInert(lib, base, params, args, left) {
        BodyChanges(lib, base, params, args, left);
      } else {
        BodyChanges(lib, base, params, args, right);
      }
      TemplateIsWellFormed(lib, left);
      TemplateIsWellFormed(lib, right);
      OperationChanges(lib, s, e, Subst(lib, params, args, left), Subst(lib, params, args, right));
    case Rollup(inner, _, _, _, _) => BodyChanges(lib, base, params, args, inner);
  }

  lemma {:induction false} CallBodyChanges(lib: Lib, base: seq<Entry>, params: seq<string>, args: seq<Expr>, e: Expr)
    requires LibraryOk(lib) && Fits(lib, base, params, args) && AreLocal(params, args)
    requires ScopeWellFormed(base) && ScopeSettles(lib, base) && Has(WellFormed, e) && (e.Func? || e.Aggr? || e.Parens?)
    requires IsTemplate(lib, e) && Closed(lib, base, params, e) && !ReadsInert(lib, base, params, args, e)
    ensures var r := Expand(lib, AsWritten, base + ArgEntries(params, args), e);
            r.Ok? ==> RemoveParens(r.value) != RemoveParens(Subst(lib, params, args, e))
    decreases e, 1
  {
    hide NameOf, Lookup, ExpandAll, ExpandModifier, ScopeWellFormed, ScopeSettles, Weight, ArgCount, Defs, Has;
    hide AreLocal, Call;
    var es := e.args;
    var i :| 0 <= i < |es| && !ReadsInert(lib, base, params, args, es[i]);
    BodiesChange(lib, base, params, args, es, i);
    if e.Func? { LookupArg(base, params, args, e.name); }
    if e.Parens? { ParensDiffer(SubstAll(lib, params, args, es)); }
  }

  lemma OperationChanges(lib: Lib, scope: seq<Entry>, e: Expr, left: Expr, right: Expr)
    requires ScopeWellFormed(scope) && e.Binary? && Has(WellFormed, e.left) && Has(WellFormed, e.right) && Has(WellFormed, e)
    requires var l, r := Expand(lib, AsWritten, scope, e.left), Expand(lib, AsWritten, scope, e.right);
             l.Ok? && r.Ok? ==> RemoveParens(l.value) != RemoveParens(left) || RemoveParens(r.value) != RemoveParens(right)
    ensures var r := Expand(lib, AsWritten, scope, e);
            r.Ok? ==> RemoveParens(r.value) != RemoveParens(Parens([Binary(e.info, left, right)]))
  {
    hide ScopeWellFormed, JoinOperands, ExpandModifier, Weight, ArgCount, Defs, Has;
    var l, r := Expand(lib, AsWritten, scope, e.left), Expand(lib, AsWritten, scope, e.right);
    var be := Binary(e.info, left, right);
    if l.Ok? && r.Ok? { JoinsDiffer(be, Reinfo(scope, e.info), l.value, r.value); }
    assert RemoveParensAll([be])[0] == RemoveParens(be);
  }

  lemma {:induction false} BodiesChange(lib: Lib, base: seq<Entry>, params: seq<string>, args: seq<Expr>, es: seq<Expr>, i: nat)
    requires LibraryOk(lib) && Fits(lib, base, params, args) && AreLocal(params, args)
    requires ScopeWellFormed(base) && ScopeSettles(lib, base)
    requires forall k | 0 <= k < |es| :: IsTemplate(lib, es[k]) && Closed(lib, base, params, es[k])
    requires i < |es| && !ReadsInert(lib, base, params, args, es[i])
    ensures HasAll(WellFormed, es)
    ensures var r := ExpandAll(lib, AsWritten, base + ArgEntries(params, args), es);
            r.Ok? ==> RemoveParensAll(r.value) != RemoveParensAll(SubstAll(lib, params, args, es))
    decreases es, 0
  {
    hide Expand, ExpandAll, IsTemplate, Closed, Subst, Has, ScopeWellFormed, ScopeSettles, Weight, ArgCount, ReadsInert, AreLocal, RemoveParens;
    forall k | 0 <= k < |es| ensures Has(WellFormed, es[k]) { TemplateIsWellFormed(lib, es[k]); }
    BodyChanges(lib, base, params, args, es[i]);
    var s := base + ArgEntries(params, args);
    ExpandAllAt(lib, s, es, i);
    var r, t := ExpandAll(lib, AsWritten, s, es), SubstAll(lib, params, args, es);
    if r.Ok? { assert RemoveParensAll(r.value)[i] != RemoveParensAll(t)[i]; }
  }

  /** A call of a definition whose body is a template is the body with the
      expanded arguments in place if and only if the arguments that the body
      reads call no name that the body can see. */
  lemma CallIsSubstitutionExactly(lib: Lib, scope: seq<Entry>, f: string, es: seq<Expr>, args: seq<Expr>)
    requires LibraryOk(lib) && ScopeWellFormed(scope) && HasAll(WellFormed, es)
    requires ExpandAll(lib, AsWritten, scope, es) == Ok(args) && AreSettled(lib, args)
    requires var i := Lookup(scope, f);
             && i >= 0 && !scope[i].isArg && |scope[i].params| == |args| && Distinct(scope[i].params)
             && IsTemplate(lib, scope[i].body) && Closed(lib, Base(AsWritten, scope, i), scope[i].params, scope[i].body)
             && ScopeSettles(lib, Base(AsWritten, scope, i)) && AreLocal(scope[i].params, args)
    ensures var i, r := Lookup(scope, f), Expand(lib, AsWritten, scope, Func(f, es));
            var x := scope[i];
            r.Ok? && RemoveParens(r.value) == RemoveParens(Subst(lib, x.params, args, x.body)) <==>
            ReadsInert(lib, Base(AsWritten, scope, i), x.params, args, x.body)
  {
    hide Lookup, ExpandAll, Subst, IsTemplate, Closed, Weight, ArgCount, Defs, ReadsInert, RemoveParens, ScopeSettles, AreLocal;
    var i := Lookup(scope, f);
    var x := scope[i];
    var base := Base(AsWritten, scope, i);
    if ReadsInert(lib, base, x.params, args, x.body) {
      CallIsSubstitution(lib, scope, f, es, args);
    } else {
      CallDescends(AsWritten, scope, i, args);
      BodyIsWellFormed(scope, i);
      BodyChanges(lib, base, x.params, args, x.body);
    }
  }
}
