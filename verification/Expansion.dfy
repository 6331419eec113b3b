/** Expansion of WITH definitions. */
module Expansion {
  import opened Text
  import opened Syntax
  import opened Library
  import opened Ident
  import opened Scan
  import opened Filters

  /** A definition or an argument that is visible during expansion. Every
      argument entry is a heap node of its own; definitions are told apart
      by their id. */
  datatype Entry = Entry(id: int, name: string, params: seq<string>, body: Expr, isArg: bool)

  /** How a reference is resolved. AsWritten: the scope is cut at the first
      entry that is the same heap node, and arguments, which are expanded
      already, are expanded again. ByValue: the body of a definition sees what
      precedes the definition, and an argument stands for itself. */
  datatype Mode = AsWritten | ByValue

  predicate ScopeWellFormed(scope: seq<Entry>) {
    forall i | 0 <= i < |scope| ::
      Has(WellFormed, scope[i].body) && (scope[i].isArg ==> scope[i].params == [] && Has(Expanded, scope[i].body))
  }

  // ----- scopes -----

  /** The last entry of that name, or -1. */
  function Lookup(scope: seq<Entry>, name: string): (i: int)
    ensures -1 <= i < |scope|
    ensures i >= 0 ==> scope[i].name == name
    ensures forall k | i < k < |scope| :: scope[k].name != name
  {
    if scope == [] then -1
    else if scope[|scope| - 1].name == name then |scope| - 1
    else Lookup(scope[..|scope| - 1], name)
  }

  /** The first entry that is the same heap node as entry `i`. */
  function FirstSame(scope: seq<Entry>, i: nat): (j: nat)
    requires i < |scope|
    ensures j <= i && (scope[i].isArg ==> j == i) && (!scope[i].isArg ==> !scope[j].isArg)
  {
    if scope[i].isArg then i else FirstWithId(scope, scope[i].id, i)
  }

  function FirstWithId(scope: seq<Entry>, id: int, i: nat): (j: nat)
    requires i < |scope| && !scope[i].isArg && scope[i].id == id
    ensures j <= i && !scope[j].isArg && scope[j].id == id
    ensures forall k | 0 <= k < j :: scope[k].isArg || scope[k].id != id
  {
    if !scope[0].isArg && scope[0].id == id then 0 else 1 + FirstWithId(scope[1..], id, i - 1)
  }

  function Base(mode: Mode, scope: seq<Entry>, i: nat): (s: seq<Entry>)
    requires i < |scope|
    ensures s <= scope[..i]
  {
    if mode == AsWritten then scope[..FirstSame(scope, i)] else scope[..i]
  }

  function ArgEntries(params: seq<string>, args: seq<Expr>): (s: seq<Entry>)
    requires |params| == |args|
    ensures |s| == |params|
  {
    seq(|params|, i requires 0 <= i < |params| => Entry(0, params[i], [], args[i], true))
  }

  function DefEntries(was: seq<WithArg>): (s: seq<Entry>)
    ensures |s| == |was|
  {
    seq(|was|, i requires 0 <= i < |was| => Entry(was[i].id, was[i].name, was[i].params, was[i].body, false))
  }

  // ----- the termination measure -----

  /** How many definitions occur in an expression. */
  function Defs(e: Expr): nat
    decreases e
  {
    match e
    case Func(_, args) => DefsAll(args)
    case Aggr(_, args, _, _) => DefsAll(args)
    case Parens(args) => DefsAll(args)
    case Binary(_, left, right) => Defs(left) + Defs(right)
    case Rollup(inner, _, _, _, _) => Defs(inner)
    case With(was, body) => DefsIn(was) + Defs(body)
    case _ => 0
  }

  function DefsAll(es: seq<Expr>): nat
    decreases es
  {
    if es == [] then 0 else Defs(es[0]) + DefsAll(es[1..])
  }

  function DefsIn(was: seq<WithArg>): nat
    decreases was
  {
    if was == [] then 0 else 1 + Defs(was[0].body) + DefsIn(was[1..])
  }

  /** Definitions in scope and nested in them; arguments weigh nothing. */
  function Weight(scope: seq<Entry>): nat {
    if scope == [] then 0
    else Weight(scope[..|scope| - 1]) + EntryWeight(scope[|scope| - 1])
  }

  function EntryWeight(x: Entry): nat { if x.isArg then 0 else 1 + Defs(x.body) }

  function ArgCount(scope: seq<Entry>): nat {
    if scope == [] then 0 else ArgCount(scope[..|scope| - 1]) + if scope[|scope| - 1].isArg then 1 else 0
  }

  lemma {:induction false} WeightOfPrefix(scope: seq<Entry>, i: nat)
    requires i < |scope|
    ensures Weight(scope[..i]) + EntryWeight(scope[i]) <= Weight(scope)
    ensures ArgCount(scope[..i]) + (if scope[i].isArg then 1 else 0) <= ArgCount(scope)
  {
    var n := |scope| - 1;
    if i < n {
      WeightOfPrefix(scope[..n], i);
      assert scope[..n][..i] == scope[..i];
    }
  }

  lemma {:induction false} WeightOfArgs(scope: seq<Entry>, more: seq<Entry>)
    requires forall i | 0 <= i < |more| :: more[i].isArg
    ensures Weight(scope + more) == Weight(scope)
  {
    if more == [] {
      assert scope + more == scope;
    } else {
      var n := |more| - 1;
      assert (scope + more)[..|scope + more| - 1] == scope + more[..n];
      WeightOfArgs(scope, more[..n]);
    }
  }

  lemma {:induction false} WeightOfDefs(scope: seq<Entry>, was: seq<WithArg>)
    ensures Weight(scope + DefEntries(was)) == Weight(scope) + DefsIn(was)
    ensures ArgCount(scope + DefEntries(was)) == ArgCount(scope)
    decreases |was|
  {
    if was == [] {
      assert scope + DefEntries(was) == scope;
    } else {
      var first := DefEntries(was)[0];
      var s1 := scope + [first];
      assert s1[..|s1| - 1] == scope;
      assert scope + DefEntries(was) == s1 + DefEntries(was[1..]);
      WeightOfDefs(s1, was[1..]);
    }
  }

  lemma {:induction false} NoDefsWhenExpanded(e: Expr)
    requires Has(Expanded, e)
    ensures Defs(e) == 0
    decreases e
  {
    match e
    case Func(_, args) => NoDefsInAny(args);
    case Aggr(_, args, _, _) => NoDefsInAny(args);
    case Parens(args) => NoDefsInAny(args);
    case Binary(_, left, right) => NoDefsWhenExpanded(left); NoDefsWhenExpanded(right);
    case Rollup(inner, _, _, _, _) => NoDefsWhenExpanded(inner);
    case _ =>
  }

  lemma {:induction false} NoDefsInAny(es: seq<Expr>)
    requires HasAll(Expanded, es)
    ensures DefsAll(es) == 0
    decreases es
  {
    if es != [] {
      NoDefsWhenExpanded(es[0]);
      NoDefsInAny(es[1..]);
    }
  }

  // ----- modifier lists -----

  /** What one name in a modifier list stands for. */
  function ModifierArg(scope: seq<Entry>, arg: string): Outcome<seq<string>> {
    var i := Lookup(scope, arg);
    if i < 0 || scope[i].params != [] then Ok([arg])
    else
      match scope[i].body
      case Metric(filters, _) => if IsOnlyMetricGroup(filters) then Ok([filters[0].value]) else Err
      case Parens(items) => MetricNames(items)
      case _ => Err
  }

  function MetricNames(items: seq<Expr>): Outcome<seq<string>> {
    if items == [] then Ok([])
    else if !items[0].Metric? || !IsOnlyMetricGroup(items[0].filters) then Err
    else
      var rest :- MetricNames(items[1..]);
      Ok([items[0].filters[0].value] + rest)
  }

  function ModifierArgs(scope: seq<Entry>, args: seq<string>): Outcome<seq<string>> {
    if args == [] then Ok([])
    else
      var first :- ModifierArg(scope, args[0]);
      var rest :- ModifierArgs(scope, args[1..]);
      Ok(first + rest)
  }

  /** expandModifierArgs */
  function ExpandModifier(scope: seq<Entry>, m: Modifier): (r: Outcome<Modifier>)
    ensures !r.Bug?
  {
    ModifierArgsNoBug(scope, m.args);
    var args :- ModifierArgs(scope, m.args);
    Ok(Modifier(m.op, FirstOccurrences(args)))
  }

  lemma MetricNamesNoBug(items: seq<Expr>)
    ensures !MetricNames(items).Bug?
  {
  }

  lemma {:induction false} ModifierArgsNoBug(scope: seq<Entry>, args: seq<string>)
    ensures !ModifierArgs(scope, args).Bug?
  {
    if args != [] {
      var i := Lookup(scope, args[0]);
      if i >= 0 && scope[i].body.Parens? { MetricNamesNoBug(scope[i].body.args); }
      ModifierArgsNoBug(scope, args[1..]);
    }
  }

  // ----- strings and filters -----

  /** Replaces every `\'` by `'` and then escapes double quotes. */
  function Requote(s: string): string {
    if s == [] then []
    else if s[0] == '\\' && |s| > 1 && s[1] == '\'' then ['\''] + Requote(s[2..])
    else if s[0] == '"' then ['\\', '"'] + Requote(s[1..])
    else [s[0]] + Requote(s[1..])
  }

  /** extractStringValue */
  function ExtractString(lib: Lib, token: string): Option<string>
    requires IsStringPrefix(token)
  {
    if token[0] != '\'' then lib.unquote(token)
    else if |token| < 2 || token[|token| - 1] != '\'' then None
    else lib.unquote("\"" + Requote(token[1..|token| - 1]) + "\"")
  }

  /** toLabelFilter, for a filter whose value is expanded to `v`. */
  function ToLabelFilter(lib: Lib, f: LabelFilterExpr, v: StringExpr): Outcome<LabelFilter> {
    if v.tokens != [] then Bug
    else
      var key := Unescape(f.key);
      var value := if key == "__name__" then Unescape(v.s) else v.s;
      if f.isRegexp && !lib.regexpCompiles(v.s) then Err
      else Ok(LabelFilter(key, value, f.isNegative, f.isRegexp))
  }

  function NewMetric(name: string): Expr { Metric([LabelFilter("__name__", name, false, false)], []) }

  /** Strings are concatenated; any other operation is put in parens. */
  function JoinOperands(info: OpInfo, left: Expr, right: Expr): (r: Expr)
    requires Has(Expanded, left) && Has(Expanded, right)
    ensures Has(Expanded, r)
  {
    if info.op == Add && left.Str? && right.Str? then Str(StringExpr(left.se.s + right.se.s, []))
    else
      var be := Binary(info, left, right);
      assert Has(Expanded, be);
      Parens([be])
  }

  // ----- expansion -----

  /** expandWithExpr */
  function Expand(lib: Lib, mode: Mode, scope: seq<Entry>, e: Expr): (r: Outcome<Expr>)
    requires ScopeWellFormed(scope) && Has(WellFormed, e)
    ensures !r.Bug?
    ensures r.Ok? ==> Has(Expanded, r.value)
    decreases Weight(scope) + Defs(e), ArgCount(scope), 2, e, 1
  {
    match e
    case Number(_) => Ok(e)
    case Str(se) =>
      var s :- ExpandString(lib, mode, scope, se);
      Ok(Str(s))
    case Metric(filters, raw) =>
      if filters != [] then Ok(e) else ExpandMetric(lib, mode, scope, raw)
    case Func(name, args) =>
      var args' :- ExpandAll(lib, mode, scope, args);
      var i := Lookup(scope, name);
      if i < 0 then Ok(Func(name, args')) else Call(lib, mode, scope, i, Some(args'))
    case Aggr(name, args, modifier, limit) =>
      var args' :- ExpandAll(lib, mode, scope, args);
      var modifier' :- ExpandModifier(scope, modifier);
      Ok(Aggr(name, args', modifier', limit))
    case Binary(info, left, right) =>
      var left' :- Expand(lib, mode, scope, left);
      var right' :- Expand(lib, mode, scope, right);
      var group :- ExpandModifier(scope, info.group);
      var join :- ExpandModifier(scope, info.join);
      Ok(JoinOperands(info.(group := group, join := join), left', right'))
    case Rollup(inner, _, _, _, _) =>
      var inner' :- Expand(lib, mode, scope, inner);
      Ok(e.(expr := inner'))
    case Parens(args) =>
      var args' :- ExpandAll(lib, mode, scope, args);
      Ok(Parens(args'))
    case With(was, body) =>
      WeightOfDefs(scope, was);
      assert HasDefs(WellFormed, was);
      Expand(lib, mode, scope + DefEntries(was), body)
  }

  /** expandWithArgs */
  function ExpandAll(lib: Lib, mode: Mode, scope: seq<Entry>, es: seq<Expr>): (r: Outcome<seq<Expr>>)
    requires ScopeWellFormed(scope) && HasAll(WellFormed, es)
    ensures !r.Bug?
    ensures r.Ok? ==> |r.value| == |es| && HasAll(Expanded, r.value)
    decreases Weight(scope) + DefsAll(es), ArgCount(scope), 2, es, 0
  {
    if es == [] then Ok([])
    else
      var first :- Expand(lib, mode, scope, es[0]);
      var rest :- ExpandAll(lib, mode, scope, es[1..]);
      Ok([first] + rest)
  }

  function ExpandString(lib: Lib, mode: Mode, scope: seq<Entry>, se: StringExpr): (r: Outcome<StringExpr>)
    requires ScopeWellFormed(scope) && StringWellFormed(se)
    ensures !r.Bug?
    ensures r.Ok? ==> r.value.tokens == []
    decreases Weight(scope), ArgCount(scope), 1, |se.tokens| + 1
  {
    if se.s != "" then Ok(se)
    else
      var s :- ExpandTokens(lib, mode, scope, se.tokens);
      Ok(StringExpr(s, []))
  }

  function ExpandTokens(lib: Lib, mode: Mode, scope: seq<Entry>, tokens: seq<string>): (r: Outcome<string>)
    requires ScopeWellFormed(scope)
    ensures !r.Bug?
    decreases Weight(scope), ArgCount(scope), 1, |tokens|
  {
    if tokens == [] then Ok("")
    else
      var first :- if IsStringPrefix(tokens[0]) then
        match ExtractString(lib, tokens[0]) { case Some(s) => Ok(s) case None => Err }
      else ExpandStringName(lib, mode, scope, tokens[0]);
      var rest :- ExpandTokens(lib, mode, scope, tokens[1..]);
      Ok(first + rest)
  }

  /** A name inside a string sum must stand for a string. */
  function ExpandStringName(lib: Lib, mode: Mode, scope: seq<Entry>, name: string): (r: Outcome<string>)
    requires ScopeWellFormed(scope)
    ensures !r.Bug?
    decreases Weight(scope), ArgCount(scope), 1, 0
  {
    var i := Lookup(scope, name);
    if i < 0 then Err
    else
      var e :- Call(lib, mode, scope, i, None);
      if !e.Str? then Err else if e.se.tokens != [] then Bug else Ok(e.se.s)
  }

  function ExpandMetric(lib: Lib, mode: Mode, scope: seq<Entry>, raw: seq<LabelFilterExpr>): (r: Outcome<Expr>)
    requires ScopeWellFormed(scope) && RawWellFormed(raw)
    ensures !r.Bug?
    ensures r.Ok? ==> Has(Expanded, r.value)
    decreases Weight(scope), ArgCount(scope), 1, RawSize(raw) + 1
  {
    var filters :- ExpandFilters(lib, mode, scope, raw);
    var own := WithoutRepeatedKeys(lib, filters);
    if !HasMetricGroup(own) then Ok(Metric(own, []))
    else
      var i := Lookup(scope, Escape(own[0].value));
      if i < 0 then Ok(Metric(own, []))
      else
        var e :- Call(lib, mode, scope, i, None);
        MergeMetric(lib, own, e)
  }

  /** The filters `own` applied to what their metric name stands for. */
  function MergeMetric(lib: Lib, own: seq<LabelFilter>, e: Expr): (r: Outcome<Expr>)
    requires HasMetricGroup(own) && Has(Expanded, e)
    ensures !r.Bug?
    ensures r.Ok? ==> Has(Expanded, r.value)
  {
    var metric := if e.Rollup? then e.expr else e;
    assert Has(Expanded, metric);
    if !metric.Metric? then if IsOnlyMetricGroup(own) then Ok(e) else Err
    else if metric.raw != [] then Bug
    else
      var merged := Metric(WithoutRepeatedKeys(lib, metric.filters + own[1..]), []);
      Ok(if e.Rollup? then e.(expr := merged) else merged)
  }

  predicate RawWellFormed(raw: seq<LabelFilterExpr>) {
    forall f <- raw :: f.value.Some? ==> StringWellFormed(f.value.value)
  }

  function ExpandFilters(lib: Lib, mode: Mode, scope: seq<Entry>, raw: seq<LabelFilterExpr>): (r: Outcome<seq<LabelFilter>>)
    requires ScopeWellFormed(scope) && RawWellFormed(raw)
    ensures !r.Bug?
    decreases Weight(scope), ArgCount(scope), 1, RawSize(raw)
  {
    if raw == [] then Ok([])
    else
      var first :- ExpandFilter(lib, mode, scope, raw[0]);
      var rest :- ExpandFilters(lib, mode, scope, raw[1..]);
      Ok(first + rest)
  }

  function RawSize(raw: seq<LabelFilterExpr>): nat {
    if raw == [] then 0 else FilterSize(raw[0]) + 1 + RawSize(raw[1..])
  }

  function FilterSize(f: LabelFilterExpr): nat { match f.value { case Some(se) => |se.tokens| + 2 case None => 1 } }

  function ExpandFilter(lib: Lib, mode: Mode, scope: seq<Entry>, f: LabelFilterExpr): (r: Outcome<seq<LabelFilter>>)
    requires ScopeWellFormed(scope) && (f.value.Some? ==> StringWellFormed(f.value.value))
    ensures !r.Bug?
    decreases Weight(scope), ArgCount(scope), 1, FilterSize(f)
  {
    match f.value
    case Some(se) =>
      var v :- ExpandString(lib, mode, scope, se);
      var lf :- ToLabelFilter(lib, f, v);
      Ok([lf])
    case None =>
      var i := Lookup(scope, f.key);
      if i < 0 then Err
      else
        var e :- Call(lib, mode, scope, i, None);
        if !e.Metric? || HasMetricGroup(e.filters) then Err else if e.raw != [] then Bug else Ok(e.filters)
  }

  /** expandWithExprExt: a reference to entry `i`, with arguments if it is
      written as a call. */
  function Call(lib: Lib, mode: Mode, scope: seq<Entry>, i: nat, args: Option<seq<Expr>>): (r: Outcome<Expr>)
    requires ScopeWellFormed(scope) && i < |scope| && (args.Some? ==> HasAll(Expanded, args.value))
    ensures !r.Bug?
    ensures r.Ok? ==> Has(Expanded, r.value)
    decreases Weight(scope), ArgCount(scope), 0
  {
    var x := scope[i];
    var given := if args.Some? then args.value else [];
    if |x.params| != |given| then if args.None? then Ok(NewMetric(x.name)) else Err
    else if mode == ByValue && x.isArg then Ok(x.body)
    else
      var base := Base(mode, scope, i);
      var inner := base + ArgEntries(x.params, given);
      CallDescends(mode, scope, i, given);
      Expand(lib, mode, inner, x.body)
  }

  lemma CallDescends(mode: Mode, scope: seq<Entry>, i: nat, given: seq<Expr>)
    requires ScopeWellFormed(scope) && i < |scope| && HasAll(Expanded, given) && |scope[i].params| == |given|
    ensures var inner := Base(mode, scope, i) + ArgEntries(scope[i].params, given);
            && ScopeWellFormed(inner)
            && (!scope[i].isArg ==> Weight(inner) + Defs(scope[i].body) < Weight(scope))
            && (scope[i].isArg ==>
                  Weight(inner) + Defs(scope[i].body) <= Weight(scope) && ArgCount(inner) < ArgCount(scope))
  {
    var base, more := Base(mode, scope, i), ArgEntries(scope[i].params, given);
    forall k | 0 <= k < |given| ensures Has(WellFormed, given[k]) { ExpandedIsWellFormed(given[k]); }
    assert base == scope[..|base|];
    WeightOfPrefix(scope, i);
    if |base| < i {
      WeightOfPrefix(scope[..i], |base|);
      assert scope[..i][..|base|] == base;
    }
    WeightOfArgs(base, more);
    if scope[i].isArg {
      assert more == [] && base + more == base == scope[..i];
      NoDefsWhenExpanded(scope[i].body);
    }
  }

  lemma ExpandSingle(lib: Lib, mode: Mode, scope: seq<Entry>, es: seq<Expr>)
    requires ScopeWellFormed(scope) && |es| == 1 && (HasAll(WellFormed, es) || Has(WellFormed, es[0]))
    ensures HasAll(WellFormed, es) && Has(WellFormed, es[0])
    ensures var r, x := ExpandAll(lib, mode, scope, es), Expand(lib, mode, scope, es[0]);
            if x.Ok? then r == Ok([x.value]) else !r.Ok?
  {
    hide Expand;
    assert es[1..] == [] && ExpandAll(lib, mode, scope, []) == Ok([]);
    var x := Expand(lib, mode, scope, es[0]);
    if x.Ok? { assert [x.value] + [] == [x.value]; }
  }
}
