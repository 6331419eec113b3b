/** What a call of a WITH definition means: its body with the arguments in the
    places of the parameters. */
module Substitution {
  import opened Text
  import opened Syntax
  import opened Library
  import opened Ident
  import opened Scan
  import opened Filters
  import opened Expansion
  import opened Normalize
  import opened Reading
  import H = Hygiene

  // ----- references -----

  /** A name as the parser leaves it. */
  function Reference(lib: Lib, name: string): Expr {
    Metric([], [LabelFilterExpr("__name__", Some(StringExpr("", [lib.quote(name)])), false, false)])
  }

  /** The name that `e` refers to, if it is a bare name. */
  function NameOf(lib: Lib, e: Expr): Option<string> {
    if e.Metric? && |e.raw| == 1 && e.raw[0].value.Some? && |e.raw[0].value.value.tokens| == 1 then
      var name := lib.unquote(e.raw[0].value.value.tokens[0]);
      if name.Some? && e == Reference(lib, name.value) then name else None
    else None
  }

  /** Escaping leaves the name alone. */
  predicate IsPlain(name: string) { IsByteString(name) && name != "" && Escape(name) == name }

  // ----- substitution -----

  function Position(params: seq<string>, name: string): (i: int)
    ensures -1 <= i < |params|
    ensures i >= 0 ==> params[i] == name
    ensures i < 0 ==> name !in params
  {
    if params == [] then -1
    else if params[0] == name then 0
    else
      var i := Position(params[1..], name);
      if i < 0 then -1 else i + 1
  }

  /** Bodies of numbers, bare names, calls, aggregates, rollups, parens and
      operators, with plain names and without modifier lists. */
  predicate IsTemplate(lib: Lib, e: Expr)
    decreases e
  {
    match e
    case Number(_) => true
    case Metric(_, _) => NameOf(lib, e).Some? && IsPlain(NameOf(lib, e).value)
    case Func(_, args) => forall i | 0 <= i < |args| :: IsTemplate(lib, args[i])
    case Aggr(_, args, modifier, _) => modifier.args == [] && forall i | 0 <= i < |args| :: IsTemplate(lib, args[i])
    case Parens(args) => forall i | 0 <= i < |args| :: IsTemplate(lib, args[i])
    case Binary(info, left, right) =>
      info.group.args == [] && info.join.args == [] && IsTemplate(lib, left) && IsTemplate(lib, right)
    case Rollup(inner, _, _, _, _) => IsTemplate(lib, inner)
    case _ => false
  }

  /** The body with the arguments in the places of the parameters, and parens
      around every operation. */
  function Subst(lib: Lib, params: seq<string>, args: seq<Expr>, e: Expr): Expr
    requires |params| == |args|
    decreases e, 1
  {
    match e
    case Metric(_, _) =>
      var name := NameOf(lib, e);
      if name.None? then e
      else if Position(params, name.value) >= 0 then args[Position(params, name.value)]
      else NewMetric(name.value)
    case Func(f, es) => Func(f, SubstAll(lib, params, args, es))
    case Aggr(f, es, modifier, limit) => Aggr(f, SubstAll(lib, params, args, es), modifier, limit)
    case Parens(es) => Parens(SubstAll(lib, params, args, es))
    case Binary(info, left, right) => Parens([Binary(info, Subst(lib, params, args, left), Subst(lib, params, args, right))])
    case Rollup(inner, _, _, _, _) => e.(expr := Subst(lib, params, args, inner))
    case _ => e
  }

  function SubstAll(lib: Lib, params: seq<string>, args: seq<Expr>, es: seq<Expr>): (r: seq<Expr>)
    requires |params| == |args|
    ensures |r| == |es| && forall i | 0 <= i < |es| :: r[i] == Subst(lib, params, args, es[i])
    decreases es, 0
  {
    seq(|es|, i requires 0 <= i < |es| => Subst(lib, params, args, es[i]))
  }

  /** Names of the body that are no parameters mean nothing else in scope. */
  predicate Closed(lib: Lib, scope: seq<Entry>, params: seq<string>, e: Expr)
    decreases e
  {
    match e
    case Metric(_, _) => NameOf(lib, e).Some? && (NameOf(lib, e).value in params || Lookup(scope, NameOf(lib, e).value) < 0)
    case Func(f, args) => f !in params && Lookup(scope, f) < 0 && forall i | 0 <= i < |args| :: Closed(lib, scope, params, args[i])
    case Aggr(_, args, _, _) => forall i | 0 <= i < |args| :: Closed(lib, scope, params, args[i])
    case Parens(args) => forall i | 0 <= i < |args| :: Closed(lib, scope, params, args[i])
    case Binary(_, left, right) => Closed(lib, scope, params, left) && Closed(lib, scope, params, right)
    case Rollup(inner, _, _, _, _) => Closed(lib, scope, params, inner)
    case _ => true
  }

  /** Results of expansion that stay as they are when they replace a name: no
      repeated filters, and no strings, which would be joined. */
  predicate IsSettled(lib: Lib, e: Expr) {
    var inner := if e.Rollup? then e.expr else e;
    Has(Expanded, e) && !e.Str? && (inner.Metric? ==> WithoutRepeatedKeys(lib, inner.filters) == inner.filters)
  }

  predicate AreSettled(lib: Lib, args: seq<Expr>) { forall i | 0 <= i < |args| :: IsSettled(lib, args[i]) }

  // ----- looking up -----

  lemma {:induction false} LookupArg(scope: seq<Entry>, params: seq<string>, args: seq<Expr>, name: string)
    requires |params| == |args| && Distinct(params)
    ensures var s := scope + ArgEntries(params, args);
            var i := Position(params, name);
            Lookup(s, name) == if i >= 0 then |scope| + i else Lookup(scope, name)
  {
    var s := scope + ArgEntries(params, args);
    var i, k := Position(params, name), Lookup(s, name);
    if i >= 0 {
      assert s[|scope| + i].name == name;
      assert k >= |scope| + i;
      assert s[k].name == params[k - |scope|];
    } else {
      LookupBefore(scope, ArgEntries(params, args), name);
    }
  }

  lemma {:induction false} LookupBefore(scope: seq<Entry>, more: seq<Entry>, name: string)
    requires forall k | 0 <= k < |more| :: more[k].name != name
    ensures Lookup(scope + more, name) == Lookup(scope, name)
  {
    if more == [] {
      assert scope + more == scope;
    } else {
      var n := |more| - 1;
      assert (scope + more)[..|scope + more| - 1] == scope + more[..n];
      LookupBefore(scope, more[..n], name);
    }
  }

  // ----- names -----

  lemma NameFilterExpands(lib: Lib, mode: Mode, scope: seq<Entry>, name: string)
    requires LibraryOk(lib) && ScopeWellFormed(scope) && IsPlain(name)
    ensures Has(WellFormed, Reference(lib, name))
    ensures ExpandFilters(lib, mode, scope, Reference(lib, name).raw) == Ok([LabelFilter("__name__", name, false, false)])
  {
    hide Unescape, Escape;
    var raw, t := Reference(lib, name).raw, lib.quote(name);
    assert ExtractString(lib, t) == Some(name);
    assert [t][1..] == [] && ExpandTokens(lib, mode, scope, []) == Ok("") && name + "" == name;
    assert ExpandTokens(lib, mode, scope, [t]) == Ok(name);
    EscapeRoundTrip(name);
    PlainNameUnescapes();
    var f := LabelFilter("__name__", name, false, false);
    assert ExpandFilter(lib, mode, scope, raw[0]) == Ok([f]);
    assert raw[1..] == [] && ExpandFilters(lib, mode, scope, []) == Ok([]) && [f] + [] == [f];
  }

  lemma OneFilterStays(lib: Lib, f: LabelFilter)
    ensures WithoutRepeatedKeys(lib, [f]) == [f]
  {
    assert [f][..0] == [] && WithoutRepeatedKeys(lib, []) == [];
  }

  /** A parameter stands for its argument. */
  lemma NameExpandsByValue(lib: Lib, scope: seq<Entry>, params: seq<string>, args: seq<Expr>, name: string)
    requires LibraryOk(lib) && |params| == |args| && Distinct(params) && AreSettled(lib, args) && IsPlain(name)
    requires ScopeWellFormed(scope + ArgEntries(params, args))
    requires name in params || Lookup(scope, name) < 0
    ensures Has(WellFormed, Reference(lib, name))
    ensures Expand(lib, ByValue, scope + ArgEntries(params, args), Reference(lib, name)) ==
            Ok(if Position(params, name) >= 0 then args[Position(params, name)] else NewMetric(name))
  {
    hide Lookup, ExpandFilters, Escape, IsByteString, Position, ScopeWellFormed, Weight, ArgCount, Has, WithoutRepeatedKeys;
    var s := scope + ArgEntries(params, args);
    var f := LabelFilter("__name__", name, false, false);
    NameFilterExpands(lib, ByValue, s, name);
    OneFilterStays(lib, f);
    LookupArg(scope, params, args, name);
    var i := Position(params, name);
    if i >= 0 {
      assert s[|scope| + i] == Entry(0, params[i], [], args[i], true);
      assert Call(lib, ByValue, s, |scope| + i, None) == Ok(args[i]);
      MergeKeeps(lib, f, args[i]);
      assert ExpandMetric(lib, ByValue, s, Reference(lib, name).raw) == Ok(args[i]);
    } else {
      assert Lookup(s, name) < 0;
      assert ExpandMetric(lib, ByValue, s, Reference(lib, name).raw) == Ok(NewMetric(name));
    }
  }

  lemma MergeKeeps(lib: Lib, f: LabelFilter, e: Expr)
    requires IsSettled(lib, e) && IsOnlyMetricGroup([f])
    ensures MergeMetric(lib, [f], e) == Ok(e)
  {
    hide WithoutRepeatedKeys;
    var inner := if e.Rollup? then e.expr else e;
    assert [f][1..] == [];
    if inner.Metric? {
      assert Has(Expanded, inner);
      assert inner.filters + [] == inner.filters;
    }
  }

  // ----- bodies -----

  lemma TemplateName(lib: Lib, e: Expr)
    requires LibraryOk(lib) && e.Metric? && NameOf(lib, e).Some?
    ensures e == Reference(lib, NameOf(lib, e).value)
  {
  }

  lemma {:induction false} TemplateIsWellFormed(lib: Lib, e: Expr)
    requires LibraryOk(lib) && IsTemplate(lib, e)
    ensures Has(WellFormed, e)
    decreases e
  {
    match e
    case Func(_, args) => forall i | 0 <= i < |args| ensures Has(WellFormed, args[i]) { TemplateIsWellFormed(lib, args[i]); }
    case Aggr(_, args, _, _) => forall i | 0 <= i < |args| ensures Has(WellFormed, args[i]) { TemplateIsWellFormed(lib, args[i]); }
    case Parens(args) => forall i | 0 <= i < |args| ensures Has(WellFormed, args[i]) { TemplateIsWellFormed(lib, args[i]); }
    case Binary(_, left, right) => TemplateIsWellFormed(lib, left); TemplateIsWellFormed(lib, right);
    case Rollup(inner, _, _, _, _) => TemplateIsWellFormed(lib, inner);
    case _ =>
  }

  /** What all the lemmas below assume. */
  predicate Fits(lib: Lib, scope: seq<Entry>, params: seq<string>, args: seq<Expr>) {
    |params| == |args| && Distinct(params) && AreSettled(lib, args) && ScopeWellFormed(scope + ArgEntries(params, args))
  }

  lemma {:induction false} BodyExpandsByValue(lib: Lib, scope: seq<Entry>, params: seq<string>, args: seq<Expr>, e: Expr)
    requires LibraryOk(lib) && Fits(lib, scope, params, args) && IsTemplate(lib, e) && Closed(lib, scope, params, e)
    ensures Has(WellFormed, e)
    ensures Expand(lib, ByValue, scope + ArgEntries(params, args), e) == Ok(Subst(lib, params, args, e))
    ensures !Subst(lib, params, args, e).Str?
    decreases e, 1
  {
    hide NameOf, Lookup, ExpandAll, ExpandMetric, ExpandModifier, ScopeWellFormed, Weight, ArgCount, Defs, IsPlain, Has;
    TemplateIsWellFormed(lib, e);
    var s := scope + ArgEntries(params, args);
    match e
    case Number(_) =>
    case Metric(_, _) =>
      TemplateName(lib, e);
      NameExpandsByValue(lib, scope, params, args, NameOf(lib, e).value);
    case Func(f, es) =>
      BodiesExpandByValue(lib, scope, params, args, es);
      LookupArg(scope, params, args, f);
    case Aggr(_, es, modifier, _) =>
      BodiesExpandByValue(lib, scope, params, args, es);
      H.EmptyModifier(s, modifier);
    case Parens(es) => BodiesExpandByValue(lib, scope, params, args, es);
    case Binary(info, left, right) =>
      BodyExpandsByValue(lib, scope, params, args, left);
      BodyExpandsByValue(lib, scope, params, args, right);
      H.EmptyModifier(s, info.group);
      H.EmptyModifier(s, info.join);
    case Rollup(inner, _, _, _, _) => BodyExpandsByValue(lib, scope, params, args, inner);
  }

  lemma {:induction false} BodiesExpandByValue(lib: Lib, scope: seq<Entry>, params: seq<string>, args: seq<Expr>, es: seq<Expr>)
    requires LibraryOk(lib) && Fits(lib, scope, params, args)
    requires forall i | 0 <= i < |es| :: IsTemplate(lib, es[i]) && Closed(lib, scope, params, es[i])
    ensures HasAll(WellFormed, es)
    ensures ExpandAll(lib, ByValue, scope + ArgEntries(params, args), es) == Ok(SubstAll(lib, params, args, es))
    decreases es, 0
  {
    hide Expand, IsTemplate, Closed, Subst, Has, ScopeWellFormed, Weight, ArgCount;
    forall i | 0 <= i < |es| ensures Has(WellFormed, es[i]) { TemplateIsWellFormed(lib, es[i]); }
    if es == [] {
      assert SubstAll(lib, params, args, es) == [];
    } else {
      BodyExpandsByValue(lib, scope, params, args, es[0]);
      BodiesExpandByValue(lib, scope, params, args, es[1..]);
      assert SubstAll(lib, params, args, es) == [Subst(lib, params, args, es[0])] + SubstAll(lib, params, args, es[1..]);
    }
  }

  /** Evaluated by value, a call of a definition whose body is a template is
      the body with the expanded arguments in the places of the parameters. */
  lemma CallByValueIsSubstitution(lib: Lib, scope: seq<Entry>, f: string, es: seq<Expr>, args: seq<Expr>)
    requires LibraryOk(lib) && ScopeWellFormed(scope) && HasAll(WellFormed, es)
    requires ExpandAll(lib, ByValue, scope, es) == Ok(args) && AreSettled(lib, args)
    requires var i := Lookup(scope, f);
             && i >= 0 && !scope[i].isArg && |scope[i].params| == |args| && Distinct(scope[i].params)
             && IsTemplate(lib, scope[i].body) && Closed(lib, scope[..i], scope[i].params, scope[i].body)
    ensures Expand(lib, ByValue, scope, Func(f, es)) == Ok(Subst(lib, scope[Lookup(scope, f)].params, args, scope[Lookup(scope, f)].body))
  {
    hide Lookup, ExpandAll, Subst, IsTemplate, Closed, Weight, ArgCount, Defs, Has;
    var i := Lookup(scope, f);
    CallDescends(ByValue, scope, i, args);
    BodyExpandsByValue(lib, scope[..i], scope[i].params, args, scope[i].body);
  }

  // ----- as the program expands -----

  /** The argument calls no name that is visible where the body is expanded
      and has no modifier lists. */
  predicate IsInert(scope: seq<Entry>, params: seq<string>, arg: Expr) {
    H.Hygienic(H.Names(scope) + H.ToSet(params), {}, {}, arg)
  }

  /** The arguments that the body reads are inert. */
  predicate ReadsInert(lib: Lib, scope: seq<Entry>, params: seq<string>, args: seq<Expr>, e: Expr)
    requires |params| == |args|
    decreases e
  {
    match e
    case Metric(_, _) =>
      var name := NameOf(lib, e);
      name.Some? && Position(params, name.value) >= 0 ==> IsInert(scope, params, args[Position(params, name.value)])
    case Func(_, es) => forall i | 0 <= i < |es| :: ReadsInert(lib, scope, params, args, es[i])
    case Aggr(_, es, _, _) => forall i | 0 <= i < |es| :: ReadsInert(lib, scope, params, args, es[i])
    case Parens(es) => forall i | 0 <= i < |es| :: ReadsInert(lib, scope, params, args, es[i])
    case Binary(_, left, right) => ReadsInert(lib, scope, params, args, left) && ReadsInert(lib, scope, params, args, right)
    case Rollup(inner, _, _, _, _) => ReadsInert(lib, scope, params, args, inner)
    case _ => true
  }

  lemma NamesOfPrefix(scope: seq<Entry>, params: seq<string>, args: seq<Expr>, i: nat)
    requires |params| == |args| && i <= |params|
    ensures H.Names((scope + ArgEntries(params, args))[..|scope| + i]) <= H.Names(scope) + H.ToSet(params)
  {
    var s := scope + ArgEntries(params, args);
    forall k | 0 <= k < |scope| + i ensures s[k].name in H.Names(scope) + H.ToSet(params) {
      if k < |scope| { assert s[k] == scope[k]; } else { assert s[k].name == params[k - |scope|]; }
    }
  }

  /** Reading an argument expands it again, which changes nothing but parens. */
  lemma ArgumentIsReread(lib: Lib, scope: seq<Entry>, params: seq<string>, args: seq<Expr>, i: nat)
    requires Fits(lib, scope, params, args) && i < |args| && IsInert(scope, params, args[i])
    ensures var r := Call(lib, AsWritten, scope + ArgEntries(params, args), |scope| + i, None);
            r.Ok? && H.Canon(r.value) == H.Canon(args[i])
  {
    hide H.Names, H.ToSet, H.Canon, H.Hygienic, IsSettled, ScopeWellFormed, Weight, ArgCount, Expand;
    var s := scope + ArgEntries(params, args);
    var defined := H.Names(scope) + H.ToSet(params);
    assert s[|scope| + i] == Entry(0, params[i], [], args[i], true);
    CallDescends(AsWritten, s, |scope| + i, []);
    var inner := s[..|scope| + i];
    assert Base(AsWritten, s, |scope| + i) + ArgEntries([], []) == inner;
    NamesOfPrefix(scope, params, args, i);
    assert Has(Expanded, args[i]) by { SettledIsExpanded(lib, args[i]); }
    ExpandedIsWellFormed(args[i]);
    H.ReexpansionIsIdentity(lib, defined, inner, args[i]);
  }

  lemma SettledIsExpanded(lib: Lib, e: Expr)
    requires IsSettled(lib, e)
    ensures Has(Expanded, e) && !e.Str?
  {
  }

  /** A name that stands for `x` alone is replaced by it. */
  lemma MergeKeepsShape(lib: Lib, f: LabelFilter, e: Expr, x: Expr)
    requires IsSettled(lib, e) && IsOnlyMetricGroup([f]) && Has(Expanded, x) && H.Canon(x) == H.Canon(e)
    ensures var r := MergeMetric(lib, [f], x); r.Ok? && H.Canon(r.value) == H.Canon(e)
  {
    hide WithoutRepeatedKeys;
    H.CanonKeepsShape(x, e);
    if x.Rollup? { H.CanonKeepsShape(x.expr, e.expr); }
    MergeKeeps(lib, f, e);
    var inner := if e.Rollup? then e.expr else e;
    if inner.Metric? { assert Has(Expanded, inner) && inner.filters + [] == inner.filters && [f][1..] == []; }
  }

  lemma NameExpands(lib: Lib, scope: seq<Entry>, params: seq<string>, args: seq<Expr>, name: string)
    requires LibraryOk(lib) && Fits(lib, scope, params, args) && IsPlain(name)
    requires name in params || Lookup(scope, name) < 0
    requires Position(params, name) >= 0 ==> IsInert(scope, params, args[Position(params, name)])
    ensures Has(WellFormed, Reference(lib, name))
    ensures var r := Expand(lib, AsWritten, scope + ArgEntries(params, args), Reference(lib, name));
            && r.Ok?
            && H.Canon(r.value) == H.Canon(if Position(params, name) >= 0 then args[Position(params, name)] else NewMetric(name))
  {
    hide Lookup, ExpandFilters, Escape, IsByteString, Position, ScopeWellFormed, Weight, ArgCount, Has, WithoutRepeatedKeys;
    hide Call, MergeMetric, IsSettled, IsInert, H.Canon;
    var s := scope + ArgEntries(params, args);
    var f := LabelFilter("__name__", name, false, false);
    NameFilterExpands(lib, AsWritten, s, name);
    OneFilterStays(lib, f);
    LookupArg(scope, params, args, name);
    var i := Position(params, name);
    if i >= 0 {
      ArgumentIsReread(lib, scope, params, args, i);
      MergeKeepsShape(lib, f, args[i], Call(lib, AsWritten, s, |scope| + i, None).value);
    } else {
      assert ExpandMetric(lib, AsWritten, s, Reference(lib, name).raw) == Ok(NewMetric(name));
    }
  }

  /** Expanding a body under inert arguments is substitution, up to parens
      around operators. */
  lemma {:induction false} BodyExpands(lib: Lib, scope: seq<Entry>, params: seq<string>, args: seq<Expr>, e: Expr)
    requires LibraryOk(lib) && Fits(lib, scope, params, args) && ReadsInert(lib, scope, params, args, e)
    requires IsTemplate(lib, e) && Closed(lib, scope, params, e)
    ensures Has(WellFormed, e)
    ensures var r := Expand(lib, AsWritten, scope + ArgEntries(params, args), e);
            r.Ok? && H.Canon(r.value) == H.Canon(Subst(lib, params, args, e)) && !Subst(lib, params, args, e).Str?
    decreases e, 1
  {
    hide NameOf, Lookup, ExpandAll, ExpandMetric, ExpandModifier, ScopeWellFormed, Weight, ArgCount, Defs, IsPlain, Has;
    hide JoinOperands, IsInert;
    TemplateIsWellFormed(lib, e);
    var s := scope + ArgEntries(params, args);
    match e
    case Number(_) =>
    case Metric(_, _) =>
      TemplateName(lib, e);
      NameExpands(lib, scope, params, args, NameOf(lib, e).value);
      if Position(params, NameOf(lib, e).value) >= 0 { SettledIsExpanded(lib, args[Position(params, NameOf(lib, e).value)]); }
    case Func(f, es) =>
      BodiesExpand(lib, scope, params, args, es);
      LookupArg(scope, params, args, f);
    case Aggr(_, es, modifier, _) =>
      BodiesExpand(lib, scope, params, args, es);
      H.EmptyModifier(s, modifier);
    case Parens(es) => BodiesExpand(lib, scope, params, args, es);
    case Binary(info, left, right) =>
      BodyExpands(lib, scope, params, args, left);
      BodyExpands(lib, scope, params, args, right);
      H.EmptyModifier(s, info.group);
      H.EmptyModifier(s, info.join);
      JoinIsOperation(info, Expand(lib, AsWritten, s, left).value, Expand(lib, AsWritten, s, right).value,
                      Subst(lib, params, args, left), Subst(lib, params, args, right));
    case Rollup(inner, _, _, _, _) => BodyExpands(lib, scope, params, args, inner);
  }

  lemma JoinIsOperation(info: OpInfo, l: Expr, r: Expr, l': Expr, r': Expr)
    requires Has(Expanded, l) && Has(Expanded, r) && !l'.Str?
    requires H.Canon(l) == H.Canon(l') && H.Canon(r) == H.Canon(r')
    ensures H.Canon(JoinOperands(info, l, r)) == H.Canon(Parens([Binary(info, l', r')]))
  {
    H.CanonKeepsShape(l, l');
    assert H.Canon(Binary(info, l, r)) == H.Canon(Binary(info, l', r'));
  }

  lemma {:induction false} BodiesExpand(lib: Lib, scope: seq<Entry>, params: seq<string>, args: seq<Expr>, es: seq<Expr>)
    requires LibraryOk(lib) && Fits(lib, scope, params, args)
    requires forall i | 0 <= i < |es| ::
      IsTemplate(lib, es[i]) && Closed(lib, scope, params, es[i]) && ReadsInert(lib, scope, params, args, es[i])
    ensures HasAll(WellFormed, es)
    ensures var r := ExpandAll(lib, AsWritten, scope + ArgEntries(params, args), es);
            r.Ok? && H.CanonAll(r.value) == H.CanonAll(SubstAll(lib, params, args, es))
    decreases es, 0
  {
    hide Expand, IsTemplate, Closed, Subst, Has, ScopeWellFormed, Weight, ArgCount, H.Canon, ReadsInert, AreSettled;
    forall i | 0 <= i < |es| ensures Has(WellFormed, es[i]) { TemplateIsWellFormed(lib, es[i]); }
    if es == [] {
      assert SubstAll(lib, params, args, es) == [];
    } else {
      BodyExpands(lib, scope, params, args, es[0]);
      BodiesExpand(lib, scope, params, args, es[1..]);
    }
  }

  /** A call of a definition whose body is a template is the body with the
      expanded arguments in the places of the parameters, once parens are
      removed, provided no argument that the body reads calls a name that the
      body can see. */
  lemma CallIsSubstitution(lib: Lib, scope: seq<Entry>, f: string, es: seq<Expr>, args: seq<Expr>)
    requires LibraryOk(lib) && ScopeWellFormed(scope) && HasAll(WellFormed, es)
    requires ExpandAll(lib, AsWritten, scope, es) == Ok(args) && AreSettled(lib, args)
    requires var i := Lookup(scope, f);
             && i >= 0 && !scope[i].isArg && |scope[i].params| == |args| && Distinct(scope[i].params)
             && IsTemplate(lib, scope[i].body) && Closed(lib, Base(AsWritten, scope, i), scope[i].params, scope[i].body)
             && ReadsInert(lib, Base(AsWritten, scope, i), scope[i].params, args, scope[i].body)
    ensures var x, r := scope[Lookup(scope, f)], Expand(lib, AsWritten, scope, Func(f, es));
            r.Ok? && RemoveParens(r.value) == RemoveParens(Subst(lib, x.params, args, x.body))
  {
    hide Lookup, ExpandAll, Subst, IsTemplate, Closed, Weight, ArgCount, Defs, ReadsInert, H.Canon, RemoveParens;
    var i := Lookup(scope, f);
    var x := scope[i];
    CallDescends(AsWritten, scope, i, args);
    BodyExpands(lib, Base(AsWritten, scope, i), x.params, args, x.body);
    assert Call(lib, AsWritten, scope, i, Some(args)).Ok?;
    var r := Expand(lib, AsWritten, scope, Func(f, es));
    H.RemoveParensOfCanon(r.value);
    H.RemoveParensOfCanon(Subst(lib, x.params, args, x.body));
  }

  // ----- modifier lists -----

  function NameMetrics(names: seq<string>): (es: seq<Expr>)
    ensures |es| == |names| && forall i | 0 <= i < |names| :: es[i] == NewMetric(names[i])
  {
    seq(|names|, i requires 0 <= i < |names| => NewMetric(names[i]))
  }

  lemma {:induction false} NamesOfMetrics(names: seq<string>)
    ensures MetricNames(NameMetrics(names)) == Ok(names)
  {
    if names != [] {
      NamesOfMetrics(names[1..]);
      assert NameMetrics(names)[1..] == NameMetrics(names[1..]);
      assert [names[0]] + names[1..] == names;
    }
  }

  lemma {:induction false} PlainArgsStay(scope: seq<Entry>, args: seq<string>, more: seq<string>)
    requires forall i | 0 <= i < |args| :: Lookup(scope, args[i]) < 0
    requires ModifierArgs(scope, more).Ok?
    ensures ModifierArgs(scope, args + more) == Ok(args + ModifierArgs(scope, more).value)
  {
    hide Lookup;
    if args == [] {
      assert args + more == more && args + ModifierArgs(scope, more).value == ModifierArgs(scope, more).value;
    } else {
      PlainArgsStay(scope, args[1..], more);
      assert (args + more)[1..] == args[1..] + more;
      assert [args[0]] + (args[1..] + ModifierArgs(scope, more).value) == args + ModifierArgs(scope, more).value;
    }
  }

  lemma NamesOfArgument(scope: seq<Entry>, x: string, names: seq<string>)
    requires Lookup(scope, x) >= 0 && scope[Lookup(scope, x)].params == []
    requires var body := scope[Lookup(scope, x)].body;
             body == Parens(NameMetrics(names)) || (|names| == 1 && body == NewMetric(names[0]))
    ensures ModifierArg(scope, x) == Ok(names)
  {
    hide Lookup, MetricNames;
    NamesOfMetrics(names);
    if |names| == 1 { assert names == [names[0]]; }
  }

  /** A parameter in a modifier list is replaced by the names in the argument,
      one name or several in parens, and repetitions are dropped. */
  lemma ModifierIsSubstituted(scope: seq<Entry>, op: string, before: seq<string>, x: string, after: seq<string>, names: seq<string>)
    requires Lookup(scope, x) >= 0 && scope[Lookup(scope, x)].params == []
    requires var body := scope[Lookup(scope, x)].body;
             body == Parens(NameMetrics(names)) || (|names| == 1 && body == NewMetric(names[0]))
    requires forall name <- before + after :: Lookup(scope, name) < 0
    ensures ExpandModifier(scope, Modifier(op, before + [x] + after)) == Ok(Modifier(op, FirstOccurrences(before + names + after)))
  {
    hide Lookup, FirstOccurrences, ModifierArg;
    NamesOfArgument(scope, x, names);
    assert forall i | 0 <= i < |before| :: before[i] in before + after;
    assert forall i | 0 <= i < |after| :: after[i] in before + after;
    PlainArgsStay(scope, after, []);
    assert after + [] == after;
    var rest := [x] + after;
    assert rest[1..] == after;
    assert ModifierArgs(scope, rest) == Ok(names + after);
    PlainArgsStay(scope, before, rest);
    assert before + [x] + after == before + rest;
    assert before + (names + after) == before + names + after;
  }

  /** A selector that is not expanded yet, as in every definition that was
      written with a bare name, cannot be used in a modifier list: only
      arguments can. */
  lemma DefinitionInModifierFails(scope: seq<Entry>, m: Modifier, k: nat)
    requires k < |m.args| && Lookup(scope, m.args[k]) >= 0
    requires var x := scope[Lookup(scope, m.args[k])];
             && x.params == []
             && (|| (x.body.Metric? && x.body.filters == [])
                 || (x.body.Parens? && x.body.args != [] && x.body.args[0].Metric? && x.body.args[0].filters == []))
    ensures ExpandModifier(scope, m) == Err
  {
    hide Lookup;
    FailureAt(scope, m.args, k);
  }

  lemma {:induction false} FailureAt(scope: seq<Entry>, args: seq<string>, k: nat)
    requires k < |args| && ModifierArg(scope, args[k]) == Err
    ensures ModifierArgs(scope, args) == Err
  {
    hide ModifierArg;
    ModifierArgsNoBug(scope, args);
    if k > 0 { FailureAt(scope, args[1..], k - 1); }
  }
}
