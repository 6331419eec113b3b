/** Expansion as the code does it, which cuts the scope by node identity and
    expands arguments again wherever they are used, against evaluation by
    value with lexical scoping. */
module Hygiene {
  import opened Text
  import opened Syntax
  import opened Library
  import opened Filters
  import opened Ident
  import opened Scan
  import opened Expansion
  import opened Normalize

  // ----- trees up to parens around an operator -----

  /** Drops the parens around operators and keeps all others. */
  function Canon(e: Expr): Expr
    decreases e, 1
  {
    match e
    case Rollup(inner, _, _, _, _) => e.(expr := Canon(inner))
    case Binary(info, left, right) => Binary(info, Canon(left), Canon(right))
    case Aggr(name, args, modifier, limit) => Aggr(name, CanonAll(args), modifier, limit)
    case Func(name, args) => Func(name, CanonAll(args))
    case Parens(args) =>
      var args' := CanonAll(args);
      if |args'| == 1 && args'[0].Binary? then args'[0] else Parens(args')
    case _ => e
  }

  function CanonAll(es: seq<Expr>): (r: seq<Expr>)
    ensures |r| == |es| && forall i | 0 <= i < |es| :: r[i] == Canon(es[i])
    decreases es, 0
  {
    seq(|es|, i requires 0 <= i < |es| => Canon(es[i]))
  }

  lemma {:induction false} RemoveParensOfCanon(e: Expr)
    ensures RemoveParens(Canon(e)) == RemoveParens(e)
    decreases e, 1
  {
    match e
    case Rollup(inner, _, _, _, _) => RemoveParensOfCanon(inner);
    case Binary(_, left, right) => RemoveParensOfCanon(left); RemoveParensOfCanon(right);
    case Aggr(_, args, _, _) => RemoveParensOfCanonAll(args);
    case Func(_, args) => RemoveParensOfCanonAll(args);
    case Parens(args) => RemoveParensOfCanonAll(args);
    case _ =>
  }

  lemma {:induction false} RemoveParensOfCanonAll(es: seq<Expr>)
    ensures RemoveParensAll(CanonAll(es)) == RemoveParensAll(es)
    decreases es, 0
  {
    forall i | 0 <= i < |es| ensures RemoveParens(Canon(es[i])) == RemoveParens(es[i]) { RemoveParensOfCanon(es[i]); }
  }

  // ----- the static condition -----

  /** Every function called in `e` is visible, being among `names`, or is
      defined nowhere, not being among `defined`; definitions met on one path
      have distinct ids; modifier lists are empty. */
  predicate Hygienic(defined: set<string>, names: set<string>, ids: set<int>, e: Expr)
    decreases e
  {
    match e
    case Func(name, args) => (name in names || name !in defined) && HygienicAll(defined, names, ids, args)
    case Aggr(_, args, modifier, _) => modifier.args == [] && HygienicAll(defined, names, ids, args)
    case Parens(args) => HygienicAll(defined, names, ids, args)
    case Binary(info, left, right) =>
      && info.group.args == [] && info.join.args == []
      && Hygienic(defined, names, ids, left) && Hygienic(defined, names, ids, right)
    case Rollup(inner, _, _, _, _) => Hygienic(defined, names, ids, inner)
    case With(was, body) =>
      HygienicDefs(defined, names, ids, was) && Hygienic(defined, names + DefNames(was), ids + DefIds(was), body)
    case _ => true
  }

  predicate HygienicAll(defined: set<string>, names: set<string>, ids: set<int>, es: seq<Expr>)
    decreases es
  {
    forall i | 0 <= i < |es| :: Hygienic(defined, names, ids, es[i])
  }

  predicate HygienicDefs(defined: set<string>, names: set<string>, ids: set<int>, was: seq<WithArg>)
    decreases was
  {
    was == [] ||
    (&& was[0].name in defined && was[0].id !in ids && ToSet(was[0].params) <= defined
     && Hygienic(defined, names + ToSet(was[0].params), ids, was[0].body)
     && HygienicDefs(defined, names + {was[0].name}, ids + {was[0].id}, was[1..]))
  }

  function ToSet(s: seq<string>): set<string> { set x | x in s }

  function DefNames(was: seq<WithArg>): set<string> { if was == [] then {} else {was[0].name} + DefNames(was[1..]) }

  function DefIds(was: seq<WithArg>): set<int> { if was == [] then {} else {was[0].id} + DefIds(was[1..]) }

  function Names(scope: seq<Entry>): set<string> { set i | 0 <= i < |scope| :: scope[i].name }

  function Ids(scope: seq<Entry>): set<int> { set i | 0 <= i < |scope| && !scope[i].isArg :: scope[i].id }

  predicate HygienicEntry(defined: set<string>, before: seq<Entry>, x: Entry) {
    && x.name in defined && ToSet(x.params) <= defined
    && (if x.isArg then Has(Expanded, x.body) && x.params == [] && Hygienic(defined, {}, {}, x.body)
        else x.id !in Ids(before) && Hygienic(defined, Names(before) + ToSet(x.params), Ids(before), x.body))
  }

  /** Each definition in scope is hygienic where it stands. */
  predicate HygienicScope(defined: set<string>, scope: seq<Entry>) {
    forall i | 0 <= i < |scope| :: HygienicEntry(defined, scope[..i], scope[i])
  }

  lemma NamesOfAppend(a: seq<Entry>, b: seq<Entry>)
    ensures Names(a + b) == Names(a) + Names(b)
    ensures Ids(a + b) == Ids(a) + Ids(b)
  {
    var s := a + b;
    forall i | 0 <= i < |a| ensures s[i] == a[i] { }
    forall i | 0 <= i < |b| ensures s[|a| + i] == b[i] { }
    forall i | 0 <= i < |s| ensures s[i].name in Names(a) + Names(b) && (!s[i].isArg ==> s[i].id in Ids(a) + Ids(b)) {
      if i < |a| { assert s[i] == a[i]; } else { assert s[i] == b[i - |a|]; }
    }
  }

  lemma HygienicAppend(defined: set<string>, scope: seq<Entry>, x: Entry)
    requires HygienicScope(defined, scope) && HygienicEntry(defined, scope, x)
    ensures HygienicScope(defined, scope + [x])
  {
    forall i | 0 <= i < |scope + [x]| ensures HygienicEntry(defined, (scope + [x])[..i], (scope + [x])[i]) {
      assert (scope + [x])[..i] == scope[..i];
    }
  }

  lemma {:induction false} HygienicPush(defined: set<string>, scope: seq<Entry>, was: seq<WithArg>)
    requires HygienicScope(defined, scope) && HygienicDefs(defined, Names(scope), Ids(scope), was)
    ensures HygienicScope(defined, scope + DefEntries(was))
    ensures Names(scope + DefEntries(was)) == Names(scope) + DefNames(was)
    ensures Ids(scope + DefEntries(was)) == Ids(scope) + DefIds(was)
    decreases |was|
  {
    hide HygienicScope, Hygienic;
    if was == [] {
      assert scope + DefEntries(was) == scope;
    } else {
      var first := DefEntries(was)[0];
      HygienicAppend(defined, scope, first);
      NamesOfAppend(scope, [first]);
      assert Names([first]) == {first.name} by { assert [first][0] == first; }
      assert Ids([first]) == {first.id} by { assert [first][0] == first; }
      assert scope + DefEntries(was) == (scope + [first]) + DefEntries(was[1..]);
      HygienicPush(defined, scope + [first], was[1..]);
    }
  }

  lemma {:induction false} HygienicCall(defined: set<string>, scope: seq<Entry>, params: seq<string>, args: seq<Expr>)
    requires HygienicScope(defined, scope) && |params| == |args| && ToSet(params) <= defined
    requires HasAll(Expanded, args) && HygienicAll(defined, {}, {}, args)
    ensures HygienicScope(defined, scope + ArgEntries(params, args))
    ensures Names(scope + ArgEntries(params, args)) == Names(scope) + ToSet(params)
    ensures Ids(scope + ArgEntries(params, args)) == Ids(scope)
  {
    var more := ArgEntries(params, args);
    var s := scope + more;
    forall i | 0 <= i < |s| ensures HygienicEntry(defined, s[..i], s[i]) {
      if i < |scope| {
        assert s[..i] == scope[..i];
      } else {
        assert params[i - |scope|] in params;
      }
    }
    NamesOfAppend(scope, more);
    forall x | x in params ensures x in Names(more) {
      var i :| 0 <= i < |params| && params[i] == x;
      assert more[i].name == x;
    }
    assert Names(more) == ToSet(params);
    assert Ids(more) == {};
  }

  /** Cutting the scope by node identity cuts it at the definition found. */
  lemma IdentityIsPosition(defined: set<string>, scope: seq<Entry>, i: nat)
    requires HygienicScope(defined, scope) && i < |scope|
    ensures FirstSame(scope, i) == i
  {
    assert HygienicEntry(defined, scope[..i], scope[i]);
    assert forall k | 0 <= k < i :: scope[..i][k] == scope[k];
  }

  // ----- expanding an expanded tree again -----

  /** A tree that is expanded, calls nothing that is defined anywhere and has
      no modifier lists is reproduced, up to parens, in every scope. */
  lemma {:induction false} ReexpansionIsIdentity(lib: Lib, defined: set<string>, scope: seq<Entry>, e: Expr)
    requires ScopeWellFormed(scope) && Names(scope) <= defined
    requires Has(WellFormed, e) && Has(Expanded, e) && Hygienic(defined, {}, {}, e)
    ensures var r := Expand(lib, AsWritten, scope, e);
            r.Ok? && Canon(r.value) == Canon(e) && Hygienic(defined, {}, {}, r.value)
    decreases e, 1
  {
    hide ExpandAll, JoinOperands;
    match e
    case Func(name, args) =>
      ReexpansionOfAll(lib, defined, scope, args);
      assert forall k | 0 <= k < |scope| :: scope[k].name in Names(scope);
    case Aggr(_, args, _, _) => ReexpansionOfAll(lib, defined, scope, args);
    case Parens(args) => ReexpansionOfAll(lib, defined, scope, args);
    case Binary(info, left, right) =>
      ReexpansionIsIdentity(lib, defined, scope, left);
      ReexpansionIsIdentity(lib, defined, scope, right);
      ReexpandedJoin(defined, info, left, right, Expand(lib, AsWritten, scope, left).value, Expand(lib, AsWritten, scope, right).value);
    case Rollup(inner, _, _, _, _) => ReexpansionIsIdentity(lib, defined, scope, inner);
    case Str(se) => assert ExpandTokens(lib, AsWritten, scope, se.tokens) == Ok("");
    case Metric(_, raw) => assert ExpandFilters(lib, AsWritten, scope, raw) == Ok([]);
    case Number(_) =>
  }

  lemma ReexpandedJoin(defined: set<string>, info: OpInfo, left: Expr, right: Expr, l: Expr, r: Expr)
    requires Has(Expanded, Binary(info, left, right)) && Hygienic(defined, {}, {}, Binary(info, left, right))
    requires Has(Expanded, l) && Has(Expanded, r) && Canon(l) == Canon(left) && Canon(r) == Canon(right)
    requires Hygienic(defined, {}, {}, l) && Hygienic(defined, {}, {}, r)
    ensures var e := JoinOperands(info, l, r); Canon(e) == Canon(Binary(info, left, right)) && Hygienic(defined, {}, {}, e)
  {
    var be := Binary(info, l, r);
    assert Canon(be) == Canon(Binary(info, left, right));
    assert Hygienic(defined, {}, {}, be);
    assert [be][0] == be;
  }

  lemma {:induction false} ReexpansionOfAll(lib: Lib, defined: set<string>, scope: seq<Entry>, es: seq<Expr>)
    requires ScopeWellFormed(scope) && Names(scope) <= defined
    requires HasAll(WellFormed, es) && HasAll(Expanded, es) && HygienicAll(defined, {}, {}, es)
    ensures var r := ExpandAll(lib, AsWritten, scope, es);
            r.Ok? && CanonAll(r.value) == CanonAll(es) && HygienicAll(defined, {}, {}, r.value)
    decreases es, 0
  {
    if es != [] {
      ReexpansionIsIdentity(lib, defined, scope, es[0]);
      ReexpansionOfAll(lib, defined, scope, es[1..]);
    }
  }

  // ----- the two ways of expanding agree -----

  /** The same entries, arguments up to parens. */
  predicate SimilarScopes(a: seq<Entry>, b: seq<Entry>) {
    |a| == |b| && forall i | 0 <= i < |a| ::
      a[i].(body := b[i].body) == b[i] && (if a[i].isArg then Canon(a[i].body) == Canon(b[i].body) else a[i].body == b[i].body)
  }

  predicate Agree(defined: set<string>, a: Outcome<Expr>, b: Outcome<Expr>) {
    (a.Ok? <==> b.Ok?) && (a.Ok? ==> Canon(a.value) == Canon(b.value) && Hygienic(defined, {}, {}, a.value))
  }

  /** What all the lemmas below assume of the two scopes. */
  predicate Ready(defined: set<string>, a: seq<Entry>, b: seq<Entry>) {
    ScopeWellFormed(a) && ScopeWellFormed(b) && HygienicScope(defined, a) && SimilarScopes(a, b)
  }

  lemma ReadyFacts(defined: set<string>, a: seq<Entry>, b: seq<Entry>)
    requires Ready(defined, a, b)
    ensures ScopeWellFormed(a) && ScopeWellFormed(b) && HygienicScope(defined, a) && SimilarScopes(a, b)
    ensures |a| == |b|
  {
  }

  lemma LookupsAgree(a: seq<Entry>, b: seq<Entry>, name: string)
    requires SimilarScopes(a, b)
    ensures Lookup(a, name) == Lookup(b, name)
  {
  }

  lemma CanonKeepsShape(x: Expr, y: Expr)
    requires Canon(x) == Canon(y)
    ensures x.Str? || y.Str? || x.Metric? || y.Metric? ==> x == y
    ensures x.Rollup? <==> y.Rollup?
    ensures x.Rollup? ==> Canon(x.expr) == Canon(y.expr) && x.(expr := y.expr) == y
  {
  }

  lemma EmptyModifier(scope: seq<Entry>, m: Modifier)
    requires m.args == []
    ensures ExpandModifier(scope, m) == Ok(m)
  {
  }

  lemma MergesAgree(lib: Lib, defined: set<string>, own: seq<LabelFilter>, x: Expr, y: Expr)
    requires HasMetricGroup(own) && Has(Expanded, x) && Has(Expanded, y)
    requires Canon(x) == Canon(y) && Hygienic(defined, {}, {}, x)
    ensures Agree(defined, MergeMetric(lib, own, x), MergeMetric(lib, own, y))
  {
    CanonKeepsShape(x, y);
    if x.Rollup? {
      CanonKeepsShape(x.expr, y.expr);
    }
  }

  lemma JoinsAgree(defined: set<string>, info: OpInfo, l: Expr, r: Expr, l': Expr, r': Expr)
    requires Has(Expanded, l) && Has(Expanded, r) && Has(Expanded, l') && Has(Expanded, r')
    requires Canon(l) == Canon(l') && Canon(r) == Canon(r') && info.group.args == [] && info.join.args == []
    requires Hygienic(defined, {}, {}, l) && Hygienic(defined, {}, {}, r)
    ensures Canon(JoinOperands(info, l, r)) == Canon(JoinOperands(info, l', r'))
    ensures Hygienic(defined, {}, {}, JoinOperands(info, l, r))
  {
    CanonKeepsShape(l, l');
    CanonKeepsShape(r, r');
    var be := Binary(info, l, r);
    assert Hygienic(defined, {}, {}, be);
    assert Canon(be) == Canon(Binary(info, l', r'));
  }

  lemma PushReady(defined: set<string>, a: seq<Entry>, b: seq<Entry>, was: seq<WithArg>)
    requires Ready(defined, a, b) && HasDefs(WellFormed, was) && HygienicDefs(defined, Names(a), Ids(a), was)
    ensures Ready(defined, a + DefEntries(was), b + DefEntries(was))
  {
    hide Has, Hygienic, HygienicDefs, HygienicScope;
    HygienicPush(defined, a, was);
  }

  lemma {:induction false} ExpansionsAgree(lib: Lib, defined: set<string>, a: seq<Entry>, b: seq<Entry>, e: Expr)
    requires Ready(defined, a, b) && Has(WellFormed, e) && Hygienic(defined, Names(a), Ids(a), e)
    ensures Agree(defined, Expand(lib, AsWritten, a, e), Expand(lib, ByValue, b, e))
    decreases Weight(a) + Defs(e), ArgCount(a), 2, e, 1
  {
    hide ExpandAll, ExpandString, ExpandTokens, ExpandStringName, ExpandMetric, ExpandFilters, ExpandFilter, Call;
    hide ExpandModifier, Lookup, JoinOperands, Ready, ScopeWellFormed, HygienicScope, SimilarScopes;
    ReadyFacts(defined, a, b);
    match e
    case Number(_) =>
    case Str(se) => StringsAgree(lib, defined, a, b, se);
    case Metric(filters, raw) => if filters == [] { MetricsAgree(lib, defined, a, b, raw); }
    case Func(name, args) =>
      ExpansionsOfAllAgree(lib, defined, a, b, args);
      var ra, rb := ExpandAll(lib, AsWritten, a, args), ExpandAll(lib, ByValue, b, args);
      LookupsAgree(a, b, name);
      var i := Lookup(a, name);
      if ra.Ok? && i >= 0 {
        CallsAgree(lib, defined, a, b, i, Some(ra.value), Some(rb.value));
      }
    case Aggr(_, args, modifier, _) =>
      ExpansionsOfAllAgree(lib, defined, a, b, args);
      EmptyModifier(a, modifier);
      EmptyModifier(b, modifier);
    case Parens(args) => ExpansionsOfAllAgree(lib, defined, a, b, args);
    case Binary(info, left, right) =>
      ExpansionsAgree(lib, defined, a, b, left);
      ExpansionsAgree(lib, defined, a, b, right);
      EmptyModifier(a, info.group);
      EmptyModifier(a, info.join);
      EmptyModifier(b, info.group);
      EmptyModifier(b, info.join);
      var l, l' := Expand(lib, AsWritten, a, left), Expand(lib, ByValue, b, left);
      var r, r' := Expand(lib, AsWritten, a, right), Expand(lib, ByValue, b, right);
      if l.Ok? && r.Ok? { JoinsAgree(defined, info, l.value, r.value, l'.value, r'.value); }
    case Rollup(inner, _, _, _, _) => ExpansionsAgree(lib, defined, a, b, inner);
    case With(was, body) =>
      WeightOfDefs(a, was);
      WeightOfDefs(b, was);
      HygienicPush(defined, a, was);
      assert HasDefs(WellFormed, was);
      PushReady(defined, a, b, was);
      ExpansionsAgree(lib, defined, a + DefEntries(was), b + DefEntries(was), body);
  }

  lemma {:induction false} ExpansionsOfAllAgree(lib: Lib, defined: set<string>, a: seq<Entry>, b: seq<Entry>, es: seq<Expr>)
    requires Ready(defined, a, b) && HasAll(WellFormed, es) && HygienicAll(defined, Names(a), Ids(a), es)
    ensures var ra, rb := ExpandAll(lib, AsWritten, a, es), ExpandAll(lib, ByValue, b, es);
            (ra.Ok? <==> rb.Ok?) &&
            (ra.Ok? ==> CanonAll(ra.value) == CanonAll(rb.value) && HygienicAll(defined, {}, {}, ra.value))
    decreases Weight(a) + DefsAll(es), ArgCount(a), 2, es, 0
  {
    hide Expand, ExpandString, ExpandTokens, ExpandStringName, ExpandMetric, ExpandFilters, ExpandFilter, Call;
    hide Canon, Hygienic, Has, Weight, ArgCount, Defs, Ready, ScopeWellFormed;
    ReadyFacts(defined, a, b);
    if es != [] {
      ExpansionsAgree(lib, defined, a, b, es[0]);
      ExpansionsOfAllAgree(lib, defined, a, b, es[1..]);
    }
  }

  lemma {:induction false} StringsAgree(lib: Lib, defined: set<string>, a: seq<Entry>, b: seq<Entry>, se: StringExpr)
    requires Ready(defined, a, b) && StringWellFormed(se)
    ensures var ra, rb := ExpandString(lib, AsWritten, a, se), ExpandString(lib, ByValue, b, se);
            (ra.Ok? <==> rb.Ok?) && (ra.Ok? ==> ra == rb)
    decreases Weight(a), ArgCount(a), 1, |se.tokens| + 1
  {
    if se.s == "" { TokensAgree(lib, defined, a, b, se.tokens); }
  }

  lemma {:induction false} TokensAgree(lib: Lib, defined: set<string>, a: seq<Entry>, b: seq<Entry>, tokens: seq<string>)
    requires Ready(defined, a, b)
    ensures var ra, rb := ExpandTokens(lib, AsWritten, a, tokens), ExpandTokens(lib, ByValue, b, tokens);
            (ra.Ok? <==> rb.Ok?) && (ra.Ok? ==> ra == rb)
    decreases Weight(a), ArgCount(a), 1, |tokens|
  {
    hide Expand, ExpandAll, ExpandString, ExpandMetric, ExpandFilters, ExpandFilter, Call;
    hide Hygienic, Canon, Has, SimilarScopes, HygienicScope, ScopeWellFormed, Weight, ArgCount, Defs, DefsAll, DefsIn;
    if tokens != [] {
      if !IsStringPrefix(tokens[0]) {
        LookupsAgree(a, b, tokens[0]);
        var i := Lookup(a, tokens[0]);
        if i >= 0 {
          CallsAgree(lib, defined, a, b, i, None, None);
          var x, y := Call(lib, AsWritten, a, i, None), Call(lib, ByValue, b, i, None);
          if x.Ok? { CanonKeepsShape(x.value, y.value); }
        }
      }
      TokensAgree(lib, defined, a, b, tokens[1..]);
    }
  }

  lemma {:induction false} MetricsAgree(lib: Lib, defined: set<string>, a: seq<Entry>, b: seq<Entry>, raw: seq<LabelFilterExpr>)
    requires Ready(defined, a, b) && RawWellFormed(raw)
    ensures Agree(defined, ExpandMetric(lib, AsWritten, a, raw), ExpandMetric(lib, ByValue, b, raw))
    decreases Weight(a), ArgCount(a), 1, RawSize(raw) + 1
  {
    hide Expand, ExpandAll, ExpandString, ExpandTokens, ExpandStringName, ExpandFilters, ExpandFilter, Call;
    hide MergeMetric, SimilarScopes, HygienicScope, ScopeWellFormed, Weight, ArgCount, Defs, DefsAll, DefsIn;
    FiltersAgree(lib, defined, a, b, raw);
    var r := ExpandFilters(lib, AsWritten, a, raw);
    if r.Ok? {
      var own := WithoutRepeatedKeys(lib, r.value);
      if HasMetricGroup(own) {
        var name := Escape(own[0].value);
        LookupsAgree(a, b, name);
        var i := Lookup(a, name);
        if i >= 0 {
          CallsAgree(lib, defined, a, b, i, None, None);
          var x, y := Call(lib, AsWritten, a, i, None), Call(lib, ByValue, b, i, None);
          if x.Ok? { MergesAgree(lib, defined, own, x.value, y.value); }
        }
      }
    }
  }

  lemma {:induction false} FiltersAgree(lib: Lib, defined: set<string>, a: seq<Entry>, b: seq<Entry>, raw: seq<LabelFilterExpr>)
    requires Ready(defined, a, b) && RawWellFormed(raw)
    ensures var ra, rb := ExpandFilters(lib, AsWritten, a, raw), ExpandFilters(lib, ByValue, b, raw);
            (ra.Ok? <==> rb.Ok?) && (ra.Ok? ==> ra == rb)
    decreases Weight(a), ArgCount(a), 1, RawSize(raw)
  {
    hide Expand, ExpandAll, ExpandString, ExpandTokens, ExpandStringName, ExpandMetric, Call;
    hide Hygienic, Has, SimilarScopes, HygienicScope, ScopeWellFormed, Weight, ArgCount, Defs, DefsAll, DefsIn;
    if raw != [] {
      var f := raw[0];
      match f.value {
        case Some(se) => StringsAgree(lib, defined, a, b, se);
        case None =>
          LookupsAgree(a, b, f.key);
          var i := Lookup(a, f.key);
          if i >= 0 {
            CallsAgree(lib, defined, a, b, i, None, None);
            var x, y := Call(lib, AsWritten, a, i, None), Call(lib, ByValue, b, i, None);
            if x.Ok? { CanonKeepsShape(x.value, y.value); }
          }
      }
      FiltersAgree(lib, defined, a, b, raw[1..]);
    }
  }

  lemma {:induction false} CallsAgree(
      lib: Lib, defined: set<string>, a: seq<Entry>, b: seq<Entry>, i: nat,
      argsA: Option<seq<Expr>>, argsB: Option<seq<Expr>>)
    requires Ready(defined, a, b) && i < |a|
    requires argsA.Some? <==> argsB.Some?
    requires argsA.Some? ==>
      && HasAll(Expanded, argsA.value) && HasAll(Expanded, argsB.value)
      && CanonAll(argsA.value) == CanonAll(argsB.value) && HygienicAll(defined, {}, {}, argsA.value)
    ensures Agree(defined, Call(lib, AsWritten, a, i, argsA), Call(lib, ByValue, b, i, argsB))
    decreases Weight(a), ArgCount(a), 0
  {
    hide Expand, ExpandAll, ExpandString, ExpandTokens, ExpandStringName, ExpandMetric, ExpandFilters, ExpandFilter;
    hide Canon, Hygienic, Has, Weight, ArgCount, Defs, DefsAll, DefsIn;
    var x := a[i];
    var givenA, givenB := if argsA.Some? then argsA.value else [], if argsB.Some? then argsB.value else [];
    NewMetricIsHygienic(defined, x.name);
    assert |givenA| == |CanonAll(givenA)| == |CanonAll(givenB)| == |givenB|;
    if |x.params| == |givenA| {
      IdentityIsPosition(defined, a, i);
      assert HygienicEntry(defined, a[..i], x);
      forall k | 0 <= k < i ensures HygienicEntry(defined, a[..i][..k], a[..i][k]) { assert a[..i][..k] == a[..k]; }
      var innerA, innerB := a[..i] + ArgEntries(x.params, givenA), b[..i] + ArgEntries(x.params, givenB);
      CallDescends(AsWritten, a, i, givenA);
      if x.isArg {
        assert innerA == a[..i];
        NamesAreDefined(defined, a[..i]);
        ReexpansionIsIdentity(lib, defined, innerA, x.body);
      } else {
        CallDescends(ByValue, b, i, givenB);
        HygienicCall(defined, a[..i], x.params, givenA);
        ExpansionsAgree(lib, defined, innerA, innerB, x.body);
      }
    }
  }

  lemma NewMetricIsHygienic(defined: set<string>, name: string)
    ensures Hygienic(defined, {}, {}, NewMetric(name))
  {
  }

  lemma NamesAreDefined(defined: set<string>, scope: seq<Entry>)
    requires HygienicScope(defined, scope)
    ensures Names(scope) <= defined
  {
    forall i | 0 <= i < |scope| ensures scope[i].name in defined { assert HygienicEntry(defined, scope[..i], scope[i]); }
  }

  /** For a hygienic query, expansion as written succeeds when evaluation by
      value does, and without parens the results are equal. */
  lemma ExpansionIsByValue(lib: Lib, defined: set<string>, scope: seq<Entry>, e: Expr)
    requires ScopeWellFormed(scope) && HygienicScope(defined, scope)
    requires Has(WellFormed, e) && Hygienic(defined, Names(scope), Ids(scope), e)
    ensures var a, b := Expand(lib, AsWritten, scope, e), Expand(lib, ByValue, scope, e);
            (a.Ok? <==> b.Ok?) && (a.Ok? ==> RemoveParens(a.value) == RemoveParens(b.value))
  {
    ExpansionsAgree(lib, defined, scope, scope, e);
    var a, b := Expand(lib, AsWritten, scope, e), Expand(lib, ByValue, scope, e);
    if a.Ok? {
      RemoveParensOfCanon(a.value);
      RemoveParensOfCanon(b.value);
    }
  }
}
