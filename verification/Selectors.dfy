/** What names stand for inside selectors and inside sums of strings. */
module Selectors {
  import opened Text
  import opened Syntax
  import opened Library
  import opened Ident
  import opened Scan
  import opened Filters
  import opened Expansion
  import opened Printer
  import opened Reading

  // ----- references without arguments -----

  predicate IsLast(scope: seq<Entry>, name: string, i: nat) {
    i < |scope| && scope[i].name == name && forall k | i < k < |scope| :: scope[k].name != name
  }

  /** Entry `i` is an argument or a definition that expands to `e`; one with
      parameters stands for a metric of its own name. */
  predicate Refers(lib: Lib, mode: Mode, scope: seq<Entry>, i: nat, e: Expr)
    requires ScopeWellFormed(scope) && i < |scope|
  {
    if scope[i].params != [] then e == NewMetric(scope[i].name)
    else if mode == ByValue && scope[i].isArg then e == scope[i].body
    else Expand(lib, mode, Base(mode, scope, i), scope[i].body) == Ok(e)
  }

  /** What a name means is decided by the last entry of that name. */
  ghost predicate StandsFor(lib: Lib, mode: Mode, scope: seq<Entry>, name: string, e: Expr)
    requires ScopeWellFormed(scope)
  {
    exists i: nat :: IsLast(scope, name, i) && Refers(lib, mode, scope, i, e)
  }

  lemma CallRefers(lib: Lib, mode: Mode, scope: seq<Entry>, i: nat, e: Expr)
    requires ScopeWellFormed(scope) && i < |scope|
    ensures Refers(lib, mode, scope, i, e) <==> Call(lib, mode, scope, i, None) == Ok(e)
  {
    hide Expand, Base;
    var base := Base(mode, scope, i);
    assert base + ArgEntries([], []) == base;
  }

  lemma CallStandsFor(lib: Lib, mode: Mode, scope: seq<Entry>, name: string, e: Expr)
    requires ScopeWellFormed(scope)
    ensures StandsFor(lib, mode, scope, name, e) <==>
            Lookup(scope, name) >= 0 && Call(lib, mode, scope, Lookup(scope, name), None) == Ok(e)
  {
    hide Refers, Call, Lookup;
    var i := Lookup(scope, name);
    if i >= 0 {
      CallRefers(lib, mode, scope, i, e);
      assert IsLast(scope, name, i);
      assert forall j: nat | IsLast(scope, name, j) :: i == j;
    }
  }

  /** A name stands for one thing at most. */
  lemma StandsForOne(lib: Lib, mode: Mode, scope: seq<Entry>, name: string, e: Expr, x: Expr)
    requires ScopeWellFormed(scope) && StandsFor(lib, mode, scope, name, e) && StandsFor(lib, mode, scope, name, x)
    ensures e == x && Has(Expanded, e)
  {
    hide StandsFor, Call;
    CallStandsFor(lib, mode, scope, name, e);
    CallStandsFor(lib, mode, scope, name, x);
  }

  // ----- filter lists -----

  /** The filters that `x` contributes to a selector. */
  predicate Gives(lib: Lib, mode: Mode, scope: seq<Entry>, raw: seq<LabelFilterExpr>, fs: seq<LabelFilter>)
    requires ScopeWellFormed(scope)
  {
    RawWellFormed(raw) && ExpandFilters(lib, mode, scope, raw) == Ok(fs)
  }

  lemma {:induction false} FiltersAppend(lib: Lib, mode: Mode, scope: seq<Entry>, a: seq<LabelFilterExpr>, b: seq<LabelFilterExpr>)
    requires ScopeWellFormed(scope) && RawWellFormed(a) && RawWellFormed(b)
    ensures RawWellFormed(a + b)
    ensures ExpandFilters(lib, mode, scope, a + b) ==
            match (ExpandFilters(lib, mode, scope, a), ExpandFilters(lib, mode, scope, b))
            case (Ok(x), Ok(y)) => Ok(x + y)
            case _ => Err
    decreases |a|
  {
    hide ExpandFilter;
    if a == [] {
      assert a + b == b;
      var y := ExpandFilters(lib, mode, scope, b);
      if y.Ok? { assert [] + y.value == y.value; }
    } else {
      FiltersAppend(lib, mode, scope, a[1..], b);
      assert (a + b)[1..] == a[1..] + b && (a + b)[0] == a[0];
      JoinFirst(ExpandFilter(lib, mode, scope, a[0]), ExpandFilters(lib, mode, scope, a[1..]), ExpandFilters(lib, mode, scope, b));
    }
  }

  lemma JoinFirst<T>(x: Outcome<seq<T>>, y: Outcome<seq<T>>, z: Outcome<seq<T>>)
    ensures x.Ok? && y.Ok? && z.Ok? ==> (x.value + y.value) + z.value == x.value + (y.value + z.value)
  {
  }

  lemma OneFilter(lib: Lib, mode: Mode, scope: seq<Entry>, f: LabelFilterExpr)
    requires ScopeWellFormed(scope) && RawWellFormed([f])
    ensures ExpandFilters(lib, mode, scope, [f]) == ExpandFilter(lib, mode, scope, f)
  {
    hide ExpandFilter;
    assert [f][1..] == [] && [f][0] == f;
    var first := ExpandFilter(lib, mode, scope, f);
    if first.Ok? { assert first.value + [] == first.value; }
  }

  /** A bare name in a selector gives exactly the filters of the list that it
      stands for; a name that stands for nothing or for anything else is an
      error. */
  lemma FilterNameIsExact(lib: Lib, mode: Mode, scope: seq<Entry>, c: LabelFilterExpr, fs: seq<LabelFilter>)
    requires ScopeWellFormed(scope) && c.value.None?
    ensures Gives(lib, mode, scope, [c], fs) <==>
            StandsFor(lib, mode, scope, c.key, Metric(fs, [])) && !HasMetricGroup(fs)
  {
    hide StandsFor, Call, HasMetricGroup;
    OneFilter(lib, mode, scope, c);
    CallStandsFor(lib, mode, scope, c.key, Metric(fs, []));
    var i := Lookup(scope, c.key);
    if i >= 0 {
      var r := Call(lib, mode, scope, i, None);
      if r.Ok? && r.value.Metric? { assert r.value == Metric(r.value.filters, []); }
    }
  }

  /** Filters of a selector may be replaced by others that give the same. */
  lemma SameFilters(
    lib: Lib, mode: Mode, scope: seq<Entry>, before: seq<LabelFilterExpr>, x: seq<LabelFilterExpr>, y: seq<LabelFilterExpr>,
    after: seq<LabelFilterExpr>, fs: seq<LabelFilter>)
    requires ScopeWellFormed(scope) && RawWellFormed(before) && RawWellFormed(after)
    requires Gives(lib, mode, scope, x, fs) && Gives(lib, mode, scope, y, fs)
    ensures RawWellFormed(before + x + after) && RawWellFormed(before + y + after)
    ensures ExpandMetric(lib, mode, scope, before + x + after) == ExpandMetric(lib, mode, scope, before + y + after)
  {
    hide ExpandFilters;
    FiltersAppend(lib, mode, scope, before, x);
    FiltersAppend(lib, mode, scope, before, y);
    FiltersAppend(lib, mode, scope, before + x, after);
    FiltersAppend(lib, mode, scope, before + y, after);
  }

  /** A name that stands for a filter list may be written out: at any position
      of a selector, the selector expands as the one with the filters there. */
  lemma FilterListIsSpliced(
    lib: Lib, scope: seq<Entry>, before: seq<LabelFilterExpr>, c: LabelFilterExpr, after: seq<LabelFilterExpr>, fs: seq<LabelFilter>)
    requires LibraryOk(lib) && ScopeWellFormed(scope) && RawWellFormed(before) && RawWellFormed(after) && c.value.None?
    requires StandsFor(lib, AsWritten, scope, c.key, Metric(fs, [])) && !HasMetricGroup(fs)
    requires forall i | 0 <= i < |fs| :: StableFilter(lib, fs[i])
    ensures RawWellFormed(before + [c] + after) && RawWellFormed(before + RawFilters(lib, fs) + after)
    ensures ExpandMetric(lib, AsWritten, scope, before + [c] + after) ==
            ExpandMetric(lib, AsWritten, scope, before + RawFilters(lib, fs) + after)
  {
    hide StandsFor, StableFilter, ExpandFilters, ExpandMetric, HasMetricGroup;
    FilterNameIsExact(lib, AsWritten, scope, c, fs);
    FiltersExpand(lib, scope, fs);
    SameFilters(lib, AsWritten, scope, before, [c], RawFilters(lib, fs), after, fs);
  }

  /** `with (c = {...}) up{c}` is `with (c = {...}) up{...}`: a definition of a
      filter list, in any scope, is spliced wherever its name stands. */
  lemma DefinedListIsSpliced(
    lib: Lib, scope: seq<Entry>, w: WithArg, before: seq<LabelFilterExpr>, c: LabelFilterExpr, after: seq<LabelFilterExpr>,
    fs: seq<LabelFilter>)
    requires LibraryOk(lib) && ScopeWellFormed(scope) && RawWellFormed(before) && RawWellFormed(after)
    requires c.value.None? && w == WithArg(w.id, c.key, [], Metric([], RawFilters(lib, fs)))
    requires forall i | 0 <= i < |scope| :: scope[i].isArg || scope[i].id != w.id
    requires !HasMetricGroup(fs) && StableMetric(lib, scope, fs)
    ensures var e, e' := With([w], Metric([], before + [c] + after)), With([w], Metric([], before + RawFilters(lib, fs) + after));
            Has(WellFormed, e) && Has(WellFormed, e') && Expand(lib, AsWritten, scope, e) == Expand(lib, AsWritten, scope, e')
  {
    hide ExpandMetric, RawFilters, StableFilter, WithoutRepeatedKeys, StandsFor, HasMetricGroup;
    MetricExpands(lib, scope, fs);
    var inner := scope + DefEntries([w]);
    assert Has(WellFormed, w.body);
    DefinitionStandsFor(lib, scope, w, Metric(fs, []));
    FilterListIsSpliced(lib, inner, before, c, after, fs);
    WithExpands(lib, scope, w, before + [c] + after);
    WithExpands(lib, scope, w, before + RawFilters(lib, fs) + after);
  }

  lemma WithExpands(lib: Lib, scope: seq<Entry>, w: WithArg, raw: seq<LabelFilterExpr>)
    requires ScopeWellFormed(scope) && Has(WellFormed, w.body) && RawWellFormed(raw)
    ensures var e := With([w], Metric([], raw));
            && Has(WellFormed, e) && ScopeWellFormed(scope + DefEntries([w]))
            && Expand(lib, AsWritten, scope, e) == ExpandMetric(lib, AsWritten, scope + DefEntries([w]), raw)
  {
    hide ExpandMetric;
    assert Has(WellFormed, Metric([], raw));
    assert HasDefs(WellFormed, [w]);
    WeightOfDefs(scope, [w]);
  }

  lemma DefinitionStandsFor(lib: Lib, scope: seq<Entry>, w: WithArg, e: Expr)
    requires ScopeWellFormed(scope) && Has(WellFormed, w.body) && w.params == []
    requires forall i | 0 <= i < |scope| :: scope[i].isArg || scope[i].id != w.id
    requires Expand(lib, AsWritten, scope, w.body) == Ok(e)
    ensures ScopeWellFormed(scope + DefEntries([w])) && StandsFor(lib, AsWritten, scope + DefEntries([w]), w.name, e)
  {
    hide Expand;
    var inner, i := scope + DefEntries([w]), |scope|;
    assert inner[i] == DefEntries([w])[0];
    var j := FirstSame(inner, i);
    assert forall k | 0 <= k < i :: inner[k] == scope[k];
    assert j == i;
    assert Base(AsWritten, inner, i) == inner[..i] == scope;
    assert IsLast(inner, w.name, i) && Refers(lib, AsWritten, inner, i, e);
  }

  /** A selector without a name that is defined holds the first occurrences of
      the filters that its parts give, in their order. */
  lemma SelectorHolds(lib: Lib, mode: Mode, scope: seq<Entry>, raw: seq<LabelFilterExpr>, fs: seq<LabelFilter>)
    requires QuotesFaithfully(lib) && ScopeWellFormed(scope) && Gives(lib, mode, scope, raw, fs) && AreByteFilters(fs)
    requires var own := FirstOccurrences(fs); HasMetricGroup(own) ==> forall x <- scope :: x.name != Escape(own[0].value)
    ensures ExpandMetric(lib, mode, scope, raw) == Ok(Metric(FirstOccurrences(fs), []))
  {
    hide ExpandFilters, FirstOccurrences, WithoutRepeatedKeys, Escape, Call;
    RepeatedKeysAreRepeatedFilters(lib, fs);
  }

  // ----- selectors by name -----

  /** The filters of a selector whose name stands for `e` are applied to `e`:
      to a selector or to the one under a rollup, whose own filters come first,
      each kept once. Everything else must be named without filters. */
  ghost predicate IsApplied(own: seq<LabelFilter>, e: Expr, r: Outcome<Expr>)
    requires own != []
  {
    match e
    case Metric(fs, _) => r == Ok(Metric(FirstOccurrences(fs + own[1..]), []))
    case Rollup(Metric(fs, _), window, offset, step, inheritStep) =>
      r == Ok(Rollup(Metric(FirstOccurrences(fs + own[1..]), []), window, offset, step, inheritStep))
    case _ => r == if |own| == 1 then Ok(e) else Err
  }

  function FiltersOf(e: Expr): seq<LabelFilter> {
    match e
    case Metric(fs, _) => fs
    case Rollup(Metric(fs, _), _, _, _, _) => fs
    case _ => []
  }

  lemma NamedSelector(lib: Lib, mode: Mode, scope: seq<Entry>, raw: seq<LabelFilterExpr>, fs: seq<LabelFilter>, e: Expr)
    requires QuotesFaithfully(lib) && ScopeWellFormed(scope) && Gives(lib, mode, scope, raw, fs)
    requires HasMetricGroup(fs) && StandsFor(lib, mode, scope, Escape(fs[0].value), e)
    requires AreByteFilters(fs) && AreByteFilters(FiltersOf(e))
    ensures FirstOccurrences(fs) != [] && IsApplied(FirstOccurrences(fs), e, ExpandMetric(lib, mode, scope, raw))
  {
    hide ExpandFilters, FirstOccurrences, WithoutRepeatedKeys, Escape, Call, StandsFor, IsApplied;
    var own := FirstOccurrences(fs);
    RepeatedKeysAreRepeatedFilters(lib, fs);
    FirstFilterStays(lib, fs);
    CallStandsFor(lib, mode, scope, Escape(fs[0].value), e);
    assert own[0] == fs[0] && HasMetricGroup(own);
    assert ExpandMetric(lib, mode, scope, raw) == MergeMetric(lib, own, e);
    ByteFiltersStay(fs);
    AppliedByMerge(lib, own, e);
  }

  lemma ByteFiltersStay(fs: seq<LabelFilter>)
    requires AreByteFilters(fs)
    ensures AreByteFilters(FirstOccurrences(fs))
  {
    hide FirstOccurrences;
    FirstOccurrencesCorrect(fs);
    forall i | 0 <= i < |FirstOccurrences(fs)| ensures IsByteFilter(FirstOccurrences(fs)[i]) {
      assert FirstOccurrences(fs)[i] in fs;
    }
  }

  lemma AppliedByMerge(lib: Lib, own: seq<LabelFilter>, e: Expr)
    requires QuotesFaithfully(lib) && HasMetricGroup(own) && Has(Expanded, e)
    requires AreByteFilters(own) && AreByteFilters(FiltersOf(e))
    ensures IsApplied(own, e, MergeMetric(lib, own, e))
  {
    hide FirstOccurrences, WithoutRepeatedKeys;
    var all := FiltersOf(e) + own[1..];
    assert AreByteFilters(all);
    RepeatedKeysAreRepeatedFilters(lib, all);
  }

  /** So the result selects by exactly the filters of both. */
  lemma BothAreHeld(own: seq<LabelFilter>, e: Expr, r: Expr)
    requires own != [] && IsApplied(own, e, Ok(r)) && (e.Metric? || (e.Rollup? && e.expr.Metric?))
    ensures forall f :: f in FiltersOf(r) <==> f in FiltersOf(e) || f in own[1..]
    ensures e.Rollup? ==> r == e.(expr := r.expr)
  {
    hide FirstOccurrences;
    FirstOccurrencesCorrect(FiltersOf(e) + own[1..]);
  }

  // ----- sums of strings -----

  lemma {:induction false} TokensAppend(lib: Lib, mode: Mode, scope: seq<Entry>, a: seq<string>, b: seq<string>)
    requires ScopeWellFormed(scope)
    ensures ExpandTokens(lib, mode, scope, a + b) ==
            match (ExpandTokens(lib, mode, scope, a), ExpandTokens(lib, mode, scope, b))
            case (Ok(x), Ok(y)) => Ok(x + y)
            case _ => Err
    decreases |a|
  {
    hide ExpandStringName, ExtractString;
    if a == [] {
      assert a + b == b;
      var y := ExpandTokens(lib, mode, scope, b);
      if y.Ok? { assert "" + y.value == y.value; }
    } else {
      TokensAppend(lib, mode, scope, a[1..], b);
      assert (a + b)[1..] == a[1..] + b && (a + b)[0] == a[0];
      JoinFirst(ExpandTokens(lib, mode, scope, [a[0]]), ExpandTokens(lib, mode, scope, a[1..]), ExpandTokens(lib, mode, scope, b));
      OneToken(lib, mode, scope, a[0]);
    }
  }

  lemma OneToken(lib: Lib, mode: Mode, scope: seq<Entry>, t: string)
    requires ScopeWellFormed(scope)
    ensures ExpandTokens(lib, mode, scope, [t]) ==
            if IsStringPrefix(t) then match ExtractString(lib, t) { case Some(s) => Ok(s) case None => Err }
            else ExpandStringName(lib, mode, scope, t)
  {
    hide ExpandStringName, ExtractString;
    assert [t][1..] == [] && ExpandTokens(lib, mode, scope, []) == Ok("");
    assert forall v: string :: v + "" == v;
  }

  /** A name in a sum of strings is the string that it stands for; anything
      else is an error. */
  lemma StringNameIsExact(lib: Lib, mode: Mode, scope: seq<Entry>, name: string, v: string)
    requires ScopeWellFormed(scope) && !IsStringPrefix(name)
    ensures ExpandTokens(lib, mode, scope, [name]) == Ok(v) <==> StandsFor(lib, mode, scope, name, Str(StringExpr(v, [])))
  {
    hide StandsFor, Call;
    CallStandsFor(lib, mode, scope, name, Str(StringExpr(v, [])));
    assert [name][1..] == [] && ExpandTokens(lib, mode, scope, []) == Ok("");
    var i := Lookup(scope, name);
    var r := ExpandStringName(lib, mode, scope, name);
    if r.Ok? { assert r.value + "" == r.value; }
    if i >= 0 {
      var e := Call(lib, mode, scope, i, None);
      if e.Ok? && e.value.Str? { assert e.value == Str(StringExpr(e.value.se.s, [])); }
    }
  }

  /** The text between the quotes of a literal: every double quote is escaped,
      and no single quote is. */
  predicate IsBody(q: string) {
    if q == [] then true
    else if q[0] == '\\' then |q| > 1 && q[1] != '\'' && IsBody(q[2..])
    else q[0] != '"' && IsBody(q[1..])
  }

  /** The same literal between single quotes. */
  function SingleQuoted(q: string): string {
    if q == [] then []
    else if q[0] == '\\' && |q| > 1 then (if q[1] == '"' then ['"'] else q[..2]) + SingleQuoted(q[2..])
    else if q[0] == '\'' then ['\\', '\''] + SingleQuoted(q[1..])
    else [q[0]] + SingleQuoted(q[1..])
  }

  lemma RequoteStep(c: char, rest: string)
    ensures c != '\\' && c != '"' ==> Requote([c] + rest) == [c] + Requote(rest)
    ensures c == '"' ==> Requote([c] + rest) == ['\\', '"'] + Requote(rest)
    ensures c == '\\' && (rest == [] || rest[0] != '\'') ==> Requote([c] + rest) == [c] + Requote(rest)
    ensures Requote(['\\', '\''] + rest) == ['\''] + Requote(rest)
  {
    assert ([c] + rest)[1..] == rest && (['\\', '\''] + rest)[2..] == rest;
  }

  lemma SingleQuotedStep(q: string)
    requires q != [] && IsBody(q)
    ensures q[0] == '\\' ==> |q| > 1 && IsBody(q[2..]) && SingleQuoted(q) == (if q[1] == '"' then ['"'] else q[..2]) + SingleQuoted(q[2..])
    ensures q[0] == '\'' ==> IsBody(q[1..]) && SingleQuoted(q) == ['\\', '\''] + SingleQuoted(q[1..])
    ensures q[0] != '\\' && q[0] != '\'' ==> IsBody(q[1..]) && SingleQuoted(q) == [q[0]] + SingleQuoted(q[1..])
    ensures SingleQuoted(q)[0] != '\''
  {
  }

  lemma EscapedUnit(c: char, rest: string)
    requires c != '\'' && c != '"' && (rest == [] || rest[0] != '\'')
    ensures Requote(['\\', c] + rest) == ['\\', c] + Requote(rest)
  {
    hide Requote;
    assert ['\\', c] + rest == ['\\'] + ([c] + rest);
    RequoteStep('\\', [c] + rest);
    RequoteStep(c, rest);
    assert ['\\'] + ([c] + Requote(rest)) == ['\\', c] + Requote(rest);
  }

  lemma NothingIsQuoted()
    ensures SingleQuoted([]) == [] && Requote([]) == []
  {
  }

  lemma {:induction false} RequoteOfSingleQuoted(q: string)
    requires IsBody(q)
    ensures Requote(SingleQuoted(q)) == q && (q != [] ==> SingleQuoted(q) != [] && SingleQuoted(q)[0] != '\'')
    decreases |q|
  {
    hide Requote, SingleQuoted, IsBody;
    if q == [] {
      NothingIsQuoted();
    } else {
      SingleQuotedStep(q);
      var n := if q[0] == '\\' then 2 else 1;
      var rest := SingleQuoted(q[n..]);
      RequoteOfSingleQuoted(q[n..]);
      NothingIsQuoted();
      RequoteStep(q[0], rest);
      if q[0] == '\\' {
        if q[1] == '"' { RequoteStep('"', rest); } else {
          assert q[..2] == ['\\', q[1]];
          assert q[1] != '\'' by { UnitIsNoQuote(q); }
          EscapedUnit(q[1], rest);
        }
        assert q == ['\\', q[1]] + q[2..];
      } else {
        assert q[0] != '"' by { UnitIsNoQuote(q); }
        assert q == [q[0]] + q[1..];
      }
    }
  }

  lemma UnitIsNoQuote(q: string)
    requires q != [] && IsBody(q)
    ensures if q[0] == '\\' then |q| > 1 && q[1] != '\'' else q[0] != '"'
  {
  }

  /** A literal between single quotes reads as the one between double
      quotes. */
  lemma SingleQuotesRead(lib: Lib, mode: Mode, scope: seq<Entry>, q: string)
    requires ScopeWellFormed(scope) && IsBody(q)
    ensures ExpandTokens(lib, mode, scope, ["'" + SingleQuoted(q) + "'"]) ==
            ExpandTokens(lib, mode, scope, ["\"" + q + "\""])
  {
    hide Requote, SingleQuoted;
    RequoteOfSingleQuoted(q);
    var t, u := "'" + SingleQuoted(q) + "'", "\"" + q + "\"";
    assert t[1..|t| - 1] == SingleQuoted(q);
    assert [t][1..] == [] == [u][1..];
    assert ExtractString(lib, t) == lib.unquote(u) == ExtractString(lib, u);
  }

  // ----- calls -----

  /** A call of what is defined needs as many arguments as there are
      parameters. */
  lemma CallNeedsArity(lib: Lib, mode: Mode, scope: seq<Entry>, f: string, args: seq<Expr>)
    requires ScopeWellFormed(scope) && HasAll(WellFormed, args) && Lookup(scope, f) >= 0
    requires |scope[Lookup(scope, f)].params| != |args|
    ensures Has(WellFormed, Func(f, args)) && Expand(lib, mode, scope, Func(f, args)) == Err
  {
    hide Lookup;
    var r := ExpandAll(lib, mode, scope, args);
    assert Has(WellFormed, Func(f, args));
    if r.Ok? { assert Call(lib, mode, scope, Lookup(scope, f), Some(r.value)) == Err; }
  }

  /** A sum of what expands to strings is their concatenation. */
  lemma StringsAreJoined(lib: Lib, mode: Mode, scope: seq<Entry>, left: Expr, right: Expr, a: string, b: string)
    requires ScopeWellFormed(scope) && Has(WellFormed, left) && Has(WellFormed, right)
    requires Expand(lib, mode, scope, left) == Ok(Str(StringExpr(a, [])))
    requires Expand(lib, mode, scope, right) == Ok(Str(StringExpr(b, [])))
    ensures var e := Binary(OpInfo(Add, false, NO_MODIFIER, NO_MODIFIER), left, right);
            Has(WellFormed, e) && Expand(lib, mode, scope, e) == Ok(Str(StringExpr(a + b, [])))
  {
    var e := Binary(OpInfo(Add, false, NO_MODIFIER, NO_MODIFIER), left, right);
    assert Has(WellFormed, e);
    assert ExpandModifier(scope, NO_MODIFIER) == Ok(NO_MODIFIER);
  }
}
