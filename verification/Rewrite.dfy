/** Queries over Graphite paths become queries over labels: the pass that
    replaces dotted metric names and the group labels `gN`, threading the last
    metric name through the tree. */
module Rewrite {
  import opened Text
  import opened Syntax
  import opened Glob
  import opened GlobMeaning
  import opened Paths
  import opened Regex

  // ----- metric filters -----

  predicate IsDotted(f: LabelFilter) { f.key == METRIC_NAME && '.' in f.value }

  /** Does the dotted name of `f` give a selector? */
  predicate IsConverted(f: LabelFilter, terminal: bool) {
    var target := Target(f.value, terminal);
    IsDotted(f) && target.Some? && target.value.0 != ""
  }

  /** The name after looking at `f`. */
  function NameAfter(f: LabelFilter, name: string, terminal: bool): string {
    if !IsDotted(f) then name
    else
      match Target(f.value, terminal)
      case None => ""
      case Some((name, _)) => name
  }

  function Replaced(f: LabelFilter, terminal: bool): LabelFilter {
    if IsConverted(f, terminal) then f.(value := Target(f.value, terminal).value.0) else f
  }

  function Added(f: LabelFilter, terminal: bool): seq<LabelFilter> {
    if IsConverted(f, terminal) then Target(f.value, terminal).value.1 else []
  }

  /** The last name, the filters in place, and the filters added behind. */
  function CovertFilters(name: string, fs: seq<LabelFilter>, terminal: bool): (r: (string, seq<LabelFilter>, seq<LabelFilter>))
    ensures |r.1| == |fs|
  {
    if fs == [] then (name, [], [])
    else
      var f := fs[|fs| - 1];
      var (before, kept, added) := CovertFilters(name, fs[..|fs| - 1], terminal);
      (NameAfter(f, before, terminal), kept + [Replaced(f, terminal)], added + Added(f, terminal))
  }

  // ----- trees -----

  /** Is `arg` the letter g and a number? */
  function GroupNumber(arg: string): Option<int> {
    if |arg| > 1 && arg[0] == 'g' then Atoi(arg[1..]) else None
  }

  function CovertGroup(name: string, arg: string): string {
    if name != "" && GroupNumber(arg).Some? then LabelName(name, GroupNumber(arg).value) else arg
  }

  function CovertGroups(name: string, args: seq<string>): seq<string> {
    seq(|args|, i requires 0 <= i < |args| => CovertGroup(name, args[i]))
  }

  function Covert(name: string, e: Expr, terminal: bool): (string, Expr)
    decreases e
  {
    match e
    case Metric(filters, raw) =>
      var (last, kept, added) := CovertFilters(name, filters, terminal);
      (last, Metric(kept + added, raw))
    case Rollup(inner, window, offset, step, inheritStep) =>
      var (last, inner') := Covert(name, inner, terminal);
      (last, Rollup(inner', window, offset, step, inheritStep))
    case Func(f, args) =>
      var (last, args') := CovertAll(name, args, terminal);
      (last, Func(f, args'))
    case Aggr(f, args, modifier, limit) =>
      var (last, args') := CovertAll(name, args, terminal);
      (last, Aggr(f, args', modifier.(args := CovertGroups(last, modifier.args)), limit))
    case Binary(info, left, right) =>
      var (middle, left') := Covert(name, left, terminal);
      var (last, right') := Covert(middle, right, terminal);
      (last, Binary(info, left', right'))
    case _ => (name, e)
  }

  function CovertAll(name: string, es: seq<Expr>, terminal: bool): (r: (string, seq<Expr>))
    ensures |r.1| == |es|
    decreases es
  {
    if es == [] then (name, [])
    else
      var (middle, before) := CovertAll(name, es[..|es| - 1], terminal);
      var (last, e) := Covert(middle, es[|es| - 1], terminal);
      (last, before + [e])
  }

  // ----- covertExpr -----

  lemma NextFilter(name: string, fs: seq<LabelFilter>, i: nat, terminal: bool)
    requires i < |fs|
    ensures var (before, kept, added) := CovertFilters(name, fs[..i], terminal);
            CovertFilters(name, fs[..i + 1], terminal) ==
            (NameAfter(fs[i], before, terminal), kept + [Replaced(fs[i], terminal)], added + Added(fs[i], terminal))
  {
    assert fs[..i + 1][..i] == fs[..i];
  }

  lemma NextArg(name: string, es: seq<Expr>, i: nat, terminal: bool)
    requires i < |es|
    ensures var (middle, before) := CovertAll(name, es[..i], terminal);
            var (last, e) := Covert(middle, es[i], terminal);
            CovertAll(name, es[..i + 1], terminal) == (last, before + [e])
  {
    hide Covert;
    assert es[..i + 1][..i] == es[..i];
  }

  method CovertMetric(name0: string, filters: seq<LabelFilter>, terminal: bool) returns (name: string, r: seq<LabelFilter>)
    ensures var (last, kept, added) := CovertFilters(name0, filters, terminal);
            name == last && r == kept + added
  {
    hide Target, CovertFilters;
    name, r := name0, filters;
    ghost var kept, added: seq<LabelFilter> := [], [];
    NoFilters(name0, filters, terminal);
    for i := 0 to |filters|
      invariant |kept| == i && r == kept + (filters[i..] + added)
      invariant CovertFilters(name0, filters[..i], terminal) == (name, kept, added)
    {
      NextFilter(name0, filters, i, terminal);
      var filter := filters[i];
      ghost var ahead := filters[i..];
      assert ahead[0] == filter && ahead[1..] == filters[i + 1..];
      if filter.key == METRIC_NAME && '.' in filter.value {
        var target := ConvertGraphiteTarget(filter.value, terminal);
        name := if target.Some? then target.value.0 else "";
        if name == "" {
          FilterWritten(kept, ahead, added, filter, []);
          kept := kept + [filter];
          continue;
        }
        r := r + target.value.1;
        filter := filter.(value := name);
        FilterWritten(kept, ahead, added, filter, target.value.1);
        added := added + target.value.1;
      } else {
        FilterWritten(kept, ahead, added, filter, []);
      }
      r := r[i := filter];
      kept := kept + [filter];
    }
    assert filters[..|filters|] == filters;
  }

  /** Putting an element where the untouched rest starts. */
  lemma Overwrite<T>(done: seq<T>, rest: seq<T>, x: T)
    requires rest != []
    ensures (done + rest)[|done| := x] == done + [x] + rest[1..]
    ensures rest[0] == x ==> done + rest == done + [x] + rest[1..]
  {
  }

  /** One turn of the loop over the filters. */
  lemma FilterWritten(kept: seq<LabelFilter>, ahead: seq<LabelFilter>, added: seq<LabelFilter>, f: LabelFilter, more: seq<LabelFilter>)
    requires ahead != []
    ensures var r := kept + (ahead + added);
            && (r + more)[|kept| := f] == kept + [f] + (ahead[1..] + (added + more))
            && (ahead[0] == f ==> r == kept + [f] + (ahead[1..] + added))
            && r + [] == r && added + [] == added
  {
    Overwrite(kept, ahead + (added + more), f);
    Overwrite(kept, ahead + added, f);
    assert kept + (ahead + added) + more == kept + (ahead + (added + more));
    assert (ahead + (added + more))[1..] == ahead[1..] + (added + more);
    assert (ahead + added)[1..] == ahead[1..] + added;
  }

  lemma NoFilters(name: string, fs: seq<LabelFilter>, terminal: bool)
    ensures CovertFilters(name, fs[..0], terminal) == (name, [], [])
  {
  }

  method CovertExpr(name0: string, e: Expr, terminal: bool) returns (name: string, r: Expr)
    ensures (name, r) == Covert(name0, e, terminal)
    decreases e
  {
    hide CovertFilters, CovertGroup;
    name, r := name0, e;
    match e {
      case Metric(filters, raw) =>
        var filters';
        name, filters' := CovertMetric(name0, filters, terminal);
        r := Metric(filters', raw);
      case Rollup(inner, _, _, _, _) =>
        var inner';
        name, inner' := CovertExpr(name0, inner, terminal);
        r := r.(expr := inner');
      case Func(f, args0) =>
        var args;
        name, args := CovertArgs(name0, args0, terminal);
        r := Func(f, args);
      case Aggr(f, args0, modifier, limit) =>
        var args;
        name, args := CovertArgs(name0, args0, terminal);
        var groups := modifier.args;
        for i := 0 to |groups|
          invariant |groups| == |modifier.args|
          invariant groups[..i] == CovertGroups(name, modifier.args)[..i] && groups[i..] == modifier.args[i..]
        {
          groups := CovertGroupAt(name, groups, i);
        }
        assert groups == groups[..|groups|] && CovertGroups(name, modifier.args)[..|groups|] == CovertGroups(name, modifier.args);
        r := Aggr(f, args, modifier.(args := groups), limit);
      case Binary(info, left, right) =>
        var left', right';
        name, left' := CovertExpr(name0, left, terminal);
        name, right' := CovertExpr(name, right, terminal);
        r := Binary(info, left', right');
      case _ =>
    }
  }

  method CovertGroupAt(name: string, groups: seq<string>, i: nat) returns (r: seq<string>)
    requires i < |groups|
    ensures r == groups[i := CovertGroup(name, groups[i])]
  {
    r := groups;
    var arg := groups[i];
    if |arg| > 1 && arg[0] == 'g' && |name| > 0 {
      var gi := Atoi(arg[1..]);
      if gi.Some? {
        r := groups[i := LabelName(name, gi.value)];
      }
    }
  }

  method CovertArgs(name0: string, args0: seq<Expr>, terminal: bool) returns (name: string, args: seq<Expr>)
    ensures (name, args) == CovertAll(name0, args0, terminal)
    decreases args0
  {
    hide Covert, CovertAll;
    name, args := name0, args0;
    ghost var done: seq<Expr> := [];
    NoArgs(name0, args0, terminal);
    for i := 0 to |args0|
      invariant |done| == i && args == done + args0[i..]
      invariant CovertAll(name0, args0[..i], terminal) == (name, done)
    {
      NextArg(name0, args0, i, terminal);
      var arg;
      name, arg := CovertExpr(name, args0[i], terminal);
      Overwrite(done, args0[i..], arg);
      args := args[i := arg];
      done := done + [arg];
    }
    assert args0[..|args0|] == args0 && done + [] == done;
  }

  lemma NoArgs(name: string, es: seq<Expr>, terminal: bool)
    ensures CovertAll(name, es[..0], terminal) == (name, [])
  {
  }

  // ----- a second pass changes nothing -----

  /** No dotted name is left that could be converted. */
  predicate FiltersDone(fs: seq<LabelFilter>, terminal: bool) { forall f <- fs :: !IsConverted(f, terminal) }

  predicate Done(e: Expr, terminal: bool)
    decreases e
  {
    match e
    case Metric(filters, _) => FiltersDone(filters, terminal)
    case Rollup(inner, _, _, _, _) => Done(inner, terminal)
    case Func(_, args) => AllDone(args, terminal)
    case Aggr(_, args, _, _) => AllDone(args, terminal)
    case Binary(_, left, right) => Done(left, terminal) && Done(right, terminal)
    case _ => true
  }

  predicate AllDone(es: seq<Expr>, terminal: bool)
    decreases es
  {
    forall i | 0 <= i < |es| :: Done(es[i], terminal)
  }

  lemma UnderscoredHasNoDot(s: string)
    requires '.' !in s
    ensures '.' !in Underscored(s)
  {
  }

  /** A name has no dot, and no added filter is for the name. */
  lemma {:induction false} NodeFiltersAreNumbered(name: string, nodes: seq<string>, i: nat)
    requires i <= |nodes| && NodeFilters(name, nodes, i).Some?
    ensures forall f <- NodeFilters(name, nodes, i).value :: f.key != METRIC_NAME
    decreases |nodes| - i
  {
    hide LabelName;
    if i < |nodes| {
      LabelsDiffer(name, i, i);
      NodeFiltersAreNumbered(name, nodes, i + 1);
    }
  }

  lemma TargetIsDone(query: string, terminal: bool)
    requires Target(query, terminal).Some?
    ensures '.' !in Target(query, terminal).value.0
    ensures forall f <- Target(query, terminal).value.1 :: f.key != METRIC_NAME
  {
    hide LabelName, Underscored, NodeFilters;
    var nodes := Split(query, '.');
    var name := Underscored(nodes[0]);
    assert nodes[0] in nodes;
    UnderscoredHasNoDot(nodes[0]);
    NodeFiltersAreNumbered(name, nodes, 1);
    LabelsDiffer(name, |nodes|, 0);
  }

  lemma {:induction false} CovertFiltersDone(name: string, fs: seq<LabelFilter>, terminal: bool)
    ensures var (_, kept, added) := CovertFilters(name, fs, terminal);
            FiltersDone(kept, terminal) && FiltersDone(added, terminal)
  {
    hide Target;
    if fs != [] {
      var f := fs[|fs| - 1];
      CovertFiltersDone(name, fs[..|fs| - 1], terminal);
      if IsConverted(f, terminal) { TargetIsDone(f.value, terminal); }
      assert !IsConverted(Replaced(f, terminal), terminal);
      assert FiltersDone(Added(f, terminal), terminal);
    }
  }

  lemma {:induction false} CovertIsDone(name: string, e: Expr, terminal: bool)
    ensures Done(Covert(name, e, terminal).1, terminal)
    decreases e
  {
    match e
    case Metric(filters, _) => CovertFiltersDone(name, filters, terminal);
    case Rollup(inner, _, _, _, _) => CovertIsDone(name, inner, terminal);
    case Func(_, args) => CovertAllDone(name, args, terminal);
    case Aggr(_, args, _, _) => CovertAllDone(name, args, terminal);
    case Binary(_, left, right) =>
      CovertIsDone(name, left, terminal);
      CovertIsDone(Covert(name, left, terminal).0, right, terminal);
    case _ =>
  }

  lemma {:induction false} CovertAllDone(name: string, es: seq<Expr>, terminal: bool)
    ensures AllDone(CovertAll(name, es, terminal).1, terminal)
    decreases es
  {
    hide Covert, Done;
    if es != [] {
      CovertAllDone(name, es[..|es| - 1], terminal);
      CovertIsDone(CovertAll(name, es[..|es| - 1], terminal).0, es[|es| - 1], terminal);
    }
  }

  lemma {:induction false} DoneFiltersAreKept(fs: seq<LabelFilter>, terminal: bool)
    requires FiltersDone(fs, terminal)
    ensures CovertFilters("", fs, terminal) == ("", fs, [])
  {
    hide Target;
    if fs != [] {
      var f := fs[|fs| - 1];
      DoneFiltersAreKept(fs[..|fs| - 1], terminal);
      assert f in fs && !IsConverted(f, terminal);
      var none: seq<LabelFilter> := [];
      assert none + none == none;
      assert NameAfter(f, "", terminal) == "" && Added(f, terminal) == [] && Replaced(f, terminal) == f;
      assert fs == fs[..|fs| - 1] + [fs[|fs| - 1]];
    }
  }

  lemma {:induction false} DoneIsKept(e: Expr, terminal: bool)
    requires Done(e, terminal)
    ensures Covert("", e, terminal) == ("", e)
    decreases e
  {
    match e
    case Metric(filters, _) =>
      DoneFiltersAreKept(filters, terminal);
      assert filters + [] == filters;
    case Rollup(inner, _, _, _, _) => DoneIsKept(inner, terminal);
    case Func(_, args) => AllDoneIsKept(args, terminal);
    case Aggr(_, args, modifier, _) =>
      AllDoneIsKept(args, terminal);
      assert CovertGroups("", modifier.args) == modifier.args;
    case Binary(_, left, right) =>
      DoneIsKept(left, terminal);
      DoneIsKept(right, terminal);
    case _ =>
  }

  lemma {:induction false} AllDoneIsKept(es: seq<Expr>, terminal: bool)
    requires AllDone(es, terminal)
    ensures CovertAll("", es, terminal) == ("", es)
    decreases es
  {
    hide Covert, Done;
    if es != [] {
      AllDoneIsKept(es[..|es| - 1], terminal);
      DoneIsKept(es[|es| - 1], terminal);
      assert es == es[..|es| - 1] + [es[|es| - 1]];
    }
  }

  /** Rewriting a rewritten query changes nothing. */
  lemma CovertIsIdempotent(name: string, e: Expr, terminal: bool)
    ensures var r := Covert(name, e, terminal).1;
            Covert("", r, terminal) == ("", r)
  {
    CovertIsDone(name, e, terminal);
    DoneIsKept(Covert(name, e, terminal).1, terminal);
  }

  // ----- nothing else changes -----

  /** `f'` differs from `f` at most by the value of a dotted name. */
  predicate SameFilter(f: LabelFilter, f': LabelFilter) { f' == f || (IsDotted(f) && f' == f.(value := f'.value)) }

  predicate SameFilters(fs: seq<LabelFilter>, fs': seq<LabelFilter>) {
    && |fs| <= |fs'| && (forall i | 0 <= i < |fs| :: SameFilter(fs[i], fs'[i]))
    && ((forall f <- fs :: !IsDotted(f)) ==> fs' == fs)
  }

  predicate SameGroups(args: seq<string>, args': seq<string>) {
    |args'| == |args| && forall i | 0 <= i < |args| :: args'[i] == args[i] || GroupNumber(args[i]).Some?
  }

  /** The trees agree but for metric filters and group labels of aggregates. */
  predicate SameButLabels(e: Expr, e': Expr)
    decreases e
  {
    match e
    case Metric(filters, raw) => e'.Metric? && e'.raw == raw && SameFilters(filters, e'.filters)
    case Rollup(inner, _, _, _, _) => e'.Rollup? && e' == e.(expr := e'.expr) && SameButLabels(inner, e'.expr)
    case Func(f, args) => e'.Func? && e'.name == f && AllSameButLabels(args, e'.args)
    case Aggr(f, args, modifier, limit) =>
      && e'.Aggr? && e'.name == f && e'.limit == limit && AllSameButLabels(args, e'.args)
      && e'.modifier.op == modifier.op && SameGroups(modifier.args, e'.modifier.args)
    case Binary(info, left, right) =>
      e'.Binary? && e'.info == info && SameButLabels(left, e'.left) && SameButLabels(right, e'.right)
    case _ => e' == e
  }

  predicate AllSameButLabels(es: seq<Expr>, es': seq<Expr>)
    decreases es
  {
    |es| == |es'| && forall i | 0 <= i < |es| :: SameButLabels(es[i], es'[i])
  }

  lemma {:induction false} KeptAt(name: string, fs: seq<LabelFilter>, i: nat, terminal: bool)
    requires i < |fs|
    ensures CovertFilters(name, fs, terminal).1[i] == Replaced(fs[i], terminal)
  {
    hide Replaced, Added, NameAfter;
    if i < |fs| - 1 {
      KeptAt(name, fs[..|fs| - 1], i, terminal);
      assert fs[..|fs| - 1][i] == fs[i];
    }
  }

  lemma {:induction false} UndottedAreKept(name: string, fs: seq<LabelFilter>, terminal: bool)
    requires forall f <- fs :: !IsDotted(f)
    ensures CovertFilters(name, fs, terminal).1 == fs && CovertFilters(name, fs, terminal).2 == []
  {
    hide Target, IsDotted;
    if fs != [] {
      var init, f := fs[..|fs| - 1], fs[|fs| - 1];
      UndottedAreKept(name, init, terminal);
      assert f in fs && fs == init + [f];
    }
  }

  lemma CovertFiltersFrame(name: string, fs: seq<LabelFilter>, terminal: bool)
    ensures var (_, kept, added) := CovertFilters(name, fs, terminal);
            SameFilters(fs, kept + added)
  {
    hide CovertFilters, Target, IsDotted;
    var (_, kept, added) := CovertFilters(name, fs, terminal);
    forall i | 0 <= i < |fs| ensures SameFilter(fs[i], (kept + added)[i]) { KeptAt(name, fs, i, terminal); }
    if forall f <- fs :: !IsDotted(f) {
      UndottedAreKept(name, fs, terminal);
      assert fs + [] == fs;
    }
  }

  /** Only dotted metric names, the filters added for them, and group labels
      change. */
  lemma {:induction false} CovertFrame(name: string, e: Expr, terminal: bool)
    ensures SameButLabels(e, Covert(name, e, terminal).1)
    decreases e
  {
    match e
    case Metric(filters, _) => CovertFiltersFrame(name, filters, terminal);
    case Rollup(inner, _, _, _, _) => CovertFrame(name, inner, terminal);
    case Func(_, args) => CovertAllFrame(name, args, terminal);
    case Aggr(_, args, modifier, _) =>
      CovertAllFrame(name, args, terminal);
      assert SameGroups(modifier.args, CovertGroups(CovertAll(name, args, terminal).0, modifier.args));
    case Binary(_, left, right) =>
      CovertFrame(name, left, terminal);
      CovertFrame(Covert(name, left, terminal).0, right, terminal);
    case _ =>
  }

  lemma {:induction false} CovertAllFrame(name: string, es: seq<Expr>, terminal: bool)
    ensures AllSameButLabels(es, CovertAll(name, es, terminal).1)
    decreases es
  {
    hide Covert, SameButLabels;
    if es != [] {
      CovertAllFrame(name, es[..|es| - 1], terminal);
      CovertFrame(CovertAll(name, es[..|es| - 1], terminal).0, es[|es| - 1], terminal);
      var init := CovertAll(name, es[..|es| - 1], terminal).1;
      assert forall i | 0 <= i < |es| - 1 :: es[i] == es[..|es| - 1][i];
    }
  }

  // ----- the rewritten selector -----

  predicate AllHold(engine: Engine, fs: seq<LabelFilter>, labels: map<string, string>) {
    forall f <- fs :: FilterHolds(engine, f, labels)
  }

  /** What a filter becomes holds, flags and all. */
  predicate RewrittenHolds(engine: Engine, f: LabelFilter, terminal: bool, labels: map<string, string>) {
    FilterHolds(engine, Replaced(f, terminal), labels) && AllHold(engine, Added(f, terminal), labels)
  }

  lemma AllHoldIn(engine: Engine, a: seq<LabelFilter>, b: seq<LabelFilter>, labels: map<string, string>)
    ensures AllHold(engine, a + b, labels) <==> AllHold(engine, a, labels) && AllHold(engine, b, labels)
  {
    hide FilterHolds;
    assert forall f :: f in a + b <==> f in a || f in b;
  }

  lemma NoneHold(engine: Engine, labels: map<string, string>)
    ensures AllHold(engine, [], labels)
  {
  }

  lemma OneHolds(engine: Engine, f: LabelFilter, labels: map<string, string>)
    ensures AllHold(engine, [f], labels) <==> FilterHolds(engine, f, labels)
  {
    hide FilterHolds;
    assert forall g :: g in [f] <==> g == f;
  }

  /** A rewritten metric selects what all of its filters become. */
  lemma {:induction false} RewrittenSelects(engine: Engine, name: string, fs: seq<LabelFilter>, terminal: bool, labels: map<string, string>)
    ensures var (_, kept, added) := CovertFilters(name, fs, terminal);
            && Covert(name, Metric(fs, []), terminal).1 == Metric(kept + added, [])
            && (AllHold(engine, kept + added, labels) <==> forall f <- fs :: RewrittenHolds(engine, f, terminal, labels))
  {
    hide FilterHolds, Replaced, Added, NameAfter, AllHold;
    var (_, kept, added) := CovertFilters(name, fs, terminal);
    AllHoldIn(engine, kept, added, labels);
    if fs != [] {
      var init, f := fs[..|fs| - 1], fs[|fs| - 1];
      RewrittenSelects(engine, name, init, terminal, labels);
      var (_, kept0, added0) := CovertFilters(name, init, terminal);
      AllHoldIn(engine, kept0, added0, labels);
      AllHoldIn(engine, kept0, [Replaced(f, terminal)], labels);
      AllHoldIn(engine, added0, Added(f, terminal), labels);
      assert fs == init + [f];
      assert forall g :: g in fs <==> g in init || g == f;
      OneHolds(engine, Replaced(f, terminal), labels);
      assert kept == kept0 + [Replaced(f, terminal)] && added == added0 + Added(f, terminal);
      assert AllHold(engine, kept + added, labels) <==>
             AllHold(engine, kept0 + added0, labels) && RewrittenHolds(engine, f, terminal, labels);
    } else {
      assert kept + added == [];
      NoneHold(engine, labels);
    }
  }

  /** What a dotted name is meant to select: the paths of its query, or, when
      it is negated, all others. */
  predicate IntendedHolds(engine: Engine, f: LabelFilter, terminal: bool, labels: map<string, string>)
    requires IsConverted(f, terminal)
  {
    var (name, filters) := Target(f.value, terminal).value;
    Selects(engine, name, filters, labels) != f.isNegative
  }

  /** On a series the rewritten filter holds as intended if and only if, for a
      negated name, the filters of the query hold there, and, for a regular
      expression, the name matches as a text where they hold. */
  lemma RewrittenIsIntended(engine: Engine, f: LabelFilter, terminal: bool, labels: map<string, string>)
    requires IsConverted(f, terminal)
    ensures var (name, filters) := Target(f.value, terminal).value;
            var stored := Read(labels, METRIC_NAME);
            var inPlace := AllHold(engine, filters, labels);
            (RewrittenHolds(engine, f, terminal, labels) <==> IntendedHolds(engine, f, terminal, labels)) <==>
            (f.isNegative ==> inPlace) && (f.isRegexp && inPlace ==> (engine(name, stored) <==> stored == name))
  {
    hide Target, Read;
  }

  /** A plain dotted name always selects as intended. */
  lemma PlainNameSelects(engine: Engine, f: LabelFilter, terminal: bool, labels: map<string, string>)
    requires IsConverted(f, terminal) && !f.isNegative && !f.isRegexp
    ensures var (name, filters) := Target(f.value, terminal).value;
            RewrittenHolds(engine, f, terminal, labels) <==> Selects(engine, name, filters, labels)
  {
    hide Target, Read, RewrittenHolds;
    RewrittenIsIntended(engine, f, terminal, labels);
  }

  // ----- negated names over all stored paths -----

  /** A path as it is stored: nodes without dots, none empty but the first. */
  predicate IsStored(path: seq<string>) {
    path != [] && (forall k | 0 <= k < |path| :: '.' !in path[k]) && forall k | 1 <= k < |path| :: path[k] != ""
  }

  predicate ValueHolds(engine: Engine, f: LabelFilter, value: string) {
    (if f.isRegexp then engine(f.value, value) else value == f.value) != f.isNegative
  }

  /** The filter holds for every node and for a missing one. */
  ghost predicate AlwaysHolds(engine: Engine, f: LabelFilter) {
    forall value | '.' !in value :: ValueHolds(engine, f, value)
  }

  /** Every filter of a query is for a numbered label of its name. */
  lemma {:induction false} NodeFilterIsNumbered(name: string, nodes: seq<string>, i: nat, f: LabelFilter) returns (k: nat)
    requires 1 <= i <= |nodes| && NodeFilters(name, nodes, i).Some? && f in NodeFilters(name, nodes, i).value
    ensures k >= 1 && f.key == LabelName(name, k)
    decreases |nodes| - i
  {
    hide LabelName;
    if nodes[i] != "*" && f == NodeFilters(name, nodes, i).value[0] {
      k := i;
    } else {
      k := NodeFilterIsNumbered(name, nodes, i + 1, f);
    }
  }

  lemma TargetIsNumbered(query: string, terminal: bool, f: LabelFilter) returns (k: nat)
    requires Target(query, terminal).Some? && f in Target(query, terminal).value.1
    ensures k >= 1 && f.key == LabelName(Target(query, terminal).value.0, k)
  {
    hide LabelName, NodeFilters, Split;
    var nodes := Split(query, '.');
    var name := Underscored(nodes[0]);
    if f in NodeFilters(name, nodes, 1).value {
      k := NodeFilterIsNumbered(name, nodes, 1, f);
    } else {
      k := |nodes|;
    }
  }

  lemma TargetNameIsPlain(query: string, terminal: bool)
    requires Target(query, terminal).Some?
    ensures var name := Target(query, terminal).value.0; '.' !in name && Underscored(name) == name
  {
    hide NodeFilters, Split;
    TargetIsDone(query, terminal);
  }

  /** The path with `value` as its node `k`, or ending before it. */
  function PathWith(name: string, k: nat, value: string): (path: seq<string>)
    requires k >= 1
    ensures |path| == if value == "" then k else k + 1
    ensures path[0] == name && NodeAt(path, k) == value
  {
    var front := [name] + seq(k - 1, _ => "x");
    if value == "" then front else front + [value]
  }

  lemma PathWithIsStored(name: string, k: nat, value: string)
    requires k >= 1 && '.' !in name && '.' !in value
    ensures IsStored(PathWith(name, k, value))
  {
  }

  /** A filter of the query reads the value of one node. */
  lemma FilterReadsNode(engine: Engine, f: LabelFilter, path: seq<string>, k: nat)
    requires path != [] && k >= 1 && f.key == LabelName(Underscored(path[0]), k)
    ensures FilterHolds(engine, f, LabelsOf(path)) <==> ValueHolds(engine, f, NodeAt(path, k))
  {
    hide LabelName, LabelsOf, Read;
    LabelsHold(path, k);
  }

  lemma LabelNamesTell(a: string, k: nat, b: string, j: nat)
    requires LabelName(a, k) == LabelName(b, j)
    ensures a == b
  {
    var s := LabelName(a, k);
    if |Digits(k)| == |Digits(j)| {
      assert s[2..2 + |a|] == a && LabelName(b, j)[2..2 + |b|] == b;
    } else {
      GBeforeDigits(a, k);
      GBeforeDigits(b, j);
    }
  }

  /** The digits of a label follow a letter. */
  lemma GBeforeDigits(a: string, k: nat)
    ensures var s, n := LabelName(a, k), |Digits(k)|;
            |s| == |a| + n + 6 && s[|s| - 3 - n] == 'g' && forall q | |s| - 2 - n <= q < |s| - 2 :: IsDecimalChar(s[q])
  {
    var s, n := LabelName(a, k), |Digits(k)|;
    forall q | |s| - 2 - n <= q < |s| - 2 ensures IsDecimalChar(s[q]) { assert s[q] == Digits(k)[q - (|s| - 2 - n)]; }
  }

  lemma {:induction false} LabelsAreOfName(name: string, nodes: seq<string>, i: nat, key: string) returns (k: nat)
    requires i <= |nodes| && key in NodeLabels(name, nodes, i)
    ensures key == LabelName(name, k)
    decreases |nodes| - i
  {
    hide LabelName;
    if key == LabelName(name, i) { k := i; } else { k := LabelsAreOfName(name, nodes, i + 1, key); }
  }

  /** The labels of another name are missing. */
  lemma OtherLabelsAreMissing(name: string, k: nat, path: seq<string>)
    requires path != [] && name != Underscored(path[0])
    ensures Read(LabelsOf(path), LabelName(name, k)) == ""
  {
    hide LabelName, NodeLabels;
    var key := LabelName(name, k);
    LabelsDiffer(name, k, k);
    if key in NodeLabels(Underscored(path[0]), path, 1) {
      var j := LabelsAreOfName(Underscored(path[0]), path, 1, key);
      LabelNamesTell(name, k, Underscored(path[0]), j);
    }
  }

  lemma FilterReadsNothing(engine: Engine, f: LabelFilter, name: string, path: seq<string>, k: nat)
    requires path != [] && name != Underscored(path[0]) && f.key == LabelName(name, k)
    ensures FilterHolds(engine, f, LabelsOf(path)) <==> ValueHolds(engine, f, "")
  {
    hide LabelName, LabelsOf, Read;
    OtherLabelsAreMissing(name, k, path);
  }

  /** Where all filters of a query always hold, they hold for every path. */
  lemma AlwaysHold(engine: Engine, query: string, terminal: bool, path: seq<string>)
    requires Target(query, terminal).Some? && IsStored(path)
    requires forall g <- Target(query, terminal).value.1 :: AlwaysHolds(engine, g)
    ensures AllHold(engine, Target(query, terminal).value.1, LabelsOf(path))
  {
    hide LabelName, LabelsOf, Target, FilterHolds, ValueHolds;
    var (name, filters) := Target(query, terminal).value;
    forall g | g in filters ensures FilterHolds(engine, g, LabelsOf(path)) {
      var k := TargetIsNumbered(query, terminal, g);
      if name == Underscored(path[0]) {
        FilterReadsNode(engine, g, path, k);
        assert '.' !in NodeAt(path, k);
      } else {
        FilterReadsNothing(engine, g, name, path, k);
      }
    }
  }

  /** The name, taken for a regular expression, matches itself and no other
      stored name, wherever the filters of the query hold. */
  ghost predicate NameIsText(engine: Engine, name: string, filters: seq<LabelFilter>) {
    forall path | IsStored(path) && AllHold(engine, filters, LabelsOf(path)) ::
      engine(name, Underscored(path[0])) <==> Underscored(path[0]) == name
  }

  /** A rewritten dotted name selects as intended from all stored paths if and
      only if, when it is negated, every filter of its query holds for all
      nodes and missing ones, and, when it is a regular expression, it matches
      as a text. */
  lemma RewritingIsExact(engine: Engine, f: LabelFilter, terminal: bool)
    requires IsConverted(f, terminal)
    ensures var (name, filters) := Target(f.value, terminal).value;
            (forall path | IsStored(path) ::
               RewrittenHolds(engine, f, terminal, LabelsOf(path)) <==> IntendedHolds(engine, f, terminal, LabelsOf(path))) <==>
            && (f.isNegative ==> forall g <- filters :: AlwaysHolds(engine, g))
            && (f.isRegexp ==> NameIsText(engine, name, filters))
  {
    hide Target, LabelsOf, RewrittenHolds, IntendedHolds, AlwaysHolds, AllHold;
    var (name, filters) := Target(f.value, terminal).value;
    forall path | IsStored(path)
      ensures (RewrittenHolds(engine, f, terminal, LabelsOf(path)) <==> IntendedHolds(engine, f, terminal, LabelsOf(path))) <==>
              && (f.isNegative ==> AllHold(engine, filters, LabelsOf(path)))
              && (f.isRegexp && AllHold(engine, filters, LabelsOf(path)) ==>
                    (engine(name, Underscored(path[0])) <==> Underscored(path[0]) == name))
    {
      RewrittenIsIntended(engine, f, terminal, LabelsOf(path));
      LabelsHold(path, 1);
    }
    if forall g <- filters :: AlwaysHolds(engine, g) {
      forall path | IsStored(path) ensures AllHold(engine, filters, LabelsOf(path)) { AlwaysHold(engine, f.value, terminal, path); }
    }
    if forall path | IsStored(path) :: AllHold(engine, filters, LabelsOf(path)) {
      forall g | g in filters ensures AlwaysHolds(engine, g) { HoldsForAll(engine, f.value, terminal, g); }
    }
  }

  /** A filter that holds for all stored paths holds for all nodes. */
  lemma HoldsForAll(engine: Engine, query: string, terminal: bool, g: LabelFilter)
    requires Target(query, terminal).Some? && g in Target(query, terminal).value.1
    requires forall path | IsStored(path) :: AllHold(engine, Target(query, terminal).value.1, LabelsOf(path))
    ensures AlwaysHolds(engine, g)
  {
    hide Target, LabelsOf, LabelName, FilterHolds, ValueHolds, IsStored, PathWith;
    var (name, filters) := Target(query, terminal).value;
    var k := TargetIsNumbered(query, terminal, g);
    TargetNameIsPlain(query, terminal);
    forall value | '.' !in value ensures ValueHolds(engine, g, value) {
      var path := PathWith(name, k, value);
      PathWithIsStored(name, k, value);
      assert path != [] && path[0] == name && NodeAt(path, k) == value;
      FilterReadsNode(engine, g, path, k);
      assert AllHold(engine, filters, LabelsOf(path));
    }
  }

  /** A filter for a text does not always hold, so only queries of patterns,
      without an end, keep the meaning of a negation. */
  lemma TextsDoNotAlwaysHold(engine: Engine, f: LabelFilter)
    requires !f.isRegexp && !f.isNegative
    ensures !AlwaysHolds(engine, f)
  {
    var other := if f.value == "x" then "y" else "x";
    assert '.' !in other && !ValueHolds(engine, f, other);
  }

  /** A negated dotted name picks no stored path at all if a filter of its
      query does not hold for a missing label. */
  lemma NegatedPicksNothing(engine: Engine, f: LabelFilter, terminal: bool, g: LabelFilter, path: seq<string>)
    requires IsConverted(f, terminal) && f.isNegative && !f.isRegexp && path != []
    requires g in Target(f.value, terminal).value.1 && !ValueHolds(engine, g, "")
    ensures !RewrittenHolds(engine, f, terminal, LabelsOf(path))
  {
    hide Target, LabelsOf, LabelName, ValueHolds;
    var (name, filters) := Target(f.value, terminal).value;
    LabelsHold(path, 1);
    if name != Underscored(path[0]) {
      var k := TargetIsNumbered(f.value, terminal, g);
      FilterReadsNothing(engine, g, name, path, k);
    }
  }

  // ----- names as regular expressions -----

  /** Characters that a pattern takes for themselves. */
  predicate IsText(name: string) { forall c <- name :: IsLiteralChar(c) && !IsQuotedLiteral(c) }

  function CharsOf(name: string): (g: seq<Piece>)
    ensures |g| == |name| && forall i | 0 <= i < |g| :: g[i] == Char(name[i])
  {
    seq(|name|, i requires 0 <= i < |name| => Char(name[i]))
  }

  lemma TextIsLiteral(name: string)
    requires IsText(name)
    ensures var g := CharsOf(name); Simple(g) && AllPlain(g) && NoBackslash(g)
  {
    var g := CharsOf(name);
    forall p | p in g ensures SimplePiece(p) && IsPlain(p) && !HasBackslash(p) {
      var i :| 0 <= i < |g| && g[i] == p;
      assert name[i] in name;
    }
  }

  lemma {:induction false} LiteralOfText(name: string)
    requires IsText(name) && AllPlain(CharsOf(name))
    ensures Literal(CharsOf(name)) == name
  {
    if name != [] {
      var g := CharsOf(name);
      assert g[1..] == CharsOf(name[1..]);
      assert IsText(name[1..]) by { assert forall c <- name[1..] :: c in name; }
      assert AllPlain(g[1..]) by { assert forall p <- g[1..] :: p in g; }
      LiteralOfText(name[1..]);
    }
  }

  /** As a regular expression, a text without special characters matches
      itself only. */
  lemma TextMatchesItself(engine: Engine, name: string, s: string)
    requires IsRe2(engine) && IsText(name)
    ensures engine(name, s) <==> s == name
  {
    hide Simple, AllPlain, NoBackslash, GlobMatches, Emit, IsRe2, IsText, Translate, Flat;
    var g := CharsOf(name);
    TextIsLiteral(name);
    LiteralOfText(name);
    LiteralPattern(g);
    PatternMeansGlob(engine, g, s);
    LiteralIsMatched(g, s);
  }

  lemma TextNameIsText(engine: Engine, name: string, filters: seq<LabelFilter>)
    requires IsRe2(engine) && IsText(name)
    ensures NameIsText(engine, name, filters)
  {
    hide IsRe2, IsText, AllHold, LabelsOf;
    forall path | IsStored(path) && AllHold(engine, filters, LabelsOf(path))
      ensures engine(name, Underscored(path[0])) <==> Underscored(path[0]) == name
    {
      TextMatchesItself(engine, name, Underscored(path[0]));
    }
  }

  // ----- two queries that change their meaning -----

  predicate IsWord(w: string) { w != "" && forall c <- w :: 'a' <= c <= 'z' }

  lemma {:induction false} WordRuns(st: State, w: string)
    requires !st.escaping && forall c <- w :: 'a' <= c <= 'z'
    ensures Run(st, w) == Some(Write(st, w, false))
    decreases |w|
  {
    if w != [] {
      assert w[0] in w && forall c <- w[1..] :: c in w;
      WordRuns(Write(st, [w[0]], false), w[1..]);
      assert st.out + [w[0]] + w[1..] == st.out + w;
    } else {
      assert st.out + w == st.out;
    }
  }

  lemma WordTranslates(w: string)
    requires IsWord(w)
    ensures Translate(w) == Some((w, false)) && w != "*" && '.' !in w && '-' !in w
  {
    hide Run;
    WordRuns(START, w);
    assert START.out + w == w;
    assert w[0] in w;
  }

  lemma {:induction false} IndexOfAt(s: string, i: nat, c: char)
    requires i < |s| && s[i] == c && forall k | 0 <= k < i :: s[k] != c
    ensures IndexOf(s, c) == i
  {
    if i > 0 { IndexOfAt(s[1..], i - 1, c); }
  }

  lemma {:induction false} IndexOfMissing(s: string, c: char)
    requires c !in s
    ensures IndexOf(s, c) < 0
  {
    if s != [] {
      assert s[0] in s && forall x <- s[1..] :: x in s;
      IndexOfMissing(s[1..], c);
    }
  }

  lemma SplitOfTwo(a: string, b: string)
    requires '.' !in a && '.' !in b
    ensures Split(a + "." + b, '.') == [a, b]
  {
    var s, i := a + "." + b, |a|;
    forall k | 0 <= k < i ensures s[k] != '.' { assert s[k] == a[k] && a[k] in a; }
    IndexOfAt(s, i, '.');
    assert s[..i] == a && s[i + 1..] == b;
    IndexOfMissing(b, '.');
  }

  /** The selector of a path of two words, and of a word and a star. */
  lemma TargetOfTwo(a: string, b: string, terminal: bool)
    requires IsWord(a) && (IsWord(b) || b == "*")
    ensures var filter := if b == "*" then [] else [LabelFilter(LabelName(a, 1), b, false, false)];
            Target(a + "." + b, terminal) == Some((a, filter + if terminal then [TerminalFilter(a, 2)] else []))
    ensures IsDotted(LabelFilter(METRIC_NAME, a + "." + b, false, false))
  {
    hide Split, Translate, LabelName;
    WordTranslates(a);
    if b != "*" { WordTranslates(b); }
    SplitOfTwo(a, b);
    var nodes := [a, b];
    assert nodes[0] == a && nodes[1] == b && Underscored(a) == a;
    assert NodeFilters(a, nodes, 2) == Some([]);
    var filter := if b == "*" then [] else [LabelFilter(LabelName(a, 1), b, false, false)];
    assert filter + [] == filter;
    assert NodeFilters(a, nodes, 1) == Some(filter);
    assert (a + "." + b)[|a|] == '.';
  }

  lemma OneFilter(name: string, f: LabelFilter, terminal: bool)
    ensures Covert(name, Metric([f], []), terminal).1 == Metric([Replaced(f, terminal)] + Added(f, terminal), [])
  {
    hide Replaced, Added, NameAfter;
    assert [f][..0] == [] && CovertFilters(name, [], terminal) == (name, [], []);
    assert [] + [Replaced(f, terminal)] == [Replaced(f, terminal)] && [] + Added(f, terminal) == Added(f, terminal);
  }

  /** `{__name__!="a.b"}` becomes `{__name__!="a", __a_g1__="b"}`, which picks
      no stored path, although it is meant to pick all but one. */
  lemma NegatedPathPicksNothing(engine: Engine, name: string, a: string, b: string, path: seq<string>)
    requires IsWord(a) && IsWord(b) && path != []
    ensures var f := LabelFilter(METRIC_NAME, a + "." + b, true, false);
            && Covert(name, Metric([f], []), false).1 == Metric([f.(value := a), LabelFilter(LabelName(a, 1), b, false, false)], [])
            && !AllHold(engine, Covert(name, Metric([f], []), false).1.filters, LabelsOf(path))
            && IsConverted(f, false) && (Underscored(path[0]) != a ==> IntendedHolds(engine, f, false, LabelsOf(path)))
  {
    hide LabelName, Target, LabelsOf, Covert;
    var f := LabelFilter(METRIC_NAME, a + "." + b, true, false);
    var g := LabelFilter(LabelName(a, 1), b, false, false);
    TargetOfTwo(a, b, false);
    WordTranslates(b);
    assert [g] + [] == [g] && g in [g];
    assert Target(f.value, false) == Some((a, [g]));
    assert b != "" && !ValueHolds(engine, g, "");
    OneFilter(name, f, false);
    NegatedPicksNothing(engine, f, false, g, path);
    OneHolds(engine, f.(value := a), LabelsOf(path));
    AllHoldIn(engine, [f.(value := a)], [g], LabelsOf(path));
    assert [f.(value := a)] + [g] == [f.(value := a), g];
    LabelsHold(path, 1);
  }

  /** `{__name__=~"a.*"}` becomes `{__name__=~"a"}`: of the names that start
      with `a`, an engine that reads patterns as RE2 does leaves `a` alone. */
  lemma RegexpNameIsCut(engine: Engine, name: string, a: string, labels: map<string, string>)
    requires IsWord(a) && IsRe2(engine)
    ensures var f := LabelFilter(METRIC_NAME, a + ".*", false, true);
            && Covert(name, Metric([f], []), false).1 == Metric([f.(value := a)], [])
            && (FilterHolds(engine, f.(value := a), labels) <==> Read(labels, METRIC_NAME) == a)
            && (FilterHolds(engine, f, labels) <==> engine(a + ".*", Read(labels, METRIC_NAME)))
  {
    hide Target, Covert, IsRe2, Read;
    var f := LabelFilter(METRIC_NAME, a + ".*", false, true);
    assert a + "." + "*" == a + ".*";
    TargetOfTwo(a, "*", false);
    var none: seq<LabelFilter> := [];
    assert none + none == none && [f.(value := a)] + none == [f.(value := a)];
    OneFilter(name, f, false);
    assert IsText(a) by { WordIsText(a); }
    TextMatchesItself(engine, a, Read(labels, METRIC_NAME));
  }

  lemma WordIsText(w: string)
    requires IsWord(w)
    ensures IsText(w)
  {
  }

  /** Grouping by gN is grouping by the N-th node of the path. */
  lemma GroupIsNode(nodes: seq<string>, k: nat)
    requires nodes != [] && nodes[0] != "" && 1 <= k <= MAX_INT64
    ensures Read(LabelsOf(nodes), CovertGroup(Underscored(nodes[0]), "g" + Itoa(k))) == NodeAt(nodes, k)
  {
    hide LabelName, LabelsOf, Read;
    var arg := "g" + Itoa(k);
    assert arg[1..] == Itoa(k);
    AtoiOfItoa(k);
    assert |Itoa(k)| > 0;
    LabelsHold(nodes, k);
  }
}
