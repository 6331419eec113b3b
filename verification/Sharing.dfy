/** The rewriting pass on the heap: queries whose WITH definitions read an
    argument twice hold the same metric node twice, and the pass writes to the
    nodes while it goes. */
module Sharing {
  import opened Text
  import opened Syntax
  import opened Paths
  import opened Rewrite

  class MetricNode {
    var filters: seq<LabelFilter>

    constructor (filters: seq<LabelFilter>)
      ensures this.filters == filters
    {
      this.filters := filters;
    }
  }

  /** Trees whose metrics are heap nodes. */
  datatype Tree =
    | Metric(node: MetricNode, raw: seq<LabelFilterExpr>)
    | Func(name: string, args: seq<Tree>)
    | Aggr(name: string, args: seq<Tree>, modifier: Modifier, limit: int)
    | Binary(info: OpInfo, left: Tree, right: Tree)
    | Rollup(expr: Tree, window: string, offset: string, step: string, inheritStep: bool)
    | Number(n: Num)
    | Str(se: StringExpr)

  function Nodes(t: Tree): set<MetricNode>
    decreases t
  {
    match t
    case Metric(node, _) => {node}
    case Func(_, args) => NodesOf(args)
    case Aggr(_, args, _, _) => NodesOf(args)
    case Binary(_, left, right) => Nodes(left) + Nodes(right)
    case Rollup(inner, _, _, _, _) => Nodes(inner)
    case _ => {}
  }

  function NodesOf(ts: seq<Tree>): set<MetricNode>
    decreases ts
  {
    if ts == [] then {} else NodesOf(ts[..|ts| - 1]) + Nodes(ts[|ts| - 1])
  }

  /** What the nodes hold. */
  type Store = map<MetricNode, seq<LabelFilter>>

  ghost function Contents(nodes: set<MetricNode>): (s: Store)
    reads nodes
    ensures s.Keys == nodes
  {
    map n | n in nodes :: n.filters
  }

  /** The tree as a value. */
  function View(s: Store, t: Tree): Expr
    requires Nodes(t) <= s.Keys
    decreases t
  {
    match t
    case Metric(node, raw) => Expr.Metric(s[node], raw)
    case Func(name, args) => Expr.Func(name, ViewAll(s, args))
    case Aggr(name, args, modifier, limit) => Expr.Aggr(name, ViewAll(s, args), modifier, limit)
    case Binary(info, left, right) => Expr.Binary(info, View(s, left), View(s, right))
    case Rollup(inner, window, offset, step, inheritStep) => Expr.Rollup(View(s, inner), window, offset, step, inheritStep)
    case Number(n) => Expr.Number(n)
    case Str(se) => Expr.Str(se)
  }

  function ViewAll(s: Store, ts: seq<Tree>): (r: seq<Expr>)
    requires NodesOf(ts) <= s.Keys
    ensures |r| == |ts|
    decreases ts
  {
    if ts == [] then [] else ViewAll(s, ts[..|ts| - 1]) + [View(s, ts[|ts| - 1])]
  }

  // ----- the pass over a store -----

  function NameOver(name: string, fs: seq<LabelFilter>, terminal: bool): string { CovertFilters(name, fs, terminal).0 }

  /** The filters of a metric after the pass. */
  function New(fs: seq<LabelFilter>, terminal: bool): seq<LabelFilter> {
    var (_, kept, added) := CovertFilters("", fs, terminal);
    kept + added
  }

  /** The nodes, the name and the tree after the pass: a node that is met
      again is converted again as it is by then. */
  function CovertStore(s: Store, name: string, t: Tree, terminal: bool): (r: (Store, string, Tree))
    requires Nodes(t) <= s.Keys
    ensures r.0.Keys == s.Keys && Nodes(r.2) == Nodes(t)
    decreases t
  {
    match t
    case Metric(node, _) => (s[node := New(s[node], terminal)], NameOver(name, s[node], terminal), t)
    case Func(f, args) =>
      var (s', last, args') := CovertStoreAll(s, name, args, terminal);
      (s', last, Tree.Func(f, args'))
    case Aggr(f, args, modifier, limit) =>
      var (s', last, args') := CovertStoreAll(s, name, args, terminal);
      (s', last, Tree.Aggr(f, args', modifier.(args := CovertGroups(last, modifier.args)), limit))
    case Binary(info, left, right) =>
      var (s1, middle, left') := CovertStore(s, name, left, terminal);
      var (s2, last, right') := CovertStore(s1, middle, right, terminal);
      (s2, last, Tree.Binary(info, left', right'))
    case Rollup(inner, window, offset, step, inheritStep) =>
      var (s', last, inner') := CovertStore(s, name, inner, terminal);
      (s', last, Tree.Rollup(inner', window, offset, step, inheritStep))
    case _ => (s, name, t)
  }

  function CovertStoreAll(s: Store, name: string, ts: seq<Tree>, terminal: bool): (r: (Store, string, seq<Tree>))
    requires NodesOf(ts) <= s.Keys
    ensures r.0.Keys == s.Keys && |r.2| == |ts| && NodesOf(r.2) == NodesOf(ts)
    decreases ts
  {
    if ts == [] then (s, name, [])
    else
      var (s1, middle, before) := CovertStoreAll(s, name, ts[..|ts| - 1], terminal);
      var (s2, last, t) := CovertStore(s1, middle, ts[|ts| - 1], terminal);
      var all := before + [t];
      assert all[..|all| - 1] == before;
      (s2, last, all)
  }

  // ----- covertExpr -----

  /** The filters do not depend on the name that is threaded. */
  lemma {:induction false} NewForAnyName(name: string, fs: seq<LabelFilter>, terminal: bool)
    ensures var (_, kept, added) := CovertFilters(name, fs, terminal);
            var (_, kept', added') := CovertFilters("", fs, terminal);
            kept == kept' && added == added'
  {
    hide Replaced, Added, NameAfter;
    if fs != [] { NewForAnyName(name, fs[..|fs| - 1], terminal); }
  }

  /** covertExpr as it runs, writing to the metric nodes. */
  method CovertExpr(ghost nodes: set<MetricNode>, name0: string, t: Tree, terminal: bool) returns (name: string, r: Tree)
    requires Nodes(t) <= nodes
    modifies nodes
    ensures (Contents(nodes), name, r) == CovertStore(old(Contents(nodes)), name0, t, terminal)
    decreases t
  {
    hide CovertFilters, CovertGroup, New, NameOver;
    name, r := name0, t;
    match t {
      case Metric(node, _) =>
        ghost var was := Contents(nodes);
        MetricAfter(name0, node.filters, terminal);
        var filters;
        name, filters := CovertMetric(name0, node.filters, terminal);
        node.filters := filters;
        assert Contents(nodes) == was[node := filters];
      case Func(f, args0) =>
        var args;
        name, args := CovertArgs(nodes, name0, args0, terminal);
        r := Tree.Func(f, args);
      case Aggr(f, args0, modifier, limit) =>
        var args;
        name, args := CovertArgs(nodes, name0, args0, terminal);
        var groups := modifier.args;
        for i := 0 to |groups|
          invariant Contents(nodes) == CovertStoreAll(old(Contents(nodes)), name0, args0, terminal).0
          invariant |groups| == |modifier.args|
          invariant groups[..i] == CovertGroups(name, modifier.args)[..i] && groups[i..] == modifier.args[i..]
        {
          groups := CovertGroupAt(name, groups, i);
        }
        assert groups == groups[..|groups|] && CovertGroups(name, modifier.args)[..|groups|] == CovertGroups(name, modifier.args);
        r := Tree.Aggr(f, args, modifier.(args := groups), limit);
      case Binary(info, left, right) =>
        var left', right';
        name, left' := CovertExpr(nodes, name0, left, terminal);
        name, right' := CovertExpr(nodes, name, right, terminal);
        r := Tree.Binary(info, left', right');
      case Rollup(inner, window, offset, step, inheritStep) =>
        var inner';
        name, inner' := CovertExpr(nodes, name0, inner, terminal);
        r := Tree.Rollup(inner', window, offset, step, inheritStep);
      case _ =>
    }
  }

  lemma MetricAfter(name: string, fs: seq<LabelFilter>, terminal: bool)
    ensures var (last, kept, added) := CovertFilters(name, fs, terminal);
            last == NameOver(name, fs, terminal) && kept + added == New(fs, terminal)
  {
    NewForAnyName(name, fs, terminal);
  }

  method CovertArgs(ghost nodes: set<MetricNode>, name0: string, args0: seq<Tree>, terminal: bool)
      returns (name: string, args: seq<Tree>)
    requires NodesOf(args0) <= nodes
    modifies nodes
    ensures (Contents(nodes), name, args) == CovertStoreAll(old(Contents(nodes)), name0, args0, terminal)
    decreases args0
  {
    hide CovertStore, CovertStoreAll, Nodes, NodesOf, Contents;
    name, args := name0, args0;
    ghost var was, done: seq<Tree> := Contents(nodes), [];
    NoTrees(was, name0, args0, terminal);
    for i := 0 to |args0|
      invariant |done| == i && args == done + args0[i..]
      invariant NodesOf(args0[..i]) <= nodes
      invariant CovertStoreAll(was, name0, args0[..i], terminal) == (Contents(nodes), name, done)
    {
      NodesOfPrefix(args0, i + 1);
      NextTree(was, name0, args0, i, terminal);
      var arg;
      name, arg := CovertExpr(nodes, name, args0[i], terminal);
      Overwrite(done, args0[i..], arg);
      args := args[i := arg];
      done := done + [arg];
    }
    assert args0[..|args0|] == args0 && done + [] == done;
  }

  lemma NoTrees(s: Store, name: string, ts: seq<Tree>, terminal: bool)
    ensures NodesOf(ts[..0]) == {} && CovertStoreAll(s, name, ts[..0], terminal) == (s, name, [])
  {
  }

  lemma {:induction false} NodesOfPrefix(ts: seq<Tree>, i: nat)
    requires i <= |ts|
    ensures NodesOf(ts[..i]) <= NodesOf(ts)
    ensures i > 0 ==> NodesOf(ts[..i]) == NodesOf(ts[..i - 1]) + Nodes(ts[i - 1]) && Nodes(ts[i - 1]) <= NodesOf(ts)
    decreases |ts|
  {
    if i > 0 { assert ts[..i][..i - 1] == ts[..i - 1]; }
    if i < |ts| {
      NodesOfPrefix(ts[..|ts| - 1], i);
      assert ts[..|ts| - 1][..i] == ts[..i];
    } else {
      assert ts[..i] == ts;
    }
  }

  lemma NextTree(s: Store, name: string, ts: seq<Tree>, i: nat, terminal: bool)
    requires i < |ts| && NodesOf(ts[..i]) <= s.Keys && NodesOf(ts[..i + 1]) <= s.Keys && Nodes(ts[i]) <= s.Keys
    ensures var (s1, middle, before) := CovertStoreAll(s, name, ts[..i], terminal);
            var (s2, last, t) := CovertStore(s1, middle, ts[i], terminal);
            CovertStoreAll(s, name, ts[..i + 1], terminal) == (s2, last, before + [t])
  {
    hide CovertStore;
    assert ts[..i + 1][..i] == ts[..i];
  }

  // ----- when the nodes are met again -----

  /** A converted metric is left alone. */
  lemma NewIsDone(fs: seq<LabelFilter>, terminal: bool)
    ensures FiltersDone(New(fs, terminal), terminal) && New(New(fs, terminal), terminal) == New(fs, terminal)
  {
    CovertFiltersDone("", fs, terminal);
    DoneFiltersAreKept(New(fs, terminal), terminal);
    assert New(fs, terminal) + [] == New(fs, terminal);
  }

  /** It also leaves the name alone, unless it holds a dotted name that cannot
      be converted. */
  lemma {:induction false} NameOverDone(name: string, fs: seq<LabelFilter>, terminal: bool)
    requires FiltersDone(fs, terminal)
    ensures NameOver(name, fs, terminal) == if exists f <- fs :: IsDotted(f) then "" else name
  {
    hide Target, IsDotted;
    if fs != [] {
      var init, f := fs[..|fs| - 1], fs[|fs| - 1];
      NameOverDone(name, init, terminal);
      assert fs == init + [f] && f in fs;
      assert !IsConverted(f, terminal);
      FailedName(f, NameOver(name, init, terminal), terminal);
      assert forall g :: g in fs <==> g in init || g == f;
    }
  }

  lemma FailedName(f: LabelFilter, name: string, terminal: bool)
    requires !IsConverted(f, terminal)
    ensures NameAfter(f, name, terminal) == if IsDotted(f) then "" else name
  {
    hide Target;
  }

  /** The nodes met so far, the name that the pass threads, and the name that
      it would thread if every occurrence were a metric of its own. */
  datatype Names = Names(seen: set<MetricNode>, code: string, value: string)

  function After(s: Store, ns: Names, t: Tree, terminal: bool): Names
    requires Nodes(t) <= s.Keys
    decreases t
  {
    match t
    case Metric(node, _) =>
      Names(ns.seen + {node},
            NameOver(ns.code, if node in ns.seen then New(s[node], terminal) else s[node], terminal),
            NameOver(ns.value, s[node], terminal))
    case Func(_, args) => AfterAll(s, ns, args, terminal)
    case Aggr(_, args, _, _) => AfterAll(s, ns, args, terminal)
    case Binary(_, left, right) => After(s, After(s, ns, left, terminal), right, terminal)
    case Rollup(inner, _, _, _, _) => After(s, ns, inner, terminal)
    case _ => ns
  }

  function AfterAll(s: Store, ns: Names, ts: seq<Tree>, terminal: bool): Names
    requires NodesOf(ts) <= s.Keys
    decreases ts
  {
    if ts == [] then ns else After(s, AfterAll(s, ns, ts[..|ts| - 1], terminal), ts[|ts| - 1], terminal)
  }

  // ----- the names by visits -----

  /** The metrics in the order in which they are met. */
  function Visits(t: Tree): seq<MetricNode>
    decreases t
  {
    match t
    case Metric(node, _) => [node]
    case Func(_, args) => VisitsOf(args)
    case Aggr(_, args, _, _) => VisitsOf(args)
    case Binary(_, left, right) => Visits(left) + Visits(right)
    case Rollup(inner, _, _, _, _) => Visits(inner)
    case _ => []
  }

  function VisitsOf(ts: seq<Tree>): seq<MetricNode>
    decreases ts
  {
    if ts == [] then [] else VisitsOf(ts[..|ts| - 1]) + Visits(ts[|ts| - 1])
  }

  function NodeSet(ns: seq<MetricNode>): set<MetricNode> { set n | n in ns }

  predicate NamesPath(fs: seq<LabelFilter>) { exists f <- fs :: IsDotted(f) }

  /** The name of the last visit to a metric with a path. */
  function LastName(s: Store, name: string, ns: seq<MetricNode>, terminal: bool): string
    requires NodeSet(ns) <= s.Keys
  {
    if ns == [] then name
    else
      var n := ns[|ns| - 1];
      if NamesPath(s[n]) then NameOver("", s[n], terminal) else LastName(s, name, ns[..|ns| - 1], terminal)
  }

  /** The name of the last first visit to a metric with a path, emptied by a
      later visit to a metric met before that keeps a path. */
  function LastFirstName(s: Store, seen: set<MetricNode>, name: string, ns: seq<MetricNode>, terminal: bool): string
    requires NodeSet(ns) <= s.Keys
  {
    if ns == [] then name
    else
      var n, before := ns[|ns| - 1], ns[..|ns| - 1];
      if n !in seen && n !in before then
        if NamesPath(s[n]) then NameOver("", s[n], terminal) else LastFirstName(s, seen, name, before, terminal)
      else if NamesPath(New(s[n], terminal)) then ""
      else LastFirstName(s, seen, name, before, terminal)
  }

  lemma {:induction false} NameOverAny(name: string, fs: seq<LabelFilter>, terminal: bool)
    ensures NameOver(name, fs, terminal) == if NamesPath(fs) then NameOver("", fs, terminal) else name
  {
    hide Target, IsDotted, Replaced, Added;
    if fs != [] {
      var init, f := fs[..|fs| - 1], fs[|fs| - 1];
      NameOverAny(name, init, terminal);
      assert fs == init + [f];
      assert forall g :: g in fs <==> g in init || g == f;
    }
  }

  lemma {:induction false} LastNameOfMore(s: Store, name: string, a: seq<MetricNode>, b: seq<MetricNode>, terminal: bool)
    requires NodeSet(a) <= s.Keys && NodeSet(b) <= s.Keys
    ensures NodeSet(a + b) <= s.Keys && LastName(s, name, a + b, terminal) == LastName(s, LastName(s, name, a, terminal), b, terminal)
    decreases |b|
  {
    hide NameOver;
    if b == [] {
      assert a + b == a;
    } else {
      var init := b[..|b| - 1];
      LastNameOfMore(s, name, a, init, terminal);
      assert (a + b)[..|a + b| - 1] == a + init;
    }
  }

  lemma {:induction false} LastFirstNameOfMore(
      s: Store, seen: set<MetricNode>, name: string, a: seq<MetricNode>, b: seq<MetricNode>, terminal: bool)
    requires NodeSet(a) <= s.Keys && NodeSet(b) <= s.Keys
    ensures NodeSet(a + b) <= s.Keys
    ensures LastFirstName(s, seen, name, a + b, terminal) ==
            LastFirstName(s, seen + NodeSet(a), LastFirstName(s, seen, name, a, terminal), b, terminal)
    decreases |b|
  {
    hide NameOver, New;
    if b == [] {
      assert a + b == a;
    } else {
      var init := b[..|b| - 1];
      LastFirstNameOfMore(s, seen, name, a, init, terminal);
      assert (a + b)[..|a + b| - 1] == a + init;
    }
  }

  /** The names that the pass threads, as functions of the visits: over shared
      nodes that of the last first visit, over separate ones that of the last
      visit. */
  lemma {:induction false} NamesByVisits(s: Store, ns: Names, t: Tree, terminal: bool)
    requires Nodes(t) <= s.Keys
    ensures NodeSet(Visits(t)) == Nodes(t)
    ensures After(s, ns, t, terminal) ==
            Names(ns.seen + Nodes(t), LastFirstName(s, ns.seen, ns.code, Visits(t), terminal), LastName(s, ns.value, Visits(t), terminal))
    decreases t, 1
  {
    hide NameOver, New, LastName, LastFirstName, AfterAll, VisitsOf, NodesOf, NamesPath;
    match t
    case Metric(node, _) => OneVisit(s, ns, node, terminal);
    case Func(_, args) => NamesByVisitsOf(s, ns, args, terminal);
    case Aggr(_, args, _, _) => NamesByVisitsOf(s, ns, args, terminal);
    case Binary(_, left, right) =>
      NamesByVisits(s, ns, left, terminal);
      NamesByVisits(s, After(s, ns, left, terminal), right, terminal);
      LastNameOfMore(s, ns.value, Visits(left), Visits(right), terminal);
      LastFirstNameOfMore(s, ns.seen, ns.code, Visits(left), Visits(right), terminal);
    case Rollup(inner, _, _, _, _) => NamesByVisits(s, ns, inner, terminal);
    case _ => NoVisit(s, ns, terminal);
  }

  lemma NoVisit(s: Store, ns: Names, terminal: bool)
    ensures NodeSet([]) == {} && ns.seen + {} == ns.seen
    ensures LastFirstName(s, ns.seen, ns.code, [], terminal) == ns.code && LastName(s, ns.value, [], terminal) == ns.value
  {
  }

  lemma OneVisit(s: Store, ns: Names, node: MetricNode, terminal: bool)
    requires node in s.Keys
    ensures NodeSet([node]) == {node}
    ensures LastFirstName(s, ns.seen, ns.code, [node], terminal) ==
            NameOver(ns.code, if node in ns.seen then New(s[node], terminal) else s[node], terminal)
    ensures LastName(s, ns.value, [node], terminal) == NameOver(ns.value, s[node], terminal)
  {
    hide NameOver, New, NamesPath;
    var one := [node];
    assert one[..0] == [] && one[0] == node && node in one;
    NoVisit(s, ns, terminal);
    NameOverAny(ns.code, s[node], terminal);
    NameOverAny(ns.value, s[node], terminal);
    NewIsDone(s[node], terminal);
    NameOverDone(ns.code, New(s[node], terminal), terminal);
    assert NamesPath(New(s[node], terminal)) == exists f <- New(s[node], terminal) :: IsDotted(f) by { PathIsNamed(New(s[node], terminal)); }
  }

  lemma PathIsNamed(fs: seq<LabelFilter>)
    ensures NamesPath(fs) == exists f <- fs :: IsDotted(f)
  {
  }

  lemma {:induction false} NamesByVisitsOf(s: Store, ns: Names, ts: seq<Tree>, terminal: bool)
    requires NodesOf(ts) <= s.Keys
    ensures NodeSet(VisitsOf(ts)) == NodesOf(ts)
    ensures AfterAll(s, ns, ts, terminal) ==
            Names(ns.seen + NodesOf(ts), LastFirstName(s, ns.seen, ns.code, VisitsOf(ts), terminal),
                  LastName(s, ns.value, VisitsOf(ts), terminal))
    decreases ts, 0
  {
    hide After, LastName, LastFirstName, Visits, Nodes;
    NoVisit(s, ns, terminal);
    if ts != [] {
      var init, t := ts[..|ts| - 1], ts[|ts| - 1];
      NamesByVisitsOf(s, ns, init, terminal);
      NamesByVisits(s, AfterAll(s, ns, init, terminal), t, terminal);
      LastNameOfMore(s, ns.value, VisitsOf(init), Visits(t), terminal);
      LastFirstNameOfMore(s, ns.seen, ns.code, VisitsOf(init), Visits(t), terminal);
    }
  }

  // ----- the condition -----

  predicate HasGroup(args: seq<string>) { exists i | 0 <= i < |args| :: GroupNumber(args[i]).Some? }

  /** At every aggregate with a group label gN both names are the same. */
  predicate NamesMatch(s: Store, ns: Names, t: Tree, terminal: bool)
    requires Nodes(t) <= s.Keys
    decreases t
  {
    match t
    case Func(_, args) => NamesMatchAll(s, ns, args, terminal)
    case Aggr(_, args, modifier, _) =>
      && NamesMatchAll(s, ns, args, terminal)
      && (HasGroup(modifier.args) ==> AfterAll(s, ns, args, terminal).code == AfterAll(s, ns, args, terminal).value)
    case Binary(_, left, right) => NamesMatch(s, ns, left, terminal) && NamesMatch(s, After(s, ns, left, terminal), right, terminal)
    case Rollup(inner, _, _, _, _) => NamesMatch(s, ns, inner, terminal)
    case _ => true
  }

  predicate NamesMatchAll(s: Store, ns: Names, ts: seq<Tree>, terminal: bool)
    requires NodesOf(ts) <= s.Keys
    decreases ts
  {
    ts == [] ||
    (&& NamesMatchAll(s, ns, ts[..|ts| - 1], terminal)
     && NamesMatch(s, AfterAll(s, ns, ts[..|ts| - 1], terminal), ts[|ts| - 1], terminal))
  }

  /** `s` after the nodes in `seen` were converted. */
  predicate Visited(s0: Store, s: Store, seen: set<MetricNode>, terminal: bool) {
    s.Keys == s0.Keys && forall n <- s0.Keys :: s[n] == if n in seen then New(s0[n], terminal) else s0[n]
  }

  lemma SameKeys(s0: Store, s: Store, seen: set<MetricNode>, terminal: bool)
    requires Visited(s0, s, seen, terminal)
    ensures s.Keys == s0.Keys
  {
  }

  lemma ThreadsMetric(s0: Store, s: Store, ns: Names, node: MetricNode, terminal: bool)
    requires node in s0.Keys && Visited(s0, s, ns.seen, terminal)
    ensures s[node] == (if node in ns.seen then New(s0[node], terminal) else s0[node])
    ensures Visited(s0, s[node := New(s[node], terminal)], ns.seen + {node}, terminal)
    ensures CovertFilters(ns.value, s0[node], terminal).0 == NameOver(ns.value, s0[node], terminal)
  {
    hide New, CovertFilters;
    NewIsDone(s0[node], terminal);
  }

  lemma {:induction false} Threads(s0: Store, s: Store, ns: Names, t: Tree, terminal: bool)
    requires Nodes(t) <= s0.Keys && Visited(s0, s, ns.seen, terminal)
    ensures Nodes(t) <= s.Keys
    ensures var (s', code, _) := CovertStore(s, ns.code, t, terminal);
            var a := After(s0, ns, t, terminal);
            a.seen == ns.seen + Nodes(t) && code == a.code && Visited(s0, s', a.seen, terminal)
    decreases t, 1
  {
    hide CovertFilters, New, NameOver, CovertGroups, Visited, CovertStoreAll, AfterAll, NodesOf;
    SameKeys(s0, s, ns.seen, terminal);
    match t
    case Metric(node, _) => ThreadsMetric(s0, s, ns, node, terminal);
    case Func(_, args) => ThreadsAll(s0, s, ns, args, terminal);
    case Aggr(_, args, _, _) => ThreadsAll(s0, s, ns, args, terminal);
    case Binary(_, left, right) =>
      Threads(s0, s, ns, left, terminal);
      Threads(s0, CovertStore(s, ns.code, left, terminal).0, After(s0, ns, left, terminal), right, terminal);
    case Rollup(inner, _, _, _, _) => Threads(s0, s, ns, inner, terminal);
    case _ =>
  }

  lemma {:induction false} ThreadsAll(s0: Store, s: Store, ns: Names, ts: seq<Tree>, terminal: bool)
    requires NodesOf(ts) <= s0.Keys && Visited(s0, s, ns.seen, terminal)
    ensures NodesOf(ts) <= s.Keys
    ensures var (s', code, _) := CovertStoreAll(s, ns.code, ts, terminal);
            var a := AfterAll(s0, ns, ts, terminal);
            a.seen == ns.seen + NodesOf(ts) && code == a.code && Visited(s0, s', a.seen, terminal)
    decreases ts, 0
  {
    hide CovertStore, Nodes, After, Visited;
    SameKeys(s0, s, ns.seen, terminal);
    if ts != [] {
      var init, t := ts[..|ts| - 1], ts[|ts| - 1];
      ThreadsAll(s0, s, ns, init, terminal);
      Threads(s0, CovertStoreAll(s, ns.code, init, terminal).0, AfterAll(s0, ns, init, terminal), t, terminal);
    }
  }

  lemma {:induction false} Values(s: Store, ns: Names, t: Tree, terminal: bool)
    requires Nodes(t) <= s.Keys
    ensures Covert(ns.value, View(s, t), terminal).0 == After(s, ns, t, terminal).value
    decreases t, 1
  {
    hide CovertFilters, New, CovertGroups, AfterAll, ViewAll, CovertAll;
    match t
    case Metric(node, _) =>
    case Func(_, args) => ValuesAll(s, ns, args, terminal);
    case Aggr(_, args, _, _) => ValuesAll(s, ns, args, terminal);
    case Binary(_, left, right) =>
      Values(s, ns, left, terminal);
      Values(s, After(s, ns, left, terminal), right, terminal);
    case Rollup(inner, _, _, _, _) => Values(s, ns, inner, terminal);
    case _ =>
  }

  lemma {:induction false} ValuesAll(s: Store, ns: Names, ts: seq<Tree>, terminal: bool)
    requires NodesOf(ts) <= s.Keys
    ensures CovertAll(ns.value, ViewAll(s, ts), terminal).0 == AfterAll(s, ns, ts, terminal).value
    decreases ts, 0
  {
    hide View, Covert, After, Nodes;
    if ts != [] {
      var init, t := ts[..|ts| - 1], ts[|ts| - 1];
      ValuesAll(s, ns, init, terminal);
      Values(s, AfterAll(s, ns, init, terminal), t, terminal);
      LastView(s, ts);
    }
  }

  lemma LastView(s: Store, ts: seq<Tree>)
    requires NodesOf(ts) <= s.Keys && ts != []
    ensures var es := ViewAll(s, ts);
            && NodesOf(ts[..|ts| - 1]) <= s.Keys && Nodes(ts[|ts| - 1]) <= s.Keys
            && es[..|es| - 1] == ViewAll(s, ts[..|ts| - 1]) && es[|es| - 1] == View(s, ts[|ts| - 1])
  {
    hide View, Nodes;
  }

  // ----- when the result is that for trees -----

  /** Two names give the same group labels only if they are equal or nothing
      is a group label. */
  lemma GroupsTell(a: string, b: string, args: seq<string>)
    ensures CovertGroups(a, args) == CovertGroups(b, args) <==> a == b || !HasGroup(args)
  {
    hide GroupNumber;
    if HasGroup(args) {
      var i :| 0 <= i < |args| && GroupNumber(args[i]).Some?;
      GroupTells(a, b, args[i]);
      if a != b { assert CovertGroups(a, args)[i] != CovertGroups(b, args)[i]; }
    }
  }

  lemma GroupTells(a: string, b: string, arg: string)
    requires GroupNumber(arg).Some?
    ensures CovertGroup(a, arg) == CovertGroup(b, arg) <==> a == b
  {
    var k := GroupNumber(arg).value;
    var tail := "_g" + Itoa(k) + "__";
    assert LabelName(a, k) == "__" + a + tail && LabelName(b, k) == "__" + b + tail;
    assert LabelName(a, k)[0] == '_' && LabelName(b, k)[0] == '_' && arg[0] == 'g';
    if LabelName(a, k) == LabelName(b, k) {
      assert |a| == |b|;
      assert LabelName(a, k)[2..2 + |a|] == a && LabelName(b, k)[2..2 + |b|] == b;
    }
  }

  /** All nodes of the tree are converted in `s`. */
  predicate IsFinal(s0: Store, s: Store, nodes: set<MetricNode>, terminal: bool) {
    s.Keys == s0.Keys && nodes <= s.Keys && forall n <- nodes :: s[n] == New(s0[n], terminal)
  }

  lemma {:induction false} ViewsMatch(s0: Store, s: Store, final: Store, ns: Names, t: Tree, terminal: bool)
    requires Nodes(t) <= s0.Keys && Visited(s0, s, ns.seen, terminal) && IsFinal(s0, final, Nodes(t), terminal)
    ensures Nodes(t) <= s.Keys
    ensures View(final, CovertStore(s, ns.code, t, terminal).2) == Covert(ns.value, View(s0, t), terminal).1 <==>
            NamesMatch(s0, ns, t, terminal)
    decreases t, 1
  {
    hide CovertFilters, New, NameOver, CovertGroups, Visited, CovertStoreAll, AfterAll, NodesOf, ViewAll, CovertAll, NamesMatchAll, HasGroup;
    SameKeys(s0, s, ns.seen, terminal);
    match t
    case Metric(node, _) => MetricAfter(ns.value, s0[node], terminal);
    case Func(_, args) => AllViewsMatch(s0, s, final, ns, args, terminal);
    case Aggr(_, args, modifier, _) =>
      AllViewsMatch(s0, s, final, ns, args, terminal);
      GroupsMatch(s0, s, ns, args, modifier.args, terminal);
    case Binary(_, _, _) => OperandsMatch(s0, s, final, ns, t, terminal);
    case Rollup(inner, _, _, _, _) => ViewsMatch(s0, s, final, ns, inner, terminal);
    case _ =>
  }

  lemma {:induction false} OperandsMatch(s0: Store, s: Store, final: Store, ns: Names, t: Tree, terminal: bool)
    requires Nodes(t) <= s0.Keys && Visited(s0, s, ns.seen, terminal) && IsFinal(s0, final, Nodes(t), terminal) && t.Binary?
    ensures Nodes(t) <= s.Keys
    ensures View(final, CovertStore(s, ns.code, t, terminal).2) == Covert(ns.value, View(s0, t), terminal).1 <==>
            NamesMatch(s0, ns, t, terminal)
    decreases t, 0
  {
    hide CovertFilters, New, NameOver, CovertGroups, Visited, CovertStoreAll, AfterAll, NodesOf, ViewAll, CovertAll, NamesMatchAll, HasGroup;
    SameKeys(s0, s, ns.seen, terminal);
    Threads(s0, s, ns, t.left, terminal);
    Values(s0, ns, t.left, terminal);
    ViewsMatch(s0, s, final, ns, t.left, terminal);
    ViewsMatch(s0, CovertStore(s, ns.code, t.left, terminal).0, final, After(s0, ns, t.left, terminal), t.right, terminal);
  }

  lemma GroupsMatch(s0: Store, s: Store, ns: Names, ts: seq<Tree>, groups: seq<string>, terminal: bool)
    requires NodesOf(ts) <= s0.Keys && Visited(s0, s, ns.seen, terminal)
    ensures NodesOf(ts) <= s.Keys
    ensures CovertGroups(CovertStoreAll(s, ns.code, ts, terminal).1, groups) == CovertGroups(CovertAll(ns.value, ViewAll(s0, ts), terminal).0, groups)
            <==> (HasGroup(groups) ==> AfterAll(s0, ns, ts, terminal).code == AfterAll(s0, ns, ts, terminal).value)
  {
    hide CovertGroups, Visited, CovertStoreAll, AfterAll, NodesOf, ViewAll, CovertAll, HasGroup;
    ThreadsAll(s0, s, ns, ts, terminal);
    ValuesAll(s0, ns, ts, terminal);
    GroupsTell(AfterAll(s0, ns, ts, terminal).code, AfterAll(s0, ns, ts, terminal).value, groups);
  }

  lemma {:induction false} AllViewsMatch(s0: Store, s: Store, final: Store, ns: Names, ts: seq<Tree>, terminal: bool)
    requires NodesOf(ts) <= s0.Keys && Visited(s0, s, ns.seen, terminal) && IsFinal(s0, final, NodesOf(ts), terminal)
    ensures NodesOf(ts) <= s.Keys
    ensures ViewAll(final, CovertStoreAll(s, ns.code, ts, terminal).2) == CovertAll(ns.value, ViewAll(s0, ts), terminal).1 <==>
            NamesMatchAll(s0, ns, ts, terminal)
    decreases ts, 0
  {
    hide CovertStore, Nodes, View, Covert, After, Visited, NamesMatch;
    SameKeys(s0, s, ns.seen, terminal);
    if ts != [] {
      var init, t := ts[..|ts| - 1], ts[|ts| - 1];
      ThreadsAll(s0, s, ns, init, terminal);
      ValuesAll(s0, ns, init, terminal);
      AllViewsMatch(s0, s, final, ns, init, terminal);
      ViewsMatch(s0, CovertStoreAll(s, ns.code, init, terminal).0, final, AfterAll(s0, ns, init, terminal), t, terminal);
      LastView(s0, ts);
      LastView(final, CovertStoreAll(s, ns.code, ts, terminal).2);
    }
  }

  /** The pass over shared nodes gives what it gives for a tree of separate
      metrics if and only if the threaded names agree at every group label;
      the filters of all metrics are the same in any case. */
  lemma SharedIsCovert(s: Store, name: string, t: Tree, terminal: bool)
    requires Nodes(t) <= s.Keys
    ensures var (s', _, t') := CovertStore(s, name, t, terminal);
            && (forall n <- Nodes(t) :: s'[n] == New(s[n], terminal))
            && (forall n <- s.Keys - Nodes(t) :: s'[n] == s[n])
            && (View(s', t') == Covert(name, View(s, t), terminal).1 <==> NamesMatch(s, Names({}, name, name), t, terminal))
  {
    hide CovertStore, Nodes, View, Covert, After, NamesMatch, New;
    var ns := Names({}, name, name);
    Threads(s, s, ns, t, terminal);
    ViewsMatch(s, s, CovertStore(s, name, t, terminal).0, ns, t, terminal);
  }

  // ----- a second pass, and what the pass leaves alone -----

  lemma {:induction false} DoneStays(s: Store, t: Tree, terminal: bool)
    requires Nodes(t) <= s.Keys && forall n <- Nodes(t) :: FiltersDone(s[n], terminal)
    ensures CovertStore(s, "", t, terminal) == (s, "", t)
    decreases t, 1
  {
    hide CovertFilters, FiltersDone, CovertStoreAll, NodesOf;
    match t
    case Metric(node, _) => DoneMetricStays(s, node, terminal);
    case Func(_, args) => AllDoneStay(s, args, terminal);
    case Aggr(_, args, modifier, _) =>
      AllDoneStay(s, args, terminal);
      assert CovertGroups("", modifier.args) == modifier.args;
    case Binary(_, left, right) =>
      DoneStays(s, left, terminal);
      DoneStays(s, right, terminal);
    case Rollup(inner, _, _, _, _) => DoneStays(s, inner, terminal);
    case _ =>
  }

  lemma DoneMetricStays(s: Store, node: MetricNode, terminal: bool)
    requires node in s.Keys && FiltersDone(s[node], terminal)
    ensures NameOver("", s[node], terminal) == "" && s[node := New(s[node], terminal)] == s
  {
    DoneFiltersAreKept(s[node], terminal);
    assert s[node] + [] == s[node];
  }

  lemma {:induction false} AllDoneStay(s: Store, ts: seq<Tree>, terminal: bool)
    requires NodesOf(ts) <= s.Keys && forall n <- NodesOf(ts) :: FiltersDone(s[n], terminal)
    ensures CovertStoreAll(s, "", ts, terminal) == (s, "", ts)
    decreases ts, 0
  {
    hide CovertStore, Nodes, FiltersDone;
    if ts != [] {
      AllDoneStay(s, ts[..|ts| - 1], terminal);
      DoneStays(s, ts[|ts| - 1], terminal);
      assert ts == ts[..|ts| - 1] + [ts[|ts| - 1]];
    }
  }

  /** A second pass over the same nodes changes neither them nor the tree,
      however often they occur. */
  lemma SharedIsIdempotent(s: Store, name: string, t: Tree, terminal: bool)
    requires Nodes(t) <= s.Keys
    ensures var (s', _, t') := CovertStore(s, name, t, terminal); CovertStore(s', "", t', terminal) == (s', "", t')
  {
    hide CovertStore, Nodes, New, FiltersDone, NamesMatch, View, Covert;
    var (s', _, t') := CovertStore(s, name, t, terminal);
    SharedIsCovert(s, name, t, terminal);
    forall n | n in Nodes(t') ensures FiltersDone(s'[n], terminal) { NewIsDone(s[n], terminal); }
    DoneStays(s', t', terminal);
  }

  lemma {:induction false} StoreFrame(s0: Store, s: Store, final: Store, name: string, t: Tree, terminal: bool)
    requires Nodes(t) <= s0.Keys && Nodes(t) <= s.Keys && IsFinal(s0, final, Nodes(t), terminal)
    ensures SameButLabels(View(s0, t), View(final, CovertStore(s, name, t, terminal).2))
    decreases t, 1
  {
    hide CovertFilters, New, NameOver, CovertGroup, CovertStoreAll, NodesOf, ViewAll, SameFilters, AllSameButLabels, IsFinal;
    FinalKeys(s0, final, Nodes(t), terminal);
    match t
    case Metric(node, _) => MetricFrame(s0, final, node, terminal);
    case Func(_, args) => StoreFrameAll(s0, s, final, name, args, terminal);
    case Aggr(_, args, modifier, _) =>
      StoreFrameAll(s0, s, final, name, args, terminal);
      GroupsFrame(CovertStoreAll(s, name, args, terminal).1, modifier.args);
    case Binary(_, _, _) => OperandsFrame(s0, s, final, name, t, terminal);
    case Rollup(inner, _, _, _, _) => StoreFrame(s0, s, final, name, inner, terminal);
    case _ =>
  }

  lemma {:induction false} OperandsFrame(s0: Store, s: Store, final: Store, name: string, t: Tree, terminal: bool)
    requires Nodes(t) <= s0.Keys && Nodes(t) <= s.Keys && IsFinal(s0, final, Nodes(t), terminal) && t.Binary?
    ensures SameButLabels(View(s0, t), View(final, CovertStore(s, name, t, terminal).2))
    decreases t, 0
  {
    hide New, NameOver, CovertStoreAll, NodesOf, ViewAll, AllSameButLabels, IsFinal;
    FinalKeys(s0, final, Nodes(t), terminal);
    FinalParts(s0, final, Nodes(t.left), Nodes(t.right), terminal);
    StoreFrame(s0, s, final, name, t.left, terminal);
    var (s1, middle, _) := CovertStore(s, name, t.left, terminal);
    StoreFrame(s0, s1, final, middle, t.right, terminal);
  }

  lemma FinalKeys(s0: Store, final: Store, nodes: set<MetricNode>, terminal: bool)
    requires IsFinal(s0, final, nodes, terminal)
    ensures final.Keys == s0.Keys && nodes <= final.Keys
  {
  }

  lemma FinalParts(s0: Store, final: Store, a: set<MetricNode>, b: set<MetricNode>, terminal: bool)
    requires IsFinal(s0, final, a + b, terminal)
    ensures IsFinal(s0, final, a, terminal) && IsFinal(s0, final, b, terminal)
  {
    hide New;
  }

  lemma MetricFrame(s0: Store, final: Store, node: MetricNode, terminal: bool)
    requires IsFinal(s0, final, {node}, terminal)
    ensures SameFilters(s0[node], final[node])
  {
    hide SameFilters;
    CovertFiltersFrame("", s0[node], terminal);
  }

  lemma GroupsFrame(name: string, args: seq<string>)
    ensures SameGroups(args, CovertGroups(name, args))
  {
  }

  lemma {:induction false} StoreFrameAll(s0: Store, s: Store, final: Store, name: string, ts: seq<Tree>, terminal: bool)
    requires NodesOf(ts) <= s0.Keys && NodesOf(ts) <= s.Keys && IsFinal(s0, final, NodesOf(ts), terminal)
    ensures AllSameButLabels(ViewAll(s0, ts), ViewAll(final, CovertStoreAll(s, name, ts, terminal).2))
    decreases ts, 0
  {
    hide CovertStore, Nodes, View, SameButLabels, IsFinal;
    FinalKeys(s0, final, NodesOf(ts), terminal);
    if ts != [] {
      var init, t := ts[..|ts| - 1], ts[|ts| - 1];
      FinalParts(s0, final, NodesOf(init), Nodes(t), terminal);
      StoreFrameAll(s0, s, final, name, init, terminal);
      var (s1, middle, before) := CovertStoreAll(s, name, init, terminal);
      StoreFrame(s0, s1, final, middle, t, terminal);
      var after := CovertStoreAll(s, name, ts, terminal).2;
      LastView(s0, ts);
      LastView(final, after);
      LastIsSame(ViewAll(s0, ts), ViewAll(final, after));
    }
  }

  lemma LastIsSame(a: seq<Expr>, b: seq<Expr>)
    requires |a| == |b| > 0 && AllSameButLabels(a[..|a| - 1], b[..|b| - 1]) && SameButLabels(a[|a| - 1], b[|b| - 1])
    ensures AllSameButLabels(a, b)
  {
    hide SameButLabels;
    forall i | 0 <= i < |a| ensures SameButLabels(a[i], b[i]) {
      if i < |a| - 1 { assert a[i] == a[..|a| - 1][i] && b[i] == b[..|b| - 1][i]; }
    }
  }

  /** The pass over shared nodes changes dotted metric names, the filters added
      for them and group labels, and nothing else. */
  lemma SharedFrame(s: Store, name: string, t: Tree, terminal: bool)
    requires Nodes(t) <= s.Keys
    ensures var (s', _, t') := CovertStore(s, name, t, terminal); SameButLabels(View(s, t), View(s', t'))
  {
    hide CovertStore, Nodes, New, NamesMatch, View, Covert, SameButLabels;
    SharedIsCovert(s, name, t, terminal);
    StoreFrame(s, s, CovertStore(s, name, t, terminal).0, name, t, terminal);
  }

  // ----- separate nodes -----

  /** No node occurs twice. */
  predicate IsUnshared(t: Tree)
    decreases t
  {
    match t
    case Func(_, args) => AreUnshared(args)
    case Aggr(_, args, _, _) => AreUnshared(args)
    case Binary(_, left, right) => IsUnshared(left) && IsUnshared(right) && Nodes(left) !! Nodes(right)
    case Rollup(inner, _, _, _, _) => IsUnshared(inner)
    case _ => true
  }

  predicate AreUnshared(ts: seq<Tree>)
    decreases ts
  {
    ts == [] ||
    (AreUnshared(ts[..|ts| - 1]) && IsUnshared(ts[|ts| - 1]) && NodesOf(ts[..|ts| - 1]) !! Nodes(ts[|ts| - 1]))
  }

  /** Names agree as long as no node is met again. */
  lemma {:induction false} UnsharedMatches(s: Store, ns: Names, t: Tree, terminal: bool)
    requires Nodes(t) <= s.Keys && IsUnshared(t) && ns.seen !! Nodes(t) && ns.code == ns.value
    ensures NamesMatch(s, ns, t, terminal)
    ensures var a := After(s, ns, t, terminal); a.code == a.value && a.seen == ns.seen + Nodes(t)
    decreases t, 1
  {
    hide NameOver, New;
    match t
    case Func(_, args) => AllUnsharedMatch(s, ns, args, terminal);
    case Aggr(_, args, _, _) => AllUnsharedMatch(s, ns, args, terminal);
    case Binary(_, left, right) =>
      UnsharedMatches(s, ns, left, terminal);
      UnsharedMatches(s, After(s, ns, left, terminal), right, terminal);
    case Rollup(inner, _, _, _, _) => UnsharedMatches(s, ns, inner, terminal);
    case _ =>
  }

  lemma {:induction false} AllUnsharedMatch(s: Store, ns: Names, ts: seq<Tree>, terminal: bool)
    requires NodesOf(ts) <= s.Keys && AreUnshared(ts) && ns.seen !! NodesOf(ts) && ns.code == ns.value
    ensures NamesMatchAll(s, ns, ts, terminal)
    ensures var a := AfterAll(s, ns, ts, terminal); a.code == a.value && a.seen == ns.seen + NodesOf(ts)
    decreases ts, 0
  {
    hide After, NamesMatch, Nodes;
    if ts != [] {
      var init := ts[..|ts| - 1];
      AllUnsharedMatch(s, ns, init, terminal);
      UnsharedMatches(s, AfterAll(s, ns, init, terminal), ts[|ts| - 1], terminal);
    }
  }

  // ----- a query for which sharing shows -----

  function Dotted(a: string, b: string): seq<LabelFilter> { [LabelFilter(METRIC_NAME, a + "." + b, false, false)] }

  /** The name of a path is threaded the first time only. */
  lemma PathNames(name: string, a: string, b: string, terminal: bool)
    requires IsWord(a) && IsWord(b)
    ensures NameOver(name, Dotted(a, b), terminal) == a
    ensures NameOver(name, New(Dotted(a, b), terminal), terminal) == name
  {
    hide Target;
    var fs := Dotted(a, b);
    var f := fs[0];
    TargetOfTwo(a, b, terminal);
    assert f.value[|a|] == '.' && IsConverted(f, terminal);
    assert fs[..0] == [] && CovertFilters(name, fs[..0], terminal) == (name, [], []);
    assert CovertFilters("", fs[..0], terminal) == ("", [], []);
    TargetIsDone(f.value, terminal);
    var more := Target(f.value, terminal).value.1;
    assert New(fs, terminal) == [f.(value := a)] + more;
    NewIsDone(fs, terminal);
    NameOverDone(name, New(fs, terminal), terminal);
    assert forall g <- New(fs, terminal) :: !IsDotted(g);
  }

  const PLUS := OpInfo(Add, false, NO_MODIFIER, NO_MODIFIER)

  function Abs(m: MetricNode): Tree { Tree.Func("abs", [Tree.Metric(m, [])]) }

  /** `abs(m) + n + sum(abs(m)) by (g1)`, as the parser builds it for
      `with (f(a) = a + n + sum(a) by (g1)) f(abs(m))`: both calls hold the
      node `m`. */
  function Reused(m: MetricNode, n: MetricNode): Tree {
    Tree.Binary(PLUS, Tree.Binary(PLUS, Abs(m), Tree.Metric(n, [])), Tree.Aggr("sum", [Abs(m)], Modifier("by", ["g1"]), 0))
  }

  lemma NodesOfOne(t: Tree)
    ensures NodesOf([t]) == Nodes(t)
  {
    hide Nodes;
    assert [t][..0] == [] && NodesOf([]) == {};
  }

  lemma AfterOne(s: Store, ns: Names, t: Tree, terminal: bool)
    requires Nodes(t) <= s.Keys
    ensures NodesOf([t]) <= s.Keys && AfterAll(s, ns, [t], terminal) == After(s, ns, t, terminal)
  {
    hide Nodes, After;
    NodesOfOne(t);
    assert [t][..0] == [];
  }

  lemma AfterAbs(s: Store, ns: Names, m: MetricNode, terminal: bool)
    requires m in s.Keys
    ensures Nodes(Abs(m)) == {m} && After(s, ns, Abs(m), terminal) == After(s, ns, Tree.Metric(m, []), terminal)
  {
    NodesOfOne(Tree.Metric(m, []));
    AfterOne(s, ns, Tree.Metric(m, []), terminal);
  }

  /** The first node is met twice and the second one in between. The pass
      keeps the name of the second path, where a tree of separate metrics has
      that of the first: for the paths `foo.bar` and `x.y` the label becomes
      `__x_g1__` and not `__foo_g1__`. */
  lemma ReusedKeepsLaterName(m: MetricNode, n: MetricNode, a: string, b: string, c: string, d: string, terminal: bool)
    requires m != n && IsWord(a) && IsWord(b) && IsWord(c) && IsWord(d) && a != c
    ensures var s, t := map[m := Dotted(a, b), n := Dotted(c, d)], Reused(m, n);
            && Nodes(t) <= s.Keys
            && CovertStore(s, "", t, terminal).1 == c
            && Covert("", View(s, t), terminal).0 == a
            && !NamesMatch(s, Names({}, "", ""), t, terminal)
            && View(CovertStore(s, "", t, terminal).0, CovertStore(s, "", t, terminal).2) != Covert("", View(s, t), terminal).1
  {
    hide NameOver, New, CovertStore, View, Covert, Dotted, Target;
    var s, t := map[m := Dotted(a, b), n := Dotted(c, d)], Reused(m, n);
    var ns := Names({}, "", "");
    var sum := t.right;
    NodesOfOne(Abs(m));
    var n1 := After(s, ns, Tree.Metric(m, []), terminal);
    AfterAbs(s, ns, m, terminal);
    var n2 := After(s, n1, Tree.Metric(n, []), terminal);
    AfterAbs(s, n2, m, terminal);
    AfterOne(s, n2, Abs(m), terminal);
    PathNames("", a, b, terminal);
    PathNames(a, c, d, terminal);
    PathNames(c, a, b, terminal);
    assert n1 == Names({m}, a, a) && n2 == Names({m, n}, c, c);
    assert AfterAll(s, n2, [Abs(m)], terminal) == Names({m, n}, c, a);
    assert GroupNumber("g1").Some? by { GroupOne(); }
    assert HasGroup(["g1"]) by { assert ["g1"][0] == "g1"; }
    assert !NamesMatch(s, n2, sum, terminal);
    SharedIsCovert(s, "", t, terminal);
    Threads(s, s, ns, t, terminal);
    Values(s, ns, t, terminal);
  }

  lemma GroupOne()
    ensures GroupNumber("g1") == Some(1)
  {
    assert "g1"[1..] == "1" && Digits(1) == "1";
    AtoiOfItoa(1);
  }
}
