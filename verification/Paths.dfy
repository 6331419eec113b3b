/** Dotted Graphite paths as numbered labels: the writer that explodes a path
    into labels, the selector a query becomes, and the path rebuilt from the
    labels. */
module Paths {
  import opened Text
  import opened Syntax
  import opened Glob
  import opened GlobMeaning
  import opened Regex

  // ----- splitting and joining -----

  /** strings.Split */
  function Split(s: string, sep: char): (parts: seq<string>)
    ensures parts != [] && forall p <- parts :: sep !in p
  {
    var i := IndexOf(s, sep);
    if i < 0 then [s] else [s[..i]] + Split(s[i + 1..], sep)
  }

  function Join(parts: seq<string>, sep: char): string
    requires parts != []
  {
    if |parts| == 1 then parts[0] else parts[0] + [sep] + Join(parts[1..], sep)
  }

  lemma {:induction false} JoinOfSplit(s: string, sep: char)
    ensures Join(Split(s, sep), sep) == s
  {
    hide IndexOf;
    var i := IndexOf(s, sep);
    if i >= 0 {
      var more := Split(s[i + 1..], sep);
      JoinOfSplit(s[i + 1..], sep);
      JoinFirst(s[..i], more, sep);
      assert s == s[..i] + [sep] + s[i + 1..];
    }
  }

  lemma JoinFirst(part: string, more: seq<string>, sep: char)
    requires more != []
    ensures Join([part] + more, sep) == part + [sep] + Join(more, sep)
  {
    assert ([part] + more)[1..] == more;
  }

  lemma {:induction false} IndexOfAfter(p: string, sep: char, rest: string)
    requires sep !in p
    ensures IndexOf(p + [sep] + rest, sep) == |p|
  {
    if p != [] {
      IndexOfAfter(p[1..], sep, rest);
      assert (p + [sep] + rest)[1..] == p[1..] + [sep] + rest;
    }
  }

  lemma {:induction false} SplitOfJoin(parts: seq<string>, sep: char)
    requires parts != [] && forall p <- parts :: sep !in p
    ensures Split(Join(parts, sep), sep) == parts
  {
    if |parts| > 1 {
      var rest := Join(parts[1..], sep);
      SplitOfJoin(parts[1..], sep);
      IndexOfAfter(parts[0], sep, rest);
      var s := parts[0] + [sep] + rest;
      assert s[..|parts[0]|] == parts[0] && s[|parts[0]| + 1..] == rest;
      assert parts == [parts[0]] + parts[1..];
    } else {
      assert parts == [parts[0]] && parts[0] in parts;
    }
  }

  // ----- labels -----

  /** strings.ReplaceAll(s, "-", "_") */
  function Underscored(s: string): (r: string)
    ensures |r| == |s| && '-' !in r && ('-' !in s ==> r == s)
  {
    seq(|s|, i requires 0 <= i < |s| => if s[i] == '-' then '_' else s[i])
  }

  function LabelName(name: string, i: int): string { "__" + name + "_g" + Itoa(i) + "__" }

  const METRIC_NAME := "__name__"

  /** Numbered labels differ from each other and from the metric name. */
  lemma LabelsDiffer(name: string, i: nat, j: nat)
    ensures LabelName(name, i) == LabelName(name, j) ==> i == j
    ensures LabelName(name, i) != METRIC_NAME
  {
    var a, b := LabelName(name, i), LabelName(name, j);
    var front := 4 + |name|;
    assert a[front..|a| - 2] == Digits(i) && b[front..|b| - 2] == Digits(j);
    if a == b { DigitsInjective(i, j); }
    assert IsDecimalChar(a[|a| - 3]) by { assert a[|a| - 3] == Digits(i)[|Digits(i)| - 1]; }
  }

  /** The numbered labels of the nodes from `i` on. */
  function NodeLabels(name: string, nodes: seq<string>, i: nat): map<string, string>
    requires i <= |nodes|
    decreases |nodes| - i
  {
    if i == |nodes| then map[] else NodeLabels(name, nodes, i + 1)[LabelName(name, i) := nodes[i]]
  }

  /** The labels of a stored path. */
  function LabelsOf(nodes: seq<string>): map<string, string>
    requires nodes != []
  {
    NodeLabels(Underscored(nodes[0]), nodes, 1)[METRIC_NAME := Underscored(nodes[0])]
  }

  /** A label that is missing reads as empty. */
  function Read(labels: map<string, string>, key: string): string {
    if key in labels then labels[key] else ""
  }

  function NodeAt(nodes: seq<string>, i: nat): string { if i < |nodes| then nodes[i] else "" }

  lemma {:induction false} NodeLabelsHold(name: string, nodes: seq<string>, i: nat, k: nat)
    requires i <= |nodes|
    ensures LabelName(name, k) in NodeLabels(name, nodes, i) <==> i <= k < |nodes|
    ensures i <= k < |nodes| ==> NodeLabels(name, nodes, i)[LabelName(name, k)] == nodes[k]
    ensures METRIC_NAME !in NodeLabels(name, nodes, i)
    ensures |NodeLabels(name, nodes, i)| == |nodes| - i
    decreases |nodes| - i
  {
    hide LabelName;
    LabelsDiffer(name, i, k);
    if i < |nodes| {
      NodeLabelsHold(name, nodes, i + 1, k);
      NodeLabelsHold(name, nodes, i + 1, i);
    }
  }

  lemma LabelsHold(nodes: seq<string>, k: nat)
    requires nodes != [] && k >= 1
    ensures var name := Underscored(nodes[0]);
            Read(LabelsOf(nodes), LabelName(name, k)) == NodeAt(nodes, k) && Read(LabelsOf(nodes), METRIC_NAME) == name
  {
    hide LabelName, NodeLabels;
    var name := Underscored(nodes[0]);
    NodeLabelsHold(name, nodes, 1, k);
    LabelsDiffer(name, k, k);
  }

  // ----- from a query to a selector -----

  /** The filters of the nodes from `i` on; None when one is no glob. */
  function NodeFilters(name: string, nodes: seq<string>, i: nat): Option<seq<LabelFilter>>
    requires i <= |nodes|
    decreases |nodes| - i
  {
    if i == |nodes| then Some([])
    else if nodes[i] == "*" then NodeFilters(name, nodes, i + 1)
    else
      match Translate(nodes[i])
      case None => None
      case Some((value, isRegex)) =>
        match NodeFilters(name, nodes, i + 1)
        case None => None
        case Some(more) => Some([LabelFilter(LabelName(name, i), value, false, isRegex)] + more)
  }

  function TerminalFilter(name: string, length: nat): LabelFilter {
    LabelFilter(LabelName(name, length), "", false, false)
  }

  /** The metric name and the filters of a query. None stands for the empty
      name without filters that Go returns when a node is no glob. */
  function Target(query: string, terminal: bool): Option<(string, seq<LabelFilter>)> {
    var nodes := Split(query, '.');
    var name := Underscored(nodes[0]);
    match NodeFilters(name, nodes, 1)
    case None => None
    case Some(filters) => Some((name, filters + if terminal then [TerminalFilter(name, |nodes|)] else []))
  }

  function Prepend(filters: seq<LabelFilter>, more: Option<seq<LabelFilter>>): Option<seq<LabelFilter>> {
    if more.None? then None else Some(filters + more.value)
  }

  lemma PrependNothing(more: Option<seq<LabelFilter>>)
    ensures Prepend([], more) == more
    ensures more.Some? ==> Prepend(more.value, Some([])) == more
  {
    if more.Some? { assert [] + more.value == more.value == more.value + []; }
  }

  lemma PrependTwice(filters: seq<LabelFilter>, nodes: seq<string>, name: string, i: nat)
    requires i < |nodes|
    ensures Prepend(filters, NodeFilters(name, nodes, i)) ==
            if nodes[i] == "*" then Prepend(filters, NodeFilters(name, nodes, i + 1))
            else if Translate(nodes[i]).None? then None
            else
              var (value, isRegex) := Translate(nodes[i]).value;
              Prepend(filters + [LabelFilter(LabelName(name, i), value, false, isRegex)], NodeFilters(name, nodes, i + 1))
  {
    hide Translate, LabelName;
    var more := NodeFilters(name, nodes, i + 1);
    if nodes[i] != "*" && Translate(nodes[i]).Some? && more.Some? {
      var (value, isRegex) := Translate(nodes[i]).value;
      var f := LabelFilter(LabelName(name, i), value, false, isRegex);
      assert filters + [f] + more.value == filters + ([f] + more.value);
    }
  }

  method ConvertGraphiteTarget(query: string, terminal: bool) returns (r: Option<(string, seq<LabelFilter>)>)
    ensures r == Target(query, terminal)
  {
    hide Split, LabelName, Translate;
    var nodes := Split(query, '.');
    var length := |nodes|;
    var name := Underscored(nodes[0]);
    var filters: seq<LabelFilter> := [];
    var i := 1;
    PrependNothing(NodeFilters(name, nodes, 1));
    while i < length
      invariant 1 <= i <= length
      invariant NodeFilters(name, nodes, 1) == Prepend(filters, NodeFilters(name, nodes, i))
    {
      PrependTwice(filters, nodes, name, i);
      var node := nodes[i];
      i := i + 1;
      if node == "*" {
        continue;
      }
      var pattern := GlobToRegexPattern(node);
      if pattern.None? {
        return None;
      }
      var (value, isRegex) := pattern.value;
      filters := filters + [LabelFilter(LabelName(name, i - 1), value, false, isRegex)];
    }
    PrependNothing(Some(filters));
    if terminal {
      filters := filters + [TerminalFilter(name, length)];
    }
    return Some((name, filters));
  }

  // ----- what a selector picks -----

  predicate FilterHolds(engine: Engine, f: LabelFilter, labels: map<string, string>) {
    var value := Read(labels, f.key);
    (if f.isRegexp then engine(f.value, value) else value == f.value) != f.isNegative
  }

  /** A series is picked when its name and all filters hold. */
  predicate Selects(engine: Engine, name: string, filters: seq<LabelFilter>, labels: map<string, string>) {
    Read(labels, METRIC_NAME) == name && forall f <- filters :: FilterHolds(engine, f, labels)
  }

  /** A bare star holds for any value, a missing one included. */
  predicate NodeHolds(engine: Engine, node: string, value: string) { node == "*" || NodeSelects(engine, node, value) }

  /** The nodes of the query from `i` on hold for the nodes of the path. */
  predicate NodesHold(engine: Engine, query: seq<string>, path: seq<string>, i: nat) {
    forall k | i <= k < |query| :: NodeHolds(engine, query[k], NodeAt(path, k))
  }

  lemma {:induction false} NodeFiltersHold(engine: Engine, query: seq<string>, path: seq<string>, i: nat)
    requires path != [] && 1 <= i <= |query| && NodeFilters(Underscored(path[0]), query, i).Some?
    ensures (forall f <- NodeFilters(Underscored(path[0]), query, i).value :: FilterHolds(engine, f, LabelsOf(path))) <==>
            NodesHold(engine, query, path, i)
    decreases |query| - i
  {
    hide LabelName, LabelsOf, Translate, Read;
    if i < |query| {
      var name := Underscored(path[0]);
      NodeFiltersHold(engine, query, path, i + 1);
      LabelsHold(path, i);
      var more := NodeFilters(name, query, i + 1).value;
      if query[i] != "*" {
        var (value, isRegex) := Translate(query[i]).value;
        var f := LabelFilter(LabelName(name, i), value, false, isRegex);
        assert NodeFilters(name, query, i).value == [f] + more;
        assert FilterHolds(engine, f, LabelsOf(path)) <==> NodeSelects(engine, query[i], NodeAt(path, i));
        assert forall g :: g in [f] + more <==> g == f || g in more;
      }
      assert NodesHold(engine, query, path, i) <==> NodeHolds(engine, query[i], NodeAt(path, i)) && NodesHold(engine, query, path, i + 1);
    }
  }

  /** In any case: the names agree up to dashes, every node of the query holds
      for the node of the path in its place, read as empty when missing, and a
      terminal query has at least as many nodes as the path. */
  lemma SelectorMeans(engine: Engine, query: string, terminal: bool, path: seq<string>)
    requires Target(query, terminal).Some? && path != [] && forall k | 1 <= k < |path| :: path[k] != ""
    ensures var (name, filters) := Target(query, terminal).value;
            var nodes := Split(query, '.');
            Selects(engine, name, filters, LabelsOf(path)) <==>
            && Underscored(nodes[0]) == Underscored(path[0]) && NodesHold(engine, nodes, path, 1)
            && (terminal ==> |path| <= |nodes|)
  {
    hide LabelName, LabelsOf, Translate, Read, NodeFilters, Split, NodesHold;
    var (name, filters) := Target(query, terminal).value;
    var nodes := Split(query, '.');
    var length := |nodes|;
    LabelsHold(path, length);
    if name == Underscored(path[0]) {
      NodeFiltersHold(engine, nodes, path, 1);
      var some := NodeFilters(name, nodes, 1).value;
      var last := TerminalFilter(name, length);
      assert FilterHolds(engine, last, LabelsOf(path)) <==> |path| <= length;
      assert forall f :: f in filters <==> f in some || (terminal && f == last);
    }
  }

  /** Nodewise match with as many nodes, or, for a prefix, at least as many. */
  predicate Picks(engine: Engine, nodes: seq<string>, terminal: bool, path: seq<string>)
    requires nodes != [] && path != []
  {
    && Underscored(nodes[0]) == Underscored(path[0])
    && (if terminal then |path| == |nodes| else |path| >= |nodes|)
    && forall k | 1 <= k < |nodes| :: k < |path| && NodeHolds(engine, nodes[k], path[k])
  }

  /** Selection is exact when the last node of the query cannot hold for a
      missing node. */
  lemma SelectorIsExact(engine: Engine, query: string, terminal: bool, path: seq<string>)
    requires Target(query, terminal).Some? && path != [] && forall k | 1 <= k < |path| :: path[k] != ""
    requires var nodes := Split(query, '.'); |nodes| == 1 || !NodeHolds(engine, nodes[|nodes| - 1], "")
    ensures var (name, filters) := Target(query, terminal).value;
            Selects(engine, name, filters, LabelsOf(path)) <==> Picks(engine, Split(query, '.'), terminal, path)
  {
    hide Split, Target, LabelsOf, NodeHolds;
    SelectorMeans(engine, query, terminal, path);
    var nodes := Split(query, '.');
    var last := |nodes| - 1;
    if NodesHold(engine, nodes, path, 1) && last > 0 {
      assert NodeHolds(engine, nodes[last], NodeAt(path, last));
    }
    if Picks(engine, nodes, terminal, path) {
      forall k | 1 <= k < |nodes| ensures NodeHolds(engine, nodes[k], NodeAt(path, k)) { assert k < |path|; }
    }
  }

  /** A simple node of a query holds for exactly the nodes it stands for. */
  lemma SimpleNodeHolds(engine: Engine, g: seq<Piece>, value: string)
    requires IsRe2(engine) && Simple(g) && (!AllPlain(g) || NoBackslash(g)) && '.' !in value
    ensures NodeHolds(engine, Flat(g), value) <==> GlobMatches(g, value)
  {
    hide Flat, Translate, AllPlain, NoBackslash;
    NodeIsExact(engine, g);
    assert NodeSelects(engine, Flat(g), value) <==> GlobMatches(g, value);
    if Flat(g) == "*" {
      var star := [Char('*')];
      FlatStar();
      NodeIsExact(engine, star);
      StarIsNoLiteral();
      assert NodeSelects(engine, "*", value) <==> GlobMatches(star, value);
      assert value[..|value|] == value && PieceMatches(star[0], value[..|value|]) && GlobMatches(star[1..], value[|value|..]);
    }
  }

  lemma FlatStar()
    ensures Flat([Char('*')]) == "*"
  {
    var g := [Char('*')];
    assert g[1..] == [] && FlatPiece(g[0]) == ['*'];
  }

  lemma StarIsNoLiteral()
    ensures !AllPlain([Char('*')])
  {
    var g := [Char('*')];
    assert g[0] in g && !IsPlain(g[0]);
  }

  /** Otherwise a path that ends one node early is picked as well: with a bare
      star at the end, every path that the query without the star picks. */
  lemma ShorterPathIsPicked(engine: Engine, query: string, terminal: bool, path: seq<string>)
    requires Target(query, terminal).Some? && path != [] && forall k | 1 <= k < |path| :: path[k] != ""
    requires var nodes := Split(query, '.'); |nodes| > 1 && NodeHolds(engine, nodes[|nodes| - 1], "")
    requires var nodes := Split(query, '.'); Picks(engine, nodes[..|nodes| - 1], true, path)
    ensures var (name, filters) := Target(query, terminal).value;
            Selects(engine, name, filters, LabelsOf(path)) && !Picks(engine, Split(query, '.'), terminal, path)
  {
    hide Split, Target, LabelsOf, NodeHolds;
    SelectorMeans(engine, query, terminal, path);
    var nodes := Split(query, '.');
    forall k | 1 <= k < |nodes| ensures NodeHolds(engine, nodes[k], NodeAt(path, k)) {
      if k < |path| { assert nodes[..|nodes| - 1][k] == nodes[k]; }
    }
  }

  // ----- from labels back to a path -----

  /** What is appended for the labels from `i` up to `n`. */
  function Rebuilt(name: string, metric: map<string, string>, i: nat, n: nat): string
    decreases n - i
  {
    if i >= n then ""
    else
      var key := LabelName(name, i);
      (if key in metric then "." + metric[key] else "") + Rebuilt(name, metric, i + 1, n)
  }

  /** The path of a series; a series of another name yields no path. */
  function PathOf(name: string, metric: map<string, string>): string {
    if METRIC_NAME in metric && metric[METRIC_NAME] != name then ""
    else name + Rebuilt(name, metric, 1, |metric| + 1)
  }

  method ConvertPrometheusMetric(name: string, metric: map<string, string>) returns (r: string)
    ensures r == PathOf(name, metric)
  {
    hide LabelName;
    if METRIC_NAME in metric && metric[METRIC_NAME] != name {
      return "";
    }
    var builder := name;
    var i := 1;
    while i < |metric| + 1
      invariant 1 <= i <= |metric| + 1
      invariant builder + Rebuilt(name, metric, i, |metric| + 1) == PathOf(name, metric)
    {
      ghost var rest := Rebuilt(name, metric, i + 1, |metric| + 1);
      var key := LabelName(name, i);
      if key in metric {
        assert builder + ("." + metric[key] + rest) == builder + "." + metric[key] + rest;
        builder := builder + "." + metric[key];
      } else {
        assert "" + rest == rest;
      }
      i := i + 1;
    }
    return builder;
  }

  /** All nodes after the first, each with its dot. */
  function Tail(nodes: seq<string>, i: nat): string
    requires i <= |nodes|
    decreases |nodes| - i
  {
    if i == |nodes| then "" else "." + nodes[i] + Tail(nodes, i + 1)
  }

  lemma {:induction false} JoinIsTail(nodes: seq<string>, i: nat)
    requires i < |nodes|
    ensures Join(nodes[i..], '.') == nodes[i] + Tail(nodes, i + 1)
    decreases |nodes| - i
  {
    if i + 1 < |nodes| {
      JoinIsTail(nodes, i + 1);
      assert nodes[i..][1..] == nodes[i + 1..];
      assert nodes[i] + "." + (nodes[i + 1] + Tail(nodes, i + 2)) == nodes[i] + ("." + nodes[i + 1] + Tail(nodes, i + 2));
    }
  }

  lemma {:induction false} RebuiltIsTail(nodes: seq<string>, metric: map<string, string>, i: nat, n: nat)
    requires nodes != [] && 1 <= i <= |nodes| && |nodes| <= n
    requires var name := Underscored(nodes[0]);
             forall k: nat | k >= 1 :: (LabelName(name, k) in metric <==> k < |nodes|) &&
                                       (k < |nodes| ==> metric[LabelName(name, k)] == nodes[k])
    ensures Rebuilt(Underscored(nodes[0]), metric, i, n) == Tail(nodes, i)
    decreases n - i
  {
    hide LabelName;
    if i < |nodes| {
      RebuiltIsTail(nodes, metric, i + 1, n);
    } else if i < n {
      RebuiltPastEnd(Underscored(nodes[0]), metric, i, n);
    }
  }

  lemma {:induction false} RebuiltPastEnd(name: string, metric: map<string, string>, i: nat, n: nat)
    requires forall k: nat | k >= i :: LabelName(name, k) !in metric
    ensures Rebuilt(name, metric, i, n) == ""
    decreases n - i
  {
    hide LabelName;
    if i < n { RebuiltPastEnd(name, metric, i + 1, n); }
  }

  lemma LabelsGiveTail(nodes: seq<string>, metric: map<string, string>)
    requires nodes != [] && (metric == LabelsOf(nodes) || metric == LabelsOf(nodes) - {METRIC_NAME})
    ensures PathOf(Underscored(nodes[0]), metric) == Underscored(nodes[0]) + Tail(nodes, 1)
  {
    hide LabelName, NodeLabels, Underscored, Tail, Rebuilt;
    var name := Underscored(nodes[0]);
    NodeLabelsHold(name, nodes, 1, 1);
    assert LabelsOf(nodes) - {METRIC_NAME} == NodeLabels(name, nodes, 1);
    forall k: nat | k >= 1
      ensures LabelName(name, k) in metric <==> k < |nodes|
      ensures k < |nodes| ==> metric[LabelName(name, k)] == nodes[k]
    {
      NodeLabelsHold(name, nodes, 1, k);
      LabelsDiffer(name, k, k);
    }
    RebuiltIsTail(nodes, metric, 1, |metric| + 1);
  }

  /** From the labels of a path, with the metric name among them or not, the
      path itself is rebuilt, dashes of its first node turned to underscores;
      so it is the same path exactly when its first node has no dash. */
  lemma PathIsRebuilt(nodes: seq<string>, metric: map<string, string>)
    requires nodes != [] && (metric == LabelsOf(nodes) || metric == LabelsOf(nodes) - {METRIC_NAME})
    ensures PathOf(Underscored(nodes[0]), metric) == Join([Underscored(nodes[0])] + nodes[1..], '.')
    ensures PathOf(Underscored(nodes[0]), metric) == Join(nodes, '.') <==> '-' !in nodes[0]
  {
    hide PathOf, LabelsOf, Underscored, Tail, Join;
    LabelsGiveTail(nodes, metric);
    var name := Underscored(nodes[0]);
    JoinIsTail(nodes, 0);
    assert nodes[0..] == nodes;
    var shown := [name] + nodes[1..];
    JoinIsTail(shown, 0);
    assert shown[0..] == shown;
    TailOfSame(shown, nodes, 1);
    SameTailSameHead(name, nodes[0], Tail(nodes, 1));
  }

  lemma SameTailSameHead(a: string, b: string, tail: string)
    requires |a| == |b|
    ensures a + tail == b + tail <==> a == b
  {
    assert (a + tail)[..|a|] == a && (b + tail)[..|b|] == b;
  }

  lemma {:induction false} TailOfSame(a: seq<string>, b: seq<string>, i: nat)
    requires |a| == |b| && i <= |a| && a[i..] == b[i..]
    ensures Tail(a, i) == Tail(b, i)
    decreases |a| - i
  {
    if i < |a| {
      assert a[i] == a[i..][0] == b[i..][0] == b[i];
      assert a[i + 1..] == a[i..][1..] && b[i + 1..] == b[i..][1..];
      TailOfSame(a, b, i + 1);
    }
  }

  // ----- the writer -----

  /** The tags of the nodes from `i` on. */
  function TagText(name: string, nodes: seq<string>, i: nat): string
    requires i <= |nodes|
    decreases |nodes| - i
  {
    if i == |nodes| then "" else ";" + LabelName(name, i) + "=" + nodes[i] + TagText(name, nodes, i + 1)
  }

  /** The line that replaces a Graphite line: path, value and time. Lines
      without two spaces, with a further space (unless it follows the second
      at once), or with a path of one node are dropped. */
  function TaggedLine(line: string): Option<string> {
    var i1 := IndexOf(line, ' ');
    if i1 < 0 then None
    else
      var rest := line[i1 + 1..];
      var i2 := IndexOf(rest, ' ');
      if i2 < 0 then None
      else
        var time := rest[i2 + 1..];
        var nodes := Split(line[..i1], '.');
        if IndexOf(time, ' ') > 0 || |nodes| < 2 then None
        else
          var name := Underscored(nodes[0]);
          Some(name + TagText(name, nodes, 1) + " " + rest[..i2] + " " + time + "\n")
  }

  class Builder {
    var text: string

    constructor ()
      ensures text == ""
    {
      text := "";
    }

    method Write(s: string)
      modifies this
      ensures text == old(text) + s
    {
      text := text + s;
    }
  }

  /** convertGraphite appends the tagged line, or nothing. */
  method ConvertGraphite(builder: Builder, line: string) returns (ok: bool)
    modifies builder
    ensures ok <==> TaggedLine(line).Some?
    ensures builder.text == old(builder.text) + if ok then TaggedLine(line).value else ""
  {
    hide LabelName, Split, IndexOf, Itoa;
    var i1 := IndexOf(line, ' ');
    if i1 < 0 {
      return false;
    }
    var i2 := IndexOf(line[i1 + 1..], ' ');
    if i2 < 0 {
      return false;
    }
    var metricTime := line[i1 + 1..][i2 + 1..];
    var i3 := IndexOf(metricTime, ' ');
    if i3 > 0 {
      return false;
    }
    var metricName := line[..i1];
    var metricValue := line[i1 + 1..][..i2];
    var nodes := Split(metricName, '.');
    if |nodes| < 2 {
      return false;
    }
    var prefix := nodes[0];
    if '-' in nodes[0] {
      prefix := Underscored(nodes[0]);
    }
    builder.Write(prefix);
    ghost var goal := builder.text + TagText(prefix, nodes, 1);
    var i := 1;
    while i < |nodes|
      invariant 1 <= i <= |nodes| && builder.text + TagText(prefix, nodes, i) == goal
    {
      ghost var was, rest := builder.text, TagText(prefix, nodes, i + 1);
      builder.Write(";__");
      builder.Write(prefix);
      builder.Write("_g");
      builder.Write(Itoa(i));
      builder.Write("__=");
      builder.Write(nodes[i]);
      TagWritten(was, prefix, i, nodes[i], rest);
      i := i + 1;
    }
    assert builder.text == goal by { assert builder.text + "" == builder.text; }
    builder.Write(" ");
    builder.Write(metricValue);
    builder.Write(" ");
    builder.Write(metricTime);
    builder.Write("\n");
    LineWritten(old(builder.text), prefix + TagText(prefix, nodes, 1), metricValue, metricTime, prefix, TagText(prefix, nodes, 1));
    return true;
  }

  lemma TagWritten(was: string, prefix: string, i: nat, node: string, rest: string)
    ensures was + ";__" + prefix + "_g" + Itoa(i) + "__=" + node + rest ==
            was + (";" + LabelName(prefix, i) + "=" + node + rest)
  {
    assert ";__" == ";" + "__" && "__=" == "__" + "=";
  }

  lemma LineWritten(was: string, series: string, value: string, time: string, prefix: string, tags: string)
    requires series == prefix + tags
    ensures was + prefix + tags + " " + value + " " + time + "\n" == was + (series + " " + value + " " + time + "\n")
  {
  }

  // ----- what is read from a written line -----

  /** A series with tags, in the plain text format of tagged Graphite: the
      name, then each tag split at its first equals sign. */
  function TagsFrom(parts: seq<string>): map<string, string> {
    if parts == [] then map[]
    else
      var n := IndexOf(parts[0], '=');
      if n < 0 then TagsFrom(parts[1..]) else TagsFrom(parts[1..])[parts[0][..n] := parts[0][n + 1..]]
  }

  function SeriesLabels(series: string): map<string, string> {
    var parts := Split(series, ';');
    TagsFrom(parts[1..])[METRIC_NAME := parts[0]]
  }

  /** The tags as parts between semicolons. */
  function TagParts(name: string, nodes: seq<string>, i: nat): seq<string>
    requires i <= |nodes|
    decreases |nodes| - i
  {
    if i == |nodes| then [] else [LabelName(name, i) + "=" + nodes[i]] + TagParts(name, nodes, i + 1)
  }

  lemma LabelNameWithout(name: string, i: nat, c: char)
    requires c !in name && c != '_' && c != 'g' && !IsDecimalChar(c)
    ensures c !in LabelName(name, i)
  {
    assert AllDecimal(Itoa(i));
    assert c !in Itoa(i);
    assert c !in "__" && c !in "_g";
  }

  lemma JoinCons(head: string, more: seq<string>, sep: char)
    requires more != []
    ensures Join([head] + more, sep) == head + [sep] + Join(more, sep)
  {
    assert ([head] + more)[1..] == more;
  }

  lemma TagStep(head: string, name: string, nodes: seq<string>, i: nat)
    requires i < |nodes|
    ensures var part := LabelName(name, i) + "=" + nodes[i];
            && TagParts(name, nodes, i) == [part] + TagParts(name, nodes, i + 1)
            && head + TagText(name, nodes, i) == head + [';'] + (part + TagText(name, nodes, i + 1))
  {
    hide LabelName;
    var key, rest := LabelName(name, i), TagText(name, nodes, i + 1);
    assert ";" + key + "=" + nodes[i] + rest == [';'] + (key + "=" + nodes[i] + rest);
  }

  lemma {:induction false} TagPartsJoin(head: string, name: string, nodes: seq<string>, i: nat)
    requires i <= |nodes|
    ensures Join([head] + TagParts(name, nodes, i), ';') == head + TagText(name, nodes, i)
    decreases |nodes| - i
  {
    if i < |nodes| {
      hide LabelName, Join, TagText, TagParts;
      var part := LabelName(name, i) + "=" + nodes[i];
      TagStep(head, name, nodes, i);
      TagPartsJoin(part, name, nodes, i + 1);
      JoinCons(head, [part] + TagParts(name, nodes, i + 1), ';');
    } else {
      assert [head] + TagParts(name, nodes, i) == [head];
    }
  }

  lemma {:induction false} TagPartsRead(name: string, nodes: seq<string>, i: nat)
    requires i <= |nodes| && '=' !in name && ';' !in name && forall p <- nodes :: ';' !in p
    ensures TagsFrom(TagParts(name, nodes, i)) == NodeLabels(name, nodes, i)
    ensures forall p <- TagParts(name, nodes, i) :: ';' !in p
    decreases |nodes| - i
  {
    hide LabelName;
    if i < |nodes| {
      TagPartsRead(name, nodes, i + 1);
      LabelNameWithout(name, i, '=');
      LabelNameWithout(name, i, ';');
      var key := LabelName(name, i);
      var part := key + "=" + nodes[i];
      IndexOfAfter(key, '=', nodes[i]);
      assert part[..|key|] == key && part[|key| + 1..] == nodes[i];
      assert TagParts(name, nodes, i)[1..] == TagParts(name, nodes, i + 1);
      assert nodes[i] in nodes;
    }
  }

  /** No tag has a semicolon in its value or an equals sign in its key. */
  lemma {:induction false} TagsAreClean(parts: seq<string>)
    requires forall p <- parts :: ';' !in p
    ensures forall k <- TagsFrom(parts) :: '=' !in k && ';' !in TagsFrom(parts)[k]
  {
    if parts != [] {
      assert parts[0] in parts && forall p <- parts[1..] :: p in parts;
      TagsAreClean(parts[1..]);
      var n := IndexOf(parts[0], '=');
      if n >= 0 {
        assert forall c <- parts[0][n + 1..] :: c in parts[0];
      }
    }
  }

  lemma SeriesIsClean(series: string)
    ensures forall k <- SeriesLabels(series) :: '=' !in k && ';' !in SeriesLabels(series)[k]
  {
    hide TagsFrom, Split;
    var parts := Split(series, ';');
    assert parts[0] in parts && forall p <- parts[1..] :: p in parts;
    TagsAreClean(parts[1..]);
    NoEqualsInName();
  }

  lemma NoEqualsInName()
    ensures '=' !in METRIC_NAME
  {
  }

  lemma UnderscoredKeeps(s: string, c: char)
    requires c in s && c != '-'
    ensures c in Underscored(s)
  {
    var k :| 0 <= k < |s| && s[k] == c;
    assert Underscored(s)[k] == c;
  }

  /** A semicolon in a node, or an equals sign in the first of several, shows
      in the labels of the path. */
  lemma LabelsAreUnclean(nodes: seq<string>)
    requires nodes != [] && ((exists p <- nodes :: ';' in p) || (|nodes| > 1 && '=' in nodes[0]))
    ensures var labels := LabelsOf(nodes); exists k <- labels :: '=' in k || ';' in labels[k]
  {
    hide LabelName, NodeLabels;
    var name, labels := Underscored(nodes[0]), LabelsOf(nodes);
    if p :| p in nodes && ';' in p {
      var i :| 0 <= i < |nodes| && nodes[i] == p;
      if i == 0 {
        UnderscoredKeeps(nodes[0], ';');
        assert METRIC_NAME in labels && labels[METRIC_NAME] == name;
      } else {
        NodeLabelsHold(name, nodes, 1, i);
        LabelsDiffer(name, i, i);
        assert LabelName(name, i) in labels && labels[LabelName(name, i)] == p;
      }
    } else {
      UnderscoredKeeps(nodes[0], '=');
      NodeLabelsHold(name, nodes, 1, 1);
      assert LabelName(name, 1) in labels && '=' in LabelName(name, 1) by { NameInLabel(name, 1, '='); }
    }
  }

  lemma NameInLabel(name: string, i: int, c: char)
    requires c in name
    ensures c in LabelName(name, i)
  {
    var k :| 0 <= k < |name| && name[k] == c;
    assert LabelName(name, i)[k + 2] == c;
  }

  /** The written series carries exactly the labels of its path if and only if
      no node has a semicolon and the first of several has no equals sign. */
  lemma WrittenLabels(nodes: seq<string>)
    requires nodes != []
    ensures var name := Underscored(nodes[0]);
            SeriesLabels(name + TagText(name, nodes, 1)) == LabelsOf(nodes) <==>
            (forall p <- nodes :: ';' !in p) && (|nodes| > 1 ==> '=' !in nodes[0])
  {
    hide SeriesLabels, LabelsOf, TagText;
    var name := Underscored(nodes[0]);
    if (forall p <- nodes :: ';' !in p) && (|nodes| > 1 ==> '=' !in nodes[0]) {
      CleanLabelsAreWritten(nodes);
    } else {
      SeriesIsClean(name + TagText(name, nodes, 1));
      LabelsAreUnclean(nodes);
    }
  }

  lemma NoTags(name: string, nodes: seq<string>)
    requires |nodes| == 1
    ensures TagParts(name, nodes, 1) == [] && TagsFrom(TagParts(name, nodes, 1)) == NodeLabels(name, nodes, 1)
  {
  }

  lemma CleanLabelsAreWritten(nodes: seq<string>)
    requires nodes != [] && (|nodes| > 1 ==> '=' !in nodes[0]) && forall p <- nodes :: ';' !in p
    ensures var name := Underscored(nodes[0]);
            SeriesLabels(name + TagText(name, nodes, 1)) == LabelsOf(nodes)
  {
    hide Join, Split, TagText, TagParts, NodeLabels, TagsFrom;
    var name := Underscored(nodes[0]);
    assert nodes[0] in nodes;
    assert ';' !in name;
    TagPartsJoin(name, name, nodes, 1);
    if |nodes| > 1 { TagPartsRead(name, nodes, 1); } else { NoTags(name, nodes); }
    var parts := [name] + TagParts(name, nodes, 1);
    SplitOfJoin(parts, ';');
    assert parts[1..] == TagParts(name, nodes, 1);
  }

  // ----- lines in and out -----

  predicate HasNoSpace(s: string) { ' ' !in s }

  /** A Graphite line: a path of at least two nodes, a value and a time. The
      time may start with a space, as nothing looks further then. */
  predicate IsGraphiteLine(line: string, path: string, value: string, time: string) {
    && line == path + " " + value + " " + time
    && HasNoSpace(path) && HasNoSpace(value) && '.' in path && ((time != "" && time[0] == ' ') || HasNoSpace(time))
  }

  lemma IndexAfter(a: string, c: char, b: string)
    requires c !in a
    ensures IndexOf(a + [c] + b, c) == |a| && (a + [c] + b)[..|a|] == a && (a + [c] + b)[|a| + 1..] == b
  {
    IndexOfAfter(a, c, b);
  }

  lemma {:induction false} IndexOfNone(s: string, c: char)
    ensures IndexOf(s, c) < 0 <==> c !in s
  {
    var n := IndexOf(s, c);
    if n >= 0 { assert s[n] in s; }
  }

  lemma DotSplits(path: string)
    ensures |Split(path, '.')| > 1 <==> '.' in path
  {
    IndexOfNone(path, '.');
  }

  /** What a line is cut into. */
  lemma LineIsCut(path: string, value: string, time: string)
    requires HasNoSpace(path) && HasNoSpace(value)
    ensures var line := path + " " + value + " " + time;
            && IndexOf(line, ' ') == |path| && line[..|path|] == path
            && IndexOf(line[|path| + 1..], ' ') == |value| && line[|path| + 1..][..|value|] == value
            && line[|path| + 1..][|value| + 1..] == time
  {
    var line := path + " " + value + " " + time;
    assert line == path + [' '] + (value + [' '] + time);
    IndexAfter(path, ' ', value + [' '] + time);
    IndexAfter(value, ' ', time);
  }

  /** The line written for a Graphite line has the series of its path, the
      value and the time, in this order. */
  lemma LineIsWritten(path: string, value: string, time: string)
    requires IsGraphiteLine(path + " " + value + " " + time, path, value, time)
    ensures var nodes := Split(path, '.');
            var series := Underscored(nodes[0]) + TagText(Underscored(nodes[0]), nodes, 1);
            TaggedLine(path + " " + value + " " + time) == Some(series + " " + value + " " + time + "\n")
  {
    hide Split, IndexOf, TagText, Underscored;
    LineIsCut(path, value, time);
    DotSplits(path);
    TimeIsAccepted(time);
  }

  lemma TimeIsAccepted(time: string)
    ensures IndexOf(time, ' ') > 0 <==> !(time != "" && time[0] == ' ') && !HasNoSpace(time)
  {
    IndexOfNone(time, ' ');
  }

  lemma WrittenIsGraphite(line: string)
    requires TaggedLine(line).Some?
    ensures exists path, value, time :: IsGraphiteLine(line, path, value, time)
  {
    hide Split, TagText, Underscored, IndexOf;
    var i1 := IndexOf(line, ' ');
    var rest := line[i1 + 1..];
    var i2 := IndexOf(rest, ' ');
    var path, value, time := line[..i1], rest[..i2], rest[i2 + 1..];
    assert HasNoSpace(path) && HasNoSpace(value);
    assert line == path + " " + value + " " + time by {
      assert line == path + [' '] + rest && rest == value + [' '] + time;
    }
    DotSplits(path);
    TimeIsAccepted(time);
    assert IsGraphiteLine(line, path, value, time);
  }

  /** A line is written if and only if it is a Graphite line; all others are
      dropped. */
  lemma LineIsDropped(line: string)
    ensures TaggedLine(line).Some? <==> exists path, value, time :: IsGraphiteLine(line, path, value, time)
  {
    hide TaggedLine, IsGraphiteLine;
    if TaggedLine(line).Some? { WrittenIsGraphite(line); }
    if path, value, time :| IsGraphiteLine(line, path, value, time) {
      GraphiteIsItsParts(line, path, value, time);
      LineIsWritten(path, value, time);
    }
  }

  lemma GraphiteIsItsParts(line: string, path: string, value: string, time: string)
    requires IsGraphiteLine(line, path, value, time)
    ensures line == path + " " + value + " " + time
  {
  }

  /** A tagged line as a server reads it: series, value and time between
      spaces, up to the line end. */
  function ReadLine(line: string): Option<(string, string, string)> {
    if line == "" || line[|line| - 1] != '\n' then None
    else
      var parts := Split(line[..|line| - 1], ' ');
      if |parts| == 3 then Some((parts[0], parts[1], parts[2])) else None
  }

  lemma SplitOfThree(a: string, b: string, c: string)
    requires HasNoSpace(a) && HasNoSpace(b) && HasNoSpace(c)
    ensures Split(a + " " + b + " " + c, ' ') == [a, b, c]
  {
    var line := a + " " + b + " " + c;
    assert line == a + [' '] + (b + [' '] + c);
    IndexAfter(a, ' ', b + [' '] + c);
    IndexAfter(b, ' ', c);
    IndexOfNone(c, ' ');
    assert Split(c, ' ') == [c];
    assert Split(b + [' '] + c, ' ') == [b] + [c];
  }

  lemma {:induction false} TagsHaveNoSpace(name: string, nodes: seq<string>, i: nat)
    requires i <= |nodes| && HasNoSpace(name) && forall p <- nodes :: HasNoSpace(p)
    ensures HasNoSpace(TagText(name, nodes, i))
    decreases |nodes| - i
  {
    hide LabelName;
    if i < |nodes| {
      TagsHaveNoSpace(name, nodes, i + 1);
      LabelNameWithout(name, i, ' ');
      assert nodes[i] in nodes;
    }
  }

  lemma {:induction false} PartsWithout(s: string, sep: char, c: char)
    requires c !in s
    ensures forall p <- Split(s, sep) :: c !in p
    decreases |s|
  {
    var i := IndexOf(s, sep);
    if i >= 0 { PartsWithout(s[i + 1..], sep, c); }
  }

  /** What a server reads from the line written for a Graphite line is the
      value, the time, and a series with the labels of the path, for paths
      whose nodes the tag format can hold. */
  lemma LineIsReadBack(path: string, value: string, time: string)
    requires IsGraphiteLine(path + " " + value + " " + time, path, value, time) && HasNoSpace(time)
    requires ';' !in path && '=' !in Split(path, '.')[0]
    ensures var r := TaggedLine(path + " " + value + " " + time);
            && r.Some? && ReadLine(r.value).Some?
            && SeriesLabels(ReadLine(r.value).value.0) == LabelsOf(Split(path, '.'))
            && ReadLine(r.value).value.1 == value && ReadLine(r.value).value.2 == time
  {
    hide Split, IndexOf, TagText, SeriesLabels, LabelsOf;
    var nodes := Split(path, '.');
    var name := Underscored(nodes[0]);
    var series := name + TagText(name, nodes, 1);
    LineIsWritten(path, value, time);
    PartsWithout(path, '.', ' ');
    PartsWithout(path, '.', ';');
    assert nodes[0] in nodes && HasNoSpace(name);
    TagsHaveNoSpace(name, nodes, 1);
    SplitOfThree(series, value, time);
    var line := series + " " + value + " " + time;
    assert (line + "\n")[..|line + "\n"| - 1] == line;
    WrittenLabels(nodes);
  }

  /** A path of two nodes, letter by letter: `foo.bar 12 1600000000` is
      written as `foo;__foo_g1__=bar 12 1600000000`. */
  lemma TwoNodesAreWritten(a: string, b: string, value: string, time: string)
    requires HasNoSpace(a) && HasNoSpace(b) && HasNoSpace(value) && HasNoSpace(time)
    requires '.' !in a && '.' !in b && '-' !in a
    ensures TaggedLine(a + "." + b + " " + value + " " + time) ==
            Some(a + ";__" + a + "_g1__=" + b + " " + value + " " + time + "\n")
  {
    hide Split, IndexOf, TagText, TaggedLine, Underscored;
    var path := a + "." + b;
    assert Split(path, '.') == [a, b] by {
      SplitOfJoin([a, b], '.');
      assert [a, b][1..] == [b];
    }
    assert '.' in path by { assert path[|a|] == '.'; }
    TagOfOne(a, b);
    LineIsWritten(path, value, time);
    assert a + (";__" + a + "_g1__=" + b) == a + ";__" + a + "_g1__=" + b;
  }

  lemma TagOfOne(name: string, node: string)
    ensures TagText(name, [name, node], 1) == ";__" + name + "_g1__=" + node
  {
    assert Itoa(1) == "1" by { assert Digits(1) == [DigitChar(1)]; }
    var t := TagText(name, [name, node], 1);
    assert TagText(name, [name, node], 2) == "";
    assert t == ";" + ("__" + name + "_g" + "1" + "__") + "=" + node;
  }

  /** A dash in the name of a series is written as an underscore. */
  lemma DashIsUnderscore(a: string, b: string)
    requires '-' !in a && '-' !in b
    ensures Underscored(a + "-" + b) == a + "_" + b
  {
    var s, r := a + "-" + b, a + "_" + b;
    forall k | 0 <= k < |s| ensures Underscored(s)[k] == r[k] {
      if k < |a| { assert s[k] == a[k] && a[k] in a; }
      else if k > |a| { assert s[k] == b[k - |a| - 1] && b[k - |a| - 1] in b; }
    }
  }
}
