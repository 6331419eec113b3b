/** The tokens that printing a tree yields (the AppendString methods), and the
    tree that the parser makes of them. */
module Printer {
  import opened Text
  import opened Syntax
  import opened Library
  import opened Ident
  import opened Filters

  // ----- printing -----

  function Print(lib: Lib, e: Expr): seq<string>
    decreases e, 2
  {
    match e
    case Number(n) => SplitSign(lib.formatFloat(n))
    case Str(se) => [lib.quote(se.s)]
    case Metric(filters, _) => PrintMetric(lib, filters)
    case Func(name, args) => (if name == "" then [] else [name]) + PrintList(lib, args)
    case Aggr(name, args, modifier, limit) =>
      [name] + PrintList(lib, args) + PrintModifier(modifier) + (if limit > 0 then ["limit", Itoa(limit)] else [])
    case Binary(info, left, right) => PrintOperand(lib, left) + PrintOp(info) + PrintOperand(lib, right)
    case Rollup(inner, window, offset, step, inheritStep) =>
      (if NeedsParens(inner) then ["("] + Print(lib, inner) + [")"] else Print(lib, inner))
      + PrintWindow(window, step, inheritStep) + PrintOffset(offset)
    case Parens(args) => PrintList(lib, args)
    case With(_, _) => []
  }

  predicate IsSigned(t: string) { t != "" && (t[0] == '-' || t[0] == '+') }

  /** A sign is a token of its own. */
  function SplitSign(t: string): seq<string> { if IsSigned(t) then [[t[0]], t[1..]] else [t] }

  function PrintOperand(lib: Lib, e: Expr): seq<string>
    decreases e, 3
  {
    if e.Binary? then ["("] + Print(lib, e) + [")"] else Print(lib, e)
  }

  /** Must the expression under a rollup stand in parens? */
  predicate NeedsParens(e: Expr) { e.Rollup? || e.Binary? || (e.Aggr? && e.modifier.op != "") }

  function PrintList(lib: Lib, es: seq<Expr>): seq<string>
    decreases es, 1
  {
    ["("] + PrintItems(lib, es) + [")"]
  }

  function PrintItems(lib: Lib, es: seq<Expr>): seq<string>
    decreases es, 0
  {
    if es == [] then []
    else Print(lib, es[0]) + (if |es| == 1 then [] else [","] + PrintItems(lib, es[1..]))
  }

  function PrintOp(info: OpInfo): seq<string> {
    [OpText(info.op)] + (if info.isBool then ["bool"] else []) + PrintModifier(info.group) + PrintModifier(info.join)
  }

  function PrintModifier(m: Modifier): seq<string> {
    if m.op == "" then [] else [m.op, "("] + PrintIdents(m.args) + [")"]
  }

  function PrintIdents(names: seq<string>): seq<string> {
    if names == [] then [] else [names[0]] + (if |names| == 1 then [] else [","] + PrintIdents(names[1..]))
  }

  function PrintWindow(window: string, step: string, inheritStep: bool): seq<string> {
    if window == "" && step == "" && !inheritStep then []
    else
      ["["] + (if window == "" then [] else [window])
      + (if step != "" then [":" + step] else if inheritStep then [":"] else []) + ["]"]
  }

  function PrintOffset(offset: string): seq<string> {
    if offset == "" then []
    else if offset[0] == '-' then ["offset", "-", offset[1..]]
    else ["offset", offset]
  }

  function PrintMetric(lib: Lib, filters: seq<LabelFilter>): seq<string> {
    if HasMetricGroup(filters) then [Escape(filters[0].value)] + (if |filters| == 1 then [] else PrintFilters(lib, filters[1..]))
    else PrintFilters(lib, filters)
  }

  function PrintFilters(lib: Lib, filters: seq<LabelFilter>): seq<string> {
    ["{"] + PrintFilterItems(lib, filters) + ["}"]
  }

  function PrintFilterItems(lib: Lib, filters: seq<LabelFilter>): seq<string> {
    if filters == [] then []
    else PrintFilter(lib, filters[0]) + (if |filters| == 1 then [] else [","] + PrintFilterItems(lib, filters[1..]))
  }

  function PrintFilter(lib: Lib, f: LabelFilter): seq<string> { [Escape(f.key), FilterOp(f), lib.quote(f.value)] }

  // ----- the parse tree of a printed tree -----

  /** What parsing the printed tokens of `e` returns: selectors not expanded,
      and parens where the printer writes them. */
  function Raw(lib: Lib, e: Expr): Expr
    decreases e, 1
  {
    match e
    case Number(n) => RawNumber(lib, n)
    case Str(se) => Str(StringExpr("", [lib.quote(se.s)]))
    case Metric(filters, _) => Metric([], RawMetric(lib, filters))
    case Func(name, args) => if name == "" then Parens(RawAll(lib, args)) else Func(name, RawAll(lib, args))
    case Aggr(name, args, modifier, limit) => Aggr(name, RawAll(lib, args), modifier, limit)
    case Binary(info, left, right) =>
      Binary(info, WrapIf(left.Binary?, Raw(lib, left)), WrapIf(right.Binary?, Raw(lib, right)))
    case Rollup(inner, _, _, _, _) => e.(expr := WrapIf(NeedsParens(inner), Raw(lib, inner)))
    case _ => e
  }

  predicate IsNegative(lib: Lib, n: Num) {
    lib.formatFloat(n) != "" && lib.formatFloat(n)[0] == '-'
  }

  /** The number after the sign, if it is one. */
  function Magnitude(lib: Lib, n: Num): Option<Num> {
    var t := lib.formatFloat(n);
    lib.parseFloat(if IsSigned(t) then t[1..] else t)
  }

  const SUB := OpInfo(Sub, false, NO_MODIFIER, NO_MODIFIER)

  function Negated(e: Expr): Expr { Parens([Binary(SUB, Number(Finite(0.0)), e)]) }

  function RawNumber(lib: Lib, n: Num): Expr {
    if IsNegative(lib, n) && Magnitude(lib, n).Some? then Negated(Number(Magnitude(lib, n).value)) else Number(n)
  }

  function WrapIf(wrap: bool, e: Expr): Expr { if wrap then Parens([e]) else e }

  function RawAll(lib: Lib, es: seq<Expr>): (r: seq<Expr>)
    ensures |r| == |es|
    decreases es, 0
  {
    if es == [] then [] else [Raw(lib, es[0])] + RawAll(lib, es[1..])
  }

  function RawMetric(lib: Lib, filters: seq<LabelFilter>): seq<LabelFilterExpr> {
    if HasMetricGroup(filters) then
      [LabelFilterExpr("__name__", Some(StringExpr("", [lib.quote(Escape(filters[0].value))])), false, false)]
      + RawFilters(lib, filters[1..])
    else RawFilters(lib, filters)
  }

  function RawFilters(lib: Lib, filters: seq<LabelFilter>): seq<LabelFilterExpr> {
    if filters == [] then [] else [RawFilter(lib, filters[0])] + RawFilters(lib, filters[1..])
  }

  function RawFilter(lib: Lib, f: LabelFilter): LabelFilterExpr {
    LabelFilterExpr(Escape(f.key), Some(StringExpr("", [lib.quote(f.value)])), f.isNegative, f.isRegexp)
  }
}
