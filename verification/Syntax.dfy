/** The expression trees of the query language, and the tree-wide properties
    its passes establish one after the other. */
module Syntax {
  import opened Text

  /** A float64 up to rounding. */
  datatype Num = Finite(r: real) | NegZero | PosInf | NegInf | NaN

  datatype Modifier = Modifier(op: string, args: seq<string>)

  const NO_MODIFIER := Modifier("", [])

  datatype LabelFilter = LabelFilter(key: string, value: string, isNegative: bool, isRegexp: bool)

  /** `tokens` is what the parser read; expansion turns it into `s`. */
  datatype StringExpr = StringExpr(s: string, tokens: seq<string>)

  /** A filter as parsed; without a value it names a filter list to splice in. */
  datatype LabelFilterExpr =
    LabelFilterExpr(key: string, value: Option<StringExpr>, isNegative: bool, isRegexp: bool)

  /** A binary operator with everything written between its operands. */
  datatype OpInfo = OpInfo(op: BinOp, isBool: bool, group: Modifier, join: Modifier)

  /** One definition of a WITH list. `id` stands for the identity of the
      heap node: definitions of one query carry distinct ids. */
  datatype WithArg = WithArg(id: int, name: string, params: seq<string>, body: Expr)

  datatype Expr =
    | Number(n: Num)
    | Str(se: StringExpr)
    | Metric(filters: seq<LabelFilter>, raw: seq<LabelFilterExpr>)
    | Func(name: string, args: seq<Expr>)
    | Aggr(name: string, args: seq<Expr>, modifier: Modifier, limit: int)
    | Binary(info: OpInfo, left: Expr, right: Expr)
    | Rollup(expr: Expr, window: string, offset: string, step: string, inheritStep: bool)
    | Parens(args: seq<Expr>)
    | With(was: seq<WithArg>, body: Expr)

  predicate HasMetricGroup(filters: seq<LabelFilter>) {
    filters != [] && filters[0].key == "__name__" && !filters[0].isNegative && !filters[0].isRegexp
  }

  predicate IsOnlyMetricGroup(filters: seq<LabelFilter>) { HasMetricGroup(filters) && |filters| == 1 }

  // ----- binary operators -----

  datatype BinOp =
    | Add | Sub | Mul | Div | Mod | Pow
    | Eql | Neq | Gtr | Lss | Geq | Leq
    | And | Or | Unless | If | IfNot | Default

  predicate IsCmp(op: BinOp) { op.Eql? || op.Neq? || op.Gtr? || op.Lss? || op.Geq? || op.Leq? }

  predicate IsLogicalSet(op: BinOp) { op.And? || op.Or? || op.Unless? }

  function OpText(op: BinOp): string {
    match op
    case Add => "+" case Sub => "-" case Mul => "*" case Div => "/" case Mod => "%" case Pow => "^"
    case Eql => "==" case Neq => "!=" case Gtr => ">" case Lss => "<" case Geq => ">=" case Leq => "<="
    case And => "and" case Or => "or" case Unless => "unless"
    case If => "if" case IfNot => "ifnot" case Default => "default"
  }

  const BINARY_OPS: set<BinOp> :=
    {Add, Sub, Mul, Div, Mod, Pow, Eql, Neq, Gtr, Lss, Geq, Leq, And, Or, Unless, If, IfNot, Default}

  /** The operator a token denotes, if any; the test ignores case. */
  function OpOf(s: string): Option<BinOp> {
    var t := Lower(s);
    if t == "+" then Some(Add) else if t == "-" then Some(Sub) else if t == "*" then Some(Mul)
    else if t == "/" then Some(Div) else if t == "%" then Some(Mod) else if t == "^" then Some(Pow)
    else if t == "==" then Some(Eql) else if t == "!=" then Some(Neq) else if t == ">" then Some(Gtr)
    else if t == "<" then Some(Lss) else if t == ">=" then Some(Geq) else if t == "<=" then Some(Leq)
    else if t == "and" then Some(And) else if t == "or" then Some(Or) else if t == "unless" then Some(Unless)
    else if t == "if" then Some(If) else if t == "ifnot" then Some(IfNot) else if t == "default" then Some(Default)
    else None
  }

  lemma OpIsItsText(text: string)
    ensures OpOf(text).Some? ==> OpText(OpOf(text).value) == Lower(text)
  {
  }

  // ----- properties of whole trees -----

  /** WellFormed: what the parser builds and expansion accepts.
      Expanded: no WITH node, no unexpanded tokens or filters, no sum of two
      string literals. Resolved: the same, sums of literals allowed. ParenFree: no parens node (and no WITH node).
      Folded: no operator over two numbers. */
  datatype Trait = WellFormed | Expanded | Resolved | ParenFree | Folded

  predicate StringWellFormed(se: StringExpr) { se.s == "" || se.tokens == [] }

  predicate Local(t: Trait, e: Expr) {
    match t
    case WellFormed =>
      && (e.Str? ==> StringWellFormed(e.se))
      && (e.Metric? ==> (e.filters == [] || e.raw == []) &&
                        forall f <- e.raw :: f.value.Some? ==> StringWellFormed(f.value.value))
    case Expanded =>
      && !e.With?
      && (e.Str? ==> e.se.tokens == [])
      && (e.Metric? ==> e.raw == [])
      && (e.Binary? ==> !(e.info.op == Add && e.left.Str? && e.right.Str?))
    case Resolved => !e.With? && (e.Str? ==> e.se.tokens == []) && (e.Metric? ==> e.raw == [])
    case ParenFree => !e.Parens? && !e.With?
    case Folded => !(e.Binary? && e.left.Number? && e.right.Number?)
  }

  predicate Has(t: Trait, e: Expr)
    decreases e
  {
    Local(t, e) &&
    match e
    case Func(_, args) => HasAll(t, args)
    case Aggr(_, args, _, _) => HasAll(t, args)
    case Parens(args) => HasAll(t, args)
    case Binary(_, left, right) => Has(t, left) && Has(t, right)
    case Rollup(inner, _, _, _, _) => Has(t, inner)
    case With(was, body) => HasDefs(t, was) && Has(t, body)
    case _ => true
  }

  predicate HasAll(t: Trait, es: seq<Expr>)
    decreases es
  {
    forall i | 0 <= i < |es| :: Has(t, es[i])
  }

  predicate HasDefs(t: Trait, was: seq<WithArg>)
    decreases was
  {
    forall i | 0 <= i < |was| :: Has(t, was[i].body)
  }

  lemma {:induction false} ExpandedIsWellFormed(e: Expr)
    requires Has(Expanded, e)
    ensures Has(WellFormed, e)
    decreases e
  {
    match e
    case Func(_, args) => forall i | 0 <= i < |args| ensures Has(WellFormed, args[i]) { ExpandedIsWellFormed(args[i]); }
    case Aggr(_, args, _, _) => forall i | 0 <= i < |args| ensures Has(WellFormed, args[i]) { ExpandedIsWellFormed(args[i]); }
    case Parens(args) => forall i | 0 <= i < |args| ensures Has(WellFormed, args[i]) { ExpandedIsWellFormed(args[i]); }
    case Binary(_, left, right) => ExpandedIsWellFormed(left); ExpandedIsWellFormed(right);
    case Rollup(inner, _, _, _, _) => ExpandedIsWellFormed(inner);
    case _ =>
  }
}
