/** The passes after expansion change how a tree is written, not what it
    means: under any reading of its nodes its value stays the same. */
module Meaning {
  import opened Text
  import opened Syntax
  import opened Normalize

  /** A reading of the nodes that are left after expansion, for any kind of
      value. */
  datatype Reading<!V> = Reading(
    number: Num -> V,
    str: StringExpr -> V,
    metric: (seq<LabelFilter>, seq<LabelFilterExpr>) -> V,
    func: (string, seq<V>) -> V,
    aggr: (string, seq<V>, Modifier, int) -> V,
    binary: (OpInfo, V, V) -> V,
    rollup: (V, string, string, string, bool) -> V,
    with: Expr -> V)

  /** Parens around one expression mean that expression; around several they
      mean their union, the function without a name. */
  function Value<V>(m: Reading<V>, e: Expr): V
    decreases e, 1
  {
    match e
    case Number(n) => m.number(n)
    case Str(se) => m.str(se)
    case Metric(filters, raw) => m.metric(filters, raw)
    case Func(name, args) => m.func(name, Values(m, args))
    case Aggr(name, args, modifier, limit) => m.aggr(name, Values(m, args), modifier, limit)
    case Binary(info, left, right) => m.binary(info, Value(m, left), Value(m, right))
    case Rollup(inner, window, offset, step, inheritStep) => m.rollup(Value(m, inner), window, offset, step, inheritStep)
    case Parens(args) => if |args| == 1 then Value(m, args[0]) else m.func("", Values(m, args))
    case With(_, _) => m.with(e)
  }

  function Values<V>(m: Reading<V>, es: seq<Expr>): (r: seq<V>)
    ensures |r| == |es| && forall i | 0 <= i < |es| :: r[i] == Value(m, es[i])
    decreases es, 0
  {
    seq(|es|, i requires 0 <= i < |es| => Value(m, es[i]))
  }

  lemma {:induction false} RemoveParensKeepsValue<V>(m: Reading<V>, e: Expr)
    ensures Value(m, RemoveParens(e)) == Value(m, e)
    decreases e, 1
  {
    match e
    case Func(_, args) => RemoveParensKeepsValues(m, args);
    case Aggr(_, args, _, _) => RemoveParensKeepsValues(m, args);
    case Parens(args) => RemoveParensKeepsValues(m, args);
    case Binary(_, left, right) => RemoveParensKeepsValue(m, left); RemoveParensKeepsValue(m, right);
    case Rollup(inner, _, _, _, _) => RemoveParensKeepsValue(m, inner);
    case _ =>
  }

  lemma {:induction false} RemoveParensKeepsValues<V>(m: Reading<V>, es: seq<Expr>)
    ensures Values(m, RemoveParensAll(es)) == Values(m, es)
    decreases es, 0
  {
    forall i | 0 <= i < |es| ensures Value(m, RemoveParens(es[i])) == Value(m, es[i]) { RemoveParensKeepsValue(m, es[i]); }
  }

  /** The reading computes operators over numbers as folding does. */
  ghost predicate Computes<V(!new)>(m: Reading<V>, fl: Floats) {
    forall info, a, b :: m.binary(info, m.number(a), m.number(b)) == m.number(Eval(fl, info.op, info.isBool, a, b))
  }

  lemma {:induction false} SimplifyKeepsValue<V(!new)>(m: Reading<V>, fl: Floats, e: Expr)
    requires Computes(m, fl)
    ensures Value(m, Simplify(fl, e)) == Value(m, e)
    decreases e, 1
  {
    hide Eval;
    match e
    case Func(_, args) => SimplifyKeepsValues(m, fl, args);
    case Aggr(_, args, _, _) => SimplifyKeepsValues(m, fl, args);
    case Parens(args) => SimplifyKeepsValues(m, fl, args);
    case Binary(_, left, right) => SimplifyKeepsValue(m, fl, left); SimplifyKeepsValue(m, fl, right);
    case Rollup(inner, _, _, _, _) => SimplifyKeepsValue(m, fl, inner);
    case _ =>
  }

  lemma {:induction false} SimplifyKeepsValues<V(!new)>(m: Reading<V>, fl: Floats, es: seq<Expr>)
    requires Computes(m, fl)
    ensures Values(m, SimplifyAll(fl, es)) == Values(m, es)
    decreases es, 0
  {
    forall i | 0 <= i < |es| ensures Value(m, Simplify(fl, es[i])) == Value(m, es[i]) { SimplifyKeepsValue(m, fl, es[i]); }
  }

  /** Both passes together keep what a tree means. */
  lemma NormalizingKeepsMeaning<V(!new)>(m: Reading<V>, fl: Floats, e: Expr)
    requires Computes(m, fl)
    ensures Value(m, Simplify(fl, RemoveParens(e))) == Value(m, e)
  {
    RemoveParensKeepsValue(m, e);
    SimplifyKeepsValue(m, fl, RemoveParens(e));
  }
}
