/** The passes after expansion: removal of parens and folding of constants. */
module Normalize {
  import opened Text
  import opened Syntax

  /** removeParensExpr */
  function RemoveParens(e: Expr): Expr
    decreases e, 1
  {
    match e
    case Rollup(inner, _, _, _, _) => e.(expr := RemoveParens(inner))
    case Binary(info, left, right) => Binary(info, RemoveParens(left), RemoveParens(right))
    case Aggr(name, args, modifier, limit) => Aggr(name, RemoveParensAll(args), modifier, limit)
    case Func(name, args) => Func(name, RemoveParensAll(args))
    case Parens(args) =>
      var args' := RemoveParensAll(args);
      if |args'| == 1 then args'[0] else Func("", args')  // a list is a call of the union function
    case _ => e
  }

  function RemoveParensAll(es: seq<Expr>): (r: seq<Expr>)
    ensures |r| == |es| && forall i | 0 <= i < |es| :: r[i] == RemoveParens(es[i])
    decreases es, 0
  {
    seq(|es|, i requires 0 <= i < |es| => RemoveParens(es[i]))
  }

  lemma {:induction false} RemoveParensIsParenFree(e: Expr)
    requires Has(Expanded, e)
    ensures Has(ParenFree, RemoveParens(e))
    ensures e.Str? || e.Number? || e.Metric? ==> RemoveParens(e) == e
    decreases e
  {
    match e
    case Func(_, args) => forall i | 0 <= i < |args| ensures Has(ParenFree, RemoveParens(args[i])) { RemoveParensIsParenFree(args[i]); }
    case Aggr(_, args, _, _) => forall i | 0 <= i < |args| ensures Has(ParenFree, RemoveParens(args[i])) { RemoveParensIsParenFree(args[i]); }
    case Parens(args) => forall i | 0 <= i < |args| ensures Has(ParenFree, RemoveParens(args[i])) { RemoveParensIsParenFree(args[i]); }
    case Binary(_, left, right) => RemoveParensIsParenFree(left); RemoveParensIsParenFree(right);
    case Rollup(inner, _, _, _, _) => RemoveParensIsParenFree(inner);
    case _ =>
  }

  lemma {:induction false} RemoveParensResolves(e: Expr)
    requires Has(Resolved, e)
    ensures Has(Resolved, RemoveParens(e))
    decreases e
  {
    match e
    case Func(_, args) => forall i | 0 <= i < |args| ensures Has(Resolved, RemoveParens(args[i])) { RemoveParensResolves(args[i]); }
    case Aggr(_, args, _, _) => forall i | 0 <= i < |args| ensures Has(Resolved, RemoveParens(args[i])) { RemoveParensResolves(args[i]); }
    case Parens(args) => forall i | 0 <= i < |args| ensures Has(Resolved, RemoveParens(args[i])) { RemoveParensResolves(args[i]); }
    case Binary(_, left, right) => RemoveParensResolves(left); RemoveParensResolves(right);
    case Rollup(inner, _, _, _, _) => RemoveParensResolves(inner);
    case _ =>
  }

  /** removeParensExpr as it runs: argument slices are rewritten in place. */
  method RemoveParensExpr(e: Expr) returns (r: Expr)
    ensures r == RemoveParens(e)
    decreases e, 1
  {
    match e {
      case Rollup(inner, _, _, _, _) =>
        var inner' := RemoveParensExpr(inner);
        return e.(expr := inner');
      case Binary(info, left, right) =>
        var left' := RemoveParensExpr(left);
        var right' := RemoveParensExpr(right);
        return Binary(info, left', right');
      case Aggr(name, _, modifier, limit) =>
        var args := new Expr[|e.args|](i requires 0 <= i < |e.args| => e.args[i]);
        RemoveParensInplace(args, e.args);
        return Aggr(name, args[..], modifier, limit);
      case Func(name, _) =>
        var args := new Expr[|e.args|](i requires 0 <= i < |e.args| => e.args[i]);
        RemoveParensInplace(args, e.args);
        return Func(name, args[..]);
      case Parens(_) =>
        var args := new Expr[|e.args|](i requires 0 <= i < |e.args| => e.args[i]);
        RemoveParensInplace(args, e.args);
        if args.Length == 1 {
          return args[0];
        }
        return Func("", args[..]);
      case _ =>
        return e;
    }
  }

  method RemoveParensInplace(args: array<Expr>, ghost was: seq<Expr>)
    requires args[..] == was
    modifies args
    ensures args[..] == RemoveParensAll(was)
    decreases was, 0
  {
    hide RemoveParens;
    for i := 0 to args.Length
      invariant forall k | 0 <= k < i :: args[k] == RemoveParens(was[k])
      invariant forall k | i <= k < args.Length :: args[k] == was[k]
    {
      args[i] := RemoveParensExpr(args[i]);
    }
  }

  // ----- constants -----

  /** The float64 functions of package binaryop. */
  datatype Floats = Floats(
    eq: (Num, Num) -> bool, neq: (Num, Num) -> bool, gt: (Num, Num) -> bool,
    lt: (Num, Num) -> bool, gte: (Num, Num) -> bool, lte: (Num, Num) -> bool,
    plus: (Num, Num) -> Num, minus: (Num, Num) -> Num, mul: (Num, Num) -> Num,
    div: (Num, Num) -> Num, mod: (Num, Num) -> Num, pow: (Num, Num) -> Num,
    orDefault: (Num, Num) -> Num, onlyIf: (Num, Num) -> Num, ifNot: (Num, Num) -> Num)

  function EvalCmp(holds: bool, left: Num, isBool: bool): Num {
    if isBool then (if holds then Finite(1.0) else Finite(0.0)) else if holds then left else NaN
  }

  /** binaryOpEval */
  function Eval(fl: Floats, op: BinOp, isBool: bool, left: Num, right: Num): Num {
    match op
    case Eql => EvalCmp(fl.eq(left, right), left, isBool)
    case Neq => EvalCmp(fl.neq(left, right), left, isBool)
    case Gtr => EvalCmp(fl.gt(left, right), left, isBool)
    case Lss => EvalCmp(fl.lt(left, right), left, isBool)
    case Geq => EvalCmp(fl.gte(left, right), left, isBool)
    case Leq => EvalCmp(fl.lte(left, right), left, isBool)
    case Add => fl.plus(left, right)
    case Sub => fl.minus(left, right)
    case Mul => fl.mul(left, right)
    case Div => fl.div(left, right)
    case Mod => fl.mod(left, right)
    case Pow => fl.pow(left, right)
    case And | Or => left
    case Unless => NaN
    case Default => fl.orDefault(left, right)
    case If => fl.onlyIf(left, right)
    case IfNot => fl.ifNot(left, right)
  }

  /** simplifyConstants */
  function Simplify(fl: Floats, e: Expr): Expr
    decreases e, 1
  {
    match e
    case Rollup(inner, _, _, _, _) => e.(expr := Simplify(fl, inner))
    case Aggr(name, args, modifier, limit) => Aggr(name, SimplifyAll(fl, args), modifier, limit)
    case Func(name, args) => Func(name, SimplifyAll(fl, args))
    case Parens(args) =>
      var args' := SimplifyAll(fl, args);
      if |args'| == 1 then args'[0] else Parens(args')
    case Binary(info, left, right) =>
      var left', right' := Simplify(fl, left), Simplify(fl, right);
      if left'.Number? && right'.Number? then Number(Eval(fl, info.op, info.isBool, left'.n, right'.n))
      else Binary(info, left', right')
    case _ => e
  }

  function SimplifyAll(fl: Floats, es: seq<Expr>): (r: seq<Expr>)
    ensures |r| == |es| && forall i | 0 <= i < |es| :: r[i] == Simplify(fl, es[i])
    decreases es, 0
  {
    seq(|es|, i requires 0 <= i < |es| => Simplify(fl, es[i]))
  }

  /** simplifyConstants as it runs. */
  method SimplifyConstants(fl: Floats, e: Expr) returns (r: Expr)
    ensures r == Simplify(fl, e)
    decreases e, 1
  {
    hide Eval;
    match e {
      case Rollup(inner, _, _, _, _) =>
        var inner' := SimplifyConstants(fl, inner);
        return e.(expr := inner');
      case Aggr(name, _, modifier, limit) =>
        var args := new Expr[|e.args|](i requires 0 <= i < |e.args| => e.args[i]);
        SimplifyConstantsInplace(fl, args, e.args);
        return Aggr(name, args[..], modifier, limit);
      case Func(name, _) =>
        var args := new Expr[|e.args|](i requires 0 <= i < |e.args| => e.args[i]);
        SimplifyConstantsInplace(fl, args, e.args);
        return Func(name, args[..]);
      case Parens(_) =>
        if |e.args| == 1 {
          r := SimplifyConstants(fl, e.args[0]);
          return;
        }
        var args := new Expr[|e.args|](i requires 0 <= i < |e.args| => e.args[i]);
        SimplifyConstantsInplace(fl, args, e.args);
        return Parens(args[..]);
      case Binary(info, left, right) =>
        var left' := SimplifyConstants(fl, left);
        var right' := SimplifyConstants(fl, right);
        if !left'.Number? || !right'.Number? {
          return Binary(info, left', right');
        }
        return Number(Eval(fl, info.op, info.isBool, left'.n, right'.n));
      case _ =>
        return e;
    }
  }

  method SimplifyConstantsInplace(fl: Floats, args: array<Expr>, ghost was: seq<Expr>)
    requires args[..] == was
    modifies args
    ensures args[..] == SimplifyAll(fl, was)
    decreases was, 0
  {
    hide Simplify;
    for i := 0 to args.Length
      invariant forall k | 0 <= k < i :: args[k] == Simplify(fl, was[k])
      invariant forall k | i <= k < args.Length :: args[k] == was[k]
    {
      args[i] := SimplifyConstants(fl, args[i]);
    }
  }

  /** Folding leaves no operator over two numbers, brings no parens back, and
      changes nothing that is folded already. */
  lemma {:induction false} SimplifyFolds(fl: Floats, e: Expr)
    requires Has(Resolved, e) && Has(ParenFree, e)
    ensures var r := Simplify(fl, e); Has(Resolved, r) && Has(ParenFree, r) && Has(Folded, r)
    ensures Has(Folded, e) ==> Simplify(fl, e) == e
    decreases e, 1
  {
    match e
    case Func(_, args) => SimplifyFoldsAll(fl, args);
    case Aggr(_, args, _, _) => SimplifyFoldsAll(fl, args);
    case Binary(_, left, right) => SimplifyFolds(fl, left); SimplifyFolds(fl, right);
    case Rollup(inner, _, _, _, _) => SimplifyFolds(fl, inner);
    case _ =>
  }

  lemma {:induction false} SimplifyFoldsAll(fl: Floats, es: seq<Expr>)
    requires HasAll(Resolved, es) && HasAll(ParenFree, es)
    ensures var r := SimplifyAll(fl, es); HasAll(Resolved, r) && HasAll(ParenFree, r) && HasAll(Folded, r)
    ensures HasAll(Folded, es) ==> SimplifyAll(fl, es) == es
    decreases es, 0
  {
    forall i | 0 <= i < |es|
      ensures var r := Simplify(fl, es[i]);
              Has(Resolved, r) && Has(ParenFree, r) && Has(Folded, r) && (Has(Folded, es[i]) ==> r == es[i])
    {
      SimplifyFolds(fl, es[i]);
    }
  }

  /** The value of an expression made of numbers, operators and parens only. */
  function ConstantValue(fl: Floats, e: Expr): Option<Num>
    decreases e
  {
    match e
    case Number(n) => Some(n)
    case Parens(args) => if |args| == 1 then ConstantValue(fl, args[0]) else None
    case Binary(info, left, right) =>
      (match (ConstantValue(fl, left), ConstantValue(fl, right))
       case (Some(l), Some(r)) => Some(Eval(fl, info.op, info.isBool, l, r))
       case _ => None)
    case _ => None
  }

  /** Exactly the constant expressions become numbers, namely their values. */
  lemma {:induction false} SimplifyIsEvaluation(fl: Floats, e: Expr)
    ensures Simplify(fl, e).Number? <==> ConstantValue(fl, e).Some?
    ensures Simplify(fl, e).Number? ==> ConstantValue(fl, e) == Some(Simplify(fl, e).n)
    decreases e
  {
    match e
    case Binary(_, left, right) => SimplifyIsEvaluation(fl, left); SimplifyIsEvaluation(fl, right);
    case Parens(args) => if |args| == 1 { SimplifyIsEvaluation(fl, args[0]); }
    case _ =>
  }

  // ----- arithmetic -----

  function Power(a: real, n: nat): real { if n == 0 then 1.0 else a * Power(a, n - 1) }

  function Times(n: nat, b: real): real { n as real * b }

  /** What an operator, given by its text, makes of two numbers. Comparisons
      keep the left number or drop it, and yield 1 or 0 after `bool`. */
  ghost predicate Means(text: string, isBool: bool, a: real, b: real, r: Num) {
    && (text == "+" ==> r == Finite(a + b))
    && (text == "-" ==> r == Finite(a - b))
    && (text == "*" && a * b != 0.0 ==> r == Finite(a * b))
    && (text == "/" && a != 0.0 && b != 0.0 ==> r == Finite(a / b))
    && (text == "%" && a >= 0.0 && b > 0.0 ==> r.Finite? && 0.0 <= r.r < b && exists q: nat :: a == Times(q, b) + r.r)
    && (text == "^" && a != 0.0 && b >= 0.0 && b == b.Floor as real ==> r == Finite(Power(a, b.Floor)))
    && (text == "==" ==> r == Compared(a == b, isBool, a))
    && (text == "!=" ==> r == Compared(a != b, isBool, a))
    && (text == ">" ==> r == Compared(a > b, isBool, a))
    && (text == "<" ==> r == Compared(a < b, isBool, a))
    && (text == ">=" ==> r == Compared(a >= b, isBool, a))
    && (text == "<=" ==> r == Compared(a <= b, isBool, a))
    && (text == "and" || text == "or" || text == "default" || text == "if" ==> r == Finite(a))
    && (text == "unless" || text == "ifnot" ==> r == NaN)
  }

  function Compared(holds: bool, isBool: bool, a: real): Num {
    match (holds, isBool)
    case (true, true) => Finite(1.0)
    case (false, true) => Finite(0.0)
    case (true, false) => Finite(a)
    case (false, false) => NaN
  }

  /** The float64 functions do not round on these two numbers. */
  ghost predicate IsExactAt(fl: Floats, a: real, b: real) {
    var x, y := Finite(a), Finite(b);
    && fl.eq(x, y) == (a == b) && fl.neq(x, y) == (a != b) && fl.gt(x, y) == (a > b)
    && fl.lt(x, y) == (a < b) && fl.gte(x, y) == (a >= b) && fl.lte(x, y) == (a <= b)
    && fl.plus(x, y) == Finite(a + b) && fl.minus(x, y) == Finite(a - b)
    && (a * b != 0.0 ==> fl.mul(x, y) == Finite(a * b))
    && (a != 0.0 && b != 0.0 ==> fl.div(x, y) == Finite(a / b))
    && (a >= 0.0 && b > 0.0 ==>
          fl.mod(x, y).Finite? && 0.0 <= fl.mod(x, y).r < b && exists q: nat :: a == Times(q, b) + fl.mod(x, y).r)
    && (a != 0.0 && b >= 0.0 && b == b.Floor as real ==> fl.pow(x, y) == Finite(Power(a, b.Floor)))
    && fl.orDefault(x, y) == x && fl.onlyIf(x, y) == x && fl.ifNot(x, y) == NaN
  }

  /** An operation over two numbers is folded to what its text means. */
  lemma FoldingIsArithmetic(fl: Floats, info: OpInfo, text: string, a: real, b: real)
    requires IsExactAt(fl, a, b) && OpOf(text) == Some(info.op)
    ensures var r := Simplify(fl, Binary(info, Number(Finite(a)), Number(Finite(b))));
            r.Number? && Means(Lower(text), info.isBool, a, b, r.n)
  {
    hide IsExactAt, Means, OpOf, OpText, Eval;
    OpIsItsText(text);
    var left, right := Number(Finite(a)), Number(Finite(b));
    var e := Binary(info, left, right);
    assert Simplify(fl, left) == left && Simplify(fl, right) == right;
    assert Simplify(fl, e) == Number(Eval(fl, info.op, info.isBool, Finite(a), Finite(b)));
    EvalIsArithmetic(fl, info.op, Lower(text), info.isBool, a, b);
  }

  lemma EvalIsArithmetic(fl: Floats, op: BinOp, t: string, isBool: bool, a: real, b: real)
    requires IsExactAt(fl, a, b) && OpText(op) == t
    ensures Means(t, isBool, a, b, Eval(fl, op, isBool, Finite(a), Finite(b)))
  {
    match op
    case Mod => assert IsExactAt(fl, a, b);
    case _ =>
  }
}
