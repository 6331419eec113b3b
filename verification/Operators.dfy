/** Priority and associativity of binary operators, the tree rotation that
    the parser uses instead of a grammar, and a precedence-climbing reference
    parse that it is compared with. */
module Operators {
  import opened Text
  import opened Syntax

  function Priority(op: BinOp): int {
    match op
    case Default => -1
    case If | IfNot => 0
    case Or => 1
    case And | Unless => 2
    case Eql | Neq | Lss | Gtr | Leq | Geq => 3
    case Add | Sub => 4
    case Mul | Div | Mod => 5
    case Pow => 6
  }

  predicate IsRightAssociative(op: BinOp) { op == Pow }

  /** May `child` stand, without parens, as the left operand of `parent`? */
  predicate LeftFits(parent: BinOp, child: BinOp) {
    Priority(child) > Priority(parent) || (Priority(child) == Priority(parent) && !IsRightAssociative(parent))
  }

  predicate RightFits(parent: BinOp, child: BinOp) {
    Priority(child) > Priority(parent) || (Priority(child) == Priority(parent) && IsRightAssociative(parent))
  }

  /** Every operator of the tree respects priority and associativity;
      everything that is not a binary operator is an operand. */
  predicate Respects(e: Expr) {
    e.Binary? ==>
      && (e.left.Binary? ==> LeftFits(e.info.op, e.left.info.op))
      && (e.right.Binary? ==> RightFits(e.info.op, e.right.info.op))
      && Respects(e.left) && Respects(e.right)
  }

  // ----- reading a tree in order -----

  function Operands(e: Expr): (es: seq<Expr>)
    ensures es != []
  {
    if e.Binary? then Operands(e.left) + Operands(e.right) else [e]
  }

  /** The operators with their modifiers, left to right. */
  function OpsOf(e: Expr): (ops: seq<OpInfo>)
    ensures |Operands(e)| == |ops| + 1
  {
    if e.Binary? then OpsOf(e.left) + [e.info] + OpsOf(e.right) else []
  }

  // ----- the rotation -----

  /** balanceBinaryOp on a node with operator `o` and the given children. */
  function Balance(left: Expr, o: OpInfo, right: Expr): (r: Expr)
    ensures r.Binary?
    decreases left
  {
    if !left.Binary? then Binary(o, left, right)
    else if LeftFits(o.op, left.info.op) then Binary(o, left, right)
    else Binary(left.info, left.left, Balance(left.right, o, right))
  }

  /** What the parser's loop builds from an operand, the operators that
      follow it and their right operands. */
  function Fold(first: Expr, ops: seq<OpInfo>, xs: seq<Expr>): Expr
    requires |ops| == |xs|
    decreases |ops|
  {
    var n := |ops|;
    if n == 0 then first else Balance(Fold(first, ops[..n - 1], xs[..n - 1]), ops[n - 1], xs[n - 1])
  }

  predicate AreOperands(xs: seq<Expr>) { forall i | 0 <= i < |xs| :: !xs[i].Binary? }

  lemma {:induction false} BalanceReads(left: Expr, o: OpInfo, right: Expr)
    requires !right.Binary?
    ensures Operands(Balance(left, o, right)) == Operands(left) + [right]
    ensures OpsOf(Balance(left, o, right)) == OpsOf(left) + [o]
    decreases left
  {
    hide LeftFits;
    if left.Binary? {
      BalanceReads(left.right, o, right);
      Regroup(Operands(left.left), Operands(left.right), [right]);
      Regroup(OpsOf(left.left) + [left.info], OpsOf(left.right), [o]);
    }
  }

  lemma Regroup<T>(a: seq<T>, b: seq<T>, c: seq<T>)
    ensures a + (b + c) == (a + b) + c
  {
  }

  lemma {:induction false} BalanceRespects(left: Expr, o: OpInfo, right: Expr)
    requires !right.Binary? && Respects(left)
    ensures Respects(Balance(left, o, right))
    decreases left
  {
    if left.Binary? { BalanceRespects(left.right, o, right); }
  }

  /** The parser's loop yields a tree that reads back as its input and that
      respects priority and associativity everywhere. */
  lemma {:induction false} FoldIsFaithful(first: Expr, ops: seq<OpInfo>, xs: seq<Expr>)
    requires |ops| == |xs| && !first.Binary? && AreOperands(xs)
    ensures Operands(Fold(first, ops, xs)) == [first] + xs
    ensures OpsOf(Fold(first, ops, xs)) == ops
    ensures Respects(Fold(first, ops, xs))
    decreases |ops|
  {
    hide Balance, LeftFits, RightFits;
    var n := |ops|;
    if n > 0 {
      assert xs == xs[..n - 1] + [xs[n - 1]] && ops == ops[..n - 1] + [ops[n - 1]];
      var before := Fold(first, ops[..n - 1], xs[..n - 1]);
      FoldIsFaithful(first, ops[..n - 1], xs[..n - 1]);
      BalanceReads(before, ops[n - 1], xs[n - 1]);
      BalanceRespects(before, ops[n - 1], xs[n - 1]);
    }
  }

  // ----- such a tree is unique -----

  /** The operators on either side of the root fit under it. */
  lemma {:induction false} RootIsWeakest(e: Expr, i: nat)
    requires e.Binary? && Respects(e) && i < |OpsOf(e)|
    ensures i < |OpsOf(e.left)| ==> LeftFits(e.info.op, OpsOf(e)[i].op)
    ensures i > |OpsOf(e.left)| ==> RightFits(e.info.op, OpsOf(e)[i].op)
    decreases e
  {
    var k := |OpsOf(e.left)|;
    if i < k {
      if i == |OpsOf(e.left.left)| { } else { RootIsWeakest(e.left, i); }
    } else if i > k {
      if i - k - 1 == |OpsOf(e.right.left)| { } else { RootIsWeakest(e.right, i - k - 1); }
    }
  }

  /** Two trees that respect priority and associativity and read the same are
      the same tree. */
  lemma {:induction false} RespectingTreeIsUnique(a: Expr, b: Expr)
    requires Respects(a) && Respects(b)
    requires Operands(a) == Operands(b) && OpsOf(a) == OpsOf(b)
    ensures a == b
    decreases a
  {
    if !a.Binary? || !b.Binary? {
      assert |OpsOf(a)| == 0;
      assert Operands(a)[0] == Operands(b)[0];
    } else {
      var ka, kb := |OpsOf(a.left)|, |OpsOf(b.left)|;
      assert OpsOf(a)[ka] == a.info && OpsOf(b)[kb] == b.info;
      if ka != kb {
        RootIsWeakest(a, kb);
        RootIsWeakest(b, ka);
        assert false;
      }
      assert OpsOf(a.left) == OpsOf(a)[..ka] && OpsOf(b.left) == OpsOf(b)[..ka];
      assert OpsOf(a.right) == OpsOf(a)[ka + 1..] && OpsOf(b.right) == OpsOf(b)[ka + 1..];
      assert Operands(a.left) == Operands(a)[..ka + 1] && Operands(b.left) == Operands(b)[..ka + 1];
      assert Operands(a.right) == Operands(a)[ka + 1..] && Operands(b.right) == Operands(b)[ka + 1..];
      RespectingTreeIsUnique(a.left, b.left);
      RespectingTreeIsUnique(a.right, b.right);
    }
  }

  // ----- precedence climbing -----

  /** Extends `lhs` with the operators from position `i` and their right
      operands while the next operator has priority at least `min`; returns
      the tree and where it stopped. */
  function Climb(lhs: Expr, ops: seq<OpInfo>, xs: seq<Expr>, i: nat, min: int): (r: (Expr, nat))
    requires i <= |ops| == |xs|
    ensures i <= r.1 <= |ops|
    decreases |ops| - i
  {
    if i == |ops| || Priority(ops[i].op) < min then (lhs, i)
    else
      var rhs := Climb(xs[i], ops, xs, i + 1, Above(ops[i].op));
      Climb(Binary(ops[i], lhs, rhs.0), ops, xs, rhs.1, min)
  }

  /** The weakest priority that may follow the right operand of `op`. */
  function Above(op: BinOp): int { if IsRightAssociative(op) then Priority(op) else Priority(op) + 1 }

  lemma {:induction false} ClimbRespects(lhs: Expr, ops: seq<OpInfo>, xs: seq<Expr>, i: nat, min: int)
    requires i <= |ops| == |xs| && AreOperands(xs) && Respects(lhs)
    requires i < |ops| && lhs.Binary? && Priority(ops[i].op) >= min ==> LeftFits(ops[i].op, lhs.info.op)
    ensures var (r, j) := Climb(lhs, ops, xs, i, min);
            && Respects(r)
            && (r == lhs || (r.Binary? && Priority(r.info.op) >= min))
            && (j < |ops| ==> Priority(ops[j].op) < min)
    decreases |ops| - i
  {
    if i < |ops| && Priority(ops[i].op) >= min {
      var (rhs, j) := Climb(xs[i], ops, xs, i + 1, Above(ops[i].op));
      ClimbRespects(xs[i], ops, xs, i + 1, Above(ops[i].op));
      ClimbRespects(Binary(ops[i], lhs, rhs), ops, xs, j, min);
    }
  }

  lemma {:induction false} ClimbReadsOperands(lhs: Expr, ops: seq<OpInfo>, xs: seq<Expr>, i: nat, min: int)
    requires i <= |ops| == |xs| && AreOperands(xs)
    ensures Operands(Climb(lhs, ops, xs, i, min).0) == Operands(lhs) + xs[i..Climb(lhs, ops, xs, i, min).1]
    decreases |ops| - i
  {
    if i < |ops| && Priority(ops[i].op) >= min {
      var rhs := Climb(xs[i], ops, xs, i + 1, Above(ops[i].op));
      ClimbReadsOperands(xs[i], ops, xs, i + 1, Above(ops[i].op));
      ClimbReadsOperands(Binary(ops[i], lhs, rhs.0), ops, xs, rhs.1, min);
      JoinRuns(Operands(lhs), Operands(rhs.0), xs, i, rhs.1, Climb(lhs, ops, xs, i, min).1);
    }
  }

  lemma {:induction false} ClimbReadsOps(lhs: Expr, ops: seq<OpInfo>, xs: seq<Expr>, i: nat, min: int)
    requires i <= |ops| == |xs| && AreOperands(xs)
    ensures OpsOf(Climb(lhs, ops, xs, i, min).0) == OpsOf(lhs) + ops[i..Climb(lhs, ops, xs, i, min).1]
    decreases |ops| - i
  {
    if i < |ops| && Priority(ops[i].op) >= min {
      var rhs := Climb(xs[i], ops, xs, i + 1, Above(ops[i].op));
      ClimbReadsOps(xs[i], ops, xs, i + 1, Above(ops[i].op));
      ClimbReadsOps(Binary(ops[i], lhs, rhs.0), ops, xs, rhs.1, min);
      JoinRunsLeft(OpsOf(lhs), ops[i], OpsOf(rhs.0), ops, i, rhs.1, Climb(lhs, ops, xs, i, min).1);
    }
  }

  lemma JoinRuns<T>(l: seq<T>, r: seq<T>, s: seq<T>, i: nat, j: nat, k: nat)
    requires i < j <= k <= |s| && r == [s[i]] + s[i + 1..j]
    ensures (l + r) + s[j..k] == l + s[i..k]
  {
    assert s[i..k] == [s[i]] + s[i + 1..j] + s[j..k];
  }

  lemma JoinRunsLeft<T>(l: seq<T>, x: T, r: seq<T>, s: seq<T>, i: nat, j: nat, k: nat)
    requires i < j <= k <= |s| && x == s[i] && r == s[i + 1..j]
    ensures (l + [x] + r) + s[j..k] == l + s[i..k]
  {
    assert s[i..k] == [s[i]] + s[i + 1..j] + s[j..k];
  }

  /** The rotation computes the precedence-climbing parse. */
  lemma FoldIsPrecedenceClimbing(first: Expr, ops: seq<OpInfo>, xs: seq<Expr>)
    requires |ops| == |xs| && !first.Binary? && AreOperands(xs)
    ensures Climb(first, ops, xs, 0, -1) == (Fold(first, ops, xs), |ops|)
  {
    var (r, j) := Climb(first, ops, xs, 0, -1);
    ClimbRespects(first, ops, xs, 0, -1);
    assert j == |ops|;
    assert Operands(r) == [first] + xs by { ClimbReadsOperands(first, ops, xs, 0, -1); }
    assert OpsOf(r) == ops by { ClimbReadsOps(first, ops, xs, 0, -1); }
    FoldIsFaithful(first, ops, xs);
    RespectingTreeIsUnique(Fold(first, ops, xs), r);
  }

  // ----- the documented grammar -----

  /** The operators of the language, the weakest line first. Operators of one
      line group to the left, those of the last one to the right. */
  function Line(line: nat): seq<string> {
    match line
    case 0 => ["default"]
    case 1 => ["if", "ifnot"]
    case 2 => ["or"]
    case 3 => ["and", "unless"]
    case 4 => ["==", "!=", "<", ">", "<=", ">="]
    case 5 => ["+", "-"]
    case 6 => ["*", "/", "%"]
    case 7 => ["^"]
    case _ => []
  }

  const LAST_LINE: nat := 7

  predicate IsOn(line: nat, o: OpInfo) { OpText(o.op) in Line(line) }

  /** The last operator of a line, or -1. */
  function LastOf(line: nat, ops: seq<OpInfo>): (k: int)
    requires line <= LAST_LINE
    ensures -1 <= k < |ops|
    ensures k >= 0 ==> IsOn(line, ops[k])
    ensures forall j | k < j < |ops| :: !IsOn(line, ops[j])
  {
    if ops == [] then -1
    else if IsOn(line, ops[|ops| - 1]) then |ops| - 1
    else LastOf(line, ops[..|ops| - 1])
  }

  /** A parse with one level of grammar for every line: a level is a list of
      the next one, joined by the operators of its line from the left; the last
      line is joined from the right. */
  function Layered(line: nat, xs: seq<Expr>, ops: seq<OpInfo>): Expr
    requires line <= LAST_LINE && |xs| == |ops| + 1
    decreases |ops|, LAST_LINE - line
  {
    if line == LAST_LINE then
      if ops == [] then xs[0] else Binary(ops[0], xs[0], Layered(line, xs[1..], ops[1..]))
    else
      var k := LastOf(line, ops);
      if k < 0 then Layered(line + 1, xs, ops)
      else Binary(ops[k], Layered(line, xs[..k + 1], ops[..k]), Layered(line + 1, xs[k + 1..], ops[k + 1..]))
  }

  /** The line of an operator is its priority. */
  lemma LineIsPriority(o: OpInfo, line: nat)
    requires line <= LAST_LINE
    ensures IsOn(line, o) <==> Priority(o.op) == line - 1
  {
  }

  predicate AreAtLeast(ops: seq<OpInfo>, p: int) { forall i | 0 <= i < |ops| :: Priority(ops[i].op) >= p }

  lemma RootIsAnOperator(e: Expr, p: int)
    requires AreAtLeast(OpsOf(e), p) && e.Binary?
    ensures Priority(e.info.op) >= p
  {
    assert OpsOf(e)[|OpsOf(e.left)|] == e.info;
  }

  lemma JoinRespects(left: Expr, o: OpInfo, right: Expr)
    requires Respects(left) && Respects(right) && Priority(o.op) < LAST_LINE - 1
    requires AreAtLeast(OpsOf(left), Priority(o.op)) && AreAtLeast(OpsOf(right), Priority(o.op) + 1)
    ensures Respects(Binary(o, left, right))
  {
    hide OpsOf, Priority, AreAtLeast;
    PowIsLast(o.op);
    if left.Binary? { RootIsAnOperator(left, Priority(o.op)); }
    if right.Binary? { RootIsAnOperator(right, Priority(o.op) + 1); }
  }

  /** After the last operator of a line, only tighter ones follow. */
  lemma AfterTheLast(line: nat, ops: seq<OpInfo>)
    requires line <= LAST_LINE && AreAtLeast(ops, line - 1)
    ensures var k := LastOf(line, ops);
            AreAtLeast(ops[k + 1..], line) && (k >= 0 ==> Priority(ops[k].op) == line - 1 && AreAtLeast(ops[..k], line - 1))
  {
    hide Priority, IsOn, LastOf;
    var k := LastOf(line, ops);
    var after := ops[k + 1..];
    forall i | 0 <= i < |after| ensures Priority(after[i].op) >= line {
      assert after[i] == ops[k + 1 + i] && !IsOn(line, ops[k + 1 + i]);
      LineIsPriority(after[i], line);
    }
    if k >= 0 {
      LineIsPriority(ops[k], line);
      BeforeIsAtLeast(ops, k, line - 1);
    }
  }

  lemma BeforeIsAtLeast(ops: seq<OpInfo>, k: nat, p: int)
    requires k <= |ops| && AreAtLeast(ops, p)
    ensures AreAtLeast(ops[..k], p)
  {
    hide Priority;
  }

  lemma {:induction false} LayeredIsFaithful(line: nat, xs: seq<Expr>, ops: seq<OpInfo>)
    requires line <= LAST_LINE && |xs| == |ops| + 1 && AreOperands(xs) && AreAtLeast(ops, line - 1)
    ensures var e := Layered(line, xs, ops); Operands(e) == xs && OpsOf(e) == ops && Respects(e)
    decreases |ops|, LAST_LINE - line
  {
    hide Priority, IsOn, LastOf, AreAtLeast, Respects, Layered, Operands, OpsOf, AreOperands;
    var k := LastOf(line, ops);
    if line == LAST_LINE {
      LastLineIsFaithful(xs, ops);
    } else if k < 0 {
      AfterTheLast(line, ops);
      assert ops[k + 1..] == ops;
      LayeredSkips(line, xs, ops);
      LayeredIsFaithful(line + 1, xs, ops);
    } else {
      LayeredSplits(line, xs, ops, k);
      AfterTheLast(line, ops);
      LayeredIsFaithful(line, xs[..k + 1], ops[..k]);
      LayeredIsFaithful(line + 1, xs[k + 1..], ops[k + 1..]);
      var left, right := Layered(line, xs[..k + 1], ops[..k]), Layered(line + 1, xs[k + 1..], ops[k + 1..]);
      JoinRespects(left, ops[k], right);
      JoinReads(left, right, xs, ops, k);
    }
  }

  lemma LayeredSkips(line: nat, xs: seq<Expr>, ops: seq<OpInfo>)
    requires line < LAST_LINE && |xs| == |ops| + 1 && LastOf(line, ops) < 0
    ensures Layered(line, xs, ops) == Layered(line + 1, xs, ops)
  {
    hide LastOf;
  }

  lemma LayeredSplits(line: nat, xs: seq<Expr>, ops: seq<OpInfo>, k: nat)
    requires line < LAST_LINE && |xs| == |ops| + 1 && AreOperands(xs) && k == LastOf(line, ops)
    ensures Layered(line, xs, ops) ==
            Binary(ops[k], Layered(line, xs[..k + 1], ops[..k]), Layered(line + 1, xs[k + 1..], ops[k + 1..]))
    ensures AreOperands(xs[..k + 1]) && AreOperands(xs[k + 1..])
  {
    hide LastOf;
  }

  lemma JoinReads(left: Expr, right: Expr, xs: seq<Expr>, ops: seq<OpInfo>, k: nat)
    requires k < |ops| == |xs| - 1
    requires Operands(left) == xs[..k + 1] && Operands(right) == xs[k + 1..]
    requires OpsOf(left) == ops[..k] && OpsOf(right) == ops[k + 1..]
    ensures Operands(Binary(ops[k], left, right)) == xs && OpsOf(Binary(ops[k], left, right)) == ops
  {
    assert xs[..k + 1] + xs[k + 1..] == xs;
    assert ops[..k] + [ops[k]] + ops[k + 1..] == ops;
  }

  lemma PowIsLast(op: BinOp)
    ensures IsRightAssociative(op) <==> Priority(op) == LAST_LINE - 1
    ensures Priority(op) <= LAST_LINE - 1
  {
  }

  lemma {:induction false} LastLineIsFaithful(xs: seq<Expr>, ops: seq<OpInfo>)
    requires |xs| == |ops| + 1 && AreOperands(xs) && AreAtLeast(ops, LAST_LINE - 1)
    ensures var e := Layered(LAST_LINE, xs, ops); Operands(e) == xs && OpsOf(e) == ops && Respects(e)
    decreases |ops|
  {
    hide Priority;
    if ops != [] {
      LastLineIsFaithful(xs[1..], ops[1..]);
      var right := Layered(LAST_LINE, xs[1..], ops[1..]);
      PowIsLast(ops[0].op);
      if right.Binary? {
        RootIsAnOperator(right, LAST_LINE - 1);
        PowIsLast(right.info.op);
      }
    }
  }

  /** The rotation computes the parse of the documented grammar. */
  lemma FoldIsLayered(first: Expr, ops: seq<OpInfo>, xs: seq<Expr>)
    requires |ops| == |xs| && !first.Binary? && AreOperands(xs)
    ensures Fold(first, ops, xs) == Layered(0, [first] + xs, ops)
  {
    LayeredIsFaithful(0, [first] + xs, ops);
    FoldIsFaithful(first, ops, xs);
    RespectingTreeIsUnique(Fold(first, ops, xs), Layered(0, [first] + xs, ops));
  }
}
