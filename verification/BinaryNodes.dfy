/** The rotation of Operators.Balance as the parser performs it: by
    reassigning the child pointers of heap nodes. */
module BinaryNodes {
  import opened Syntax
  import opened Operators

  /** A child: another operator node, or any other expression. */
  datatype Ref = Operand(e: Expr) | Pointer(node: BinaryOpExpr)

  ghost function Footprint(r: Ref): set<object>
    reads if r.Pointer? then {r.node} else {}
  {
    if r.Pointer? then r.node.Repr else {}
  }

  class BinaryOpExpr {
    var info: OpInfo
    var left: Ref
    var right: Ref
    ghost var Repr: set<object>

    /** The nodes below this one form a tree. */
    ghost predicate Valid()
      reads this, Repr
      decreases Repr
    {
      && this in Repr
      && (left.Operand? ==> !left.e.Binary?)
      && (left.Pointer? ==> left.node in Repr && left.node.Repr <= Repr && this !in left.node.Repr && left.node.Valid())
      && (right.Operand? ==> !right.e.Binary?)
      && (right.Pointer? ==> right.node in Repr && right.node.Repr <= Repr && this !in right.node.Repr && right.node.Valid())
      && Footprint(left) !! Footprint(right)
    }

    ghost function View(): (e: Expr)
      requires Valid()
      reads this, Repr
      ensures e.Binary?
      decreases Repr
    {
      Binary(info, if left.Pointer? then left.node.View() else left.e, if right.Pointer? then right.node.View() else right.e)
    }

    constructor (info: OpInfo, left: Ref, operand: Expr)
      requires !operand.Binary?
      requires match left { case Operand(e) => !e.Binary? case Pointer(n) => n.Valid() }
      ensures Valid() && this.info == info && this.left == left && this.right == Operand(operand)
      ensures Repr == {this} + Footprint(left)
    {
      this.info, this.left, this.right := info, left, Operand(operand);
      Repr := {this} + Footprint(left);
    }
  }

  /** Hangs the right child of `bel` in the place of `bel` under `be`. */
  method Detach(be: BinaryOpExpr, bel: BinaryOpExpr)
    requires be.Valid() && be.left == Pointer(bel)
    modifies be
    ensures be.Valid() && be.info == old(be.info)
    ensures be.View() == Binary(be.info, bel.View().right, old(be.View()).right)
    ensures bel.Valid() && bel.Repr <= old(be.Repr)
    ensures be.Repr == old(be.Repr) - {bel} - Footprint(bel.left)
    ensures {bel} + Footprint(bel.left) !! be.Repr && bel !in Footprint(bel.left)
    ensures be.Repr + {bel} + Footprint(bel.left) == old(be.Repr)
    ensures match bel.left { case Operand(e) => !e.Binary? case Pointer(n) => n.Valid() && allocated(n) && allocated(n.Repr) }
  {
    assert be.right.Pointer? ==> be.right.node.Valid() && be !in be.right.node.Repr;
    be.left := bel.right;
    be.Repr := be.Repr - {bel} - Footprint(bel.left);
    assert bel.Valid();
    assert be.left.Pointer? ==> be.left.node.Valid() && be.left.node.View() == old(bel.right.node.View());
    assert be.right.Pointer? ==> be.right.node.Valid() && be.right.node.View() == old(be.right.node.View());
    assert Footprint(be.left) !! Footprint(be.right);
    assert be.Valid();
  }

  /** Makes `sub` the right child of `bel`. */
  method Adopt(bel: BinaryOpExpr, sub: BinaryOpExpr)
    requires sub.Valid() && {bel} + Footprint(bel.left) !! sub.Repr
    requires bel !in Footprint(bel.left)
    requires match bel.left { case Operand(e) => !e.Binary? case Pointer(n) => n.Valid() }
    modifies bel
    ensures bel.Valid() && bel.Repr == {bel} + old(Footprint(bel.left)) + sub.Repr
    ensures bel.info == old(bel.info) && bel.left == old(bel.left)
    ensures bel.View() == Binary(bel.info, if bel.left.Pointer? then old(bel.left.node.View()) else bel.left.e, old(sub.View()))
  {
    bel.right := Pointer(sub);
    bel.Repr := {bel} + Footprint(bel.left) + sub.Repr;
    assert sub.Valid();
    assert bel.left.Pointer? ==> bel.left.node.Valid();
  }

  /** balanceBinaryOp: no node is created or lost, and the tree becomes the
      rotated one. */
  method BalanceBinaryOp(be: BinaryOpExpr) returns (r: BinaryOpExpr)
    requires be.Valid()
    modifies be.Repr
    ensures r.Valid() && r.Repr == old(be.Repr)
    ensures r.View() == Balance(old(be.View()).left, old(be.info), old(be.View()).right)
    decreases be.Repr, 1
  {
    if be.left.Operand? {
      return be;
    }
    var lp, rp := Priority(be.left.node.info.op), Priority(be.info.op);
    if rp < lp {
      return be;
    }
    if rp == lp && !IsRightAssociative(be.info.op) {
      return be;
    }
    r := Rotate(be, be.left.node);
  }

  method Rotate(be: BinaryOpExpr, bel: BinaryOpExpr) returns (r: BinaryOpExpr)
    requires be.Valid() && be.left == Pointer(bel)
    modifies be.Repr
    ensures r.Valid() && r.Repr == old(be.Repr)
    ensures r.View() == Binary(old(bel.info), old(bel.View()).left,
                               Balance(old(bel.View()).right, old(be.info), old(be.View()).right))
    decreases be.Repr, 0
  {
    hide Balance, Priority;
    Detach(be, bel);
    label Detached:
    r := BalanceBinaryOp(be);
    assert bel.left.Pointer? ==> unchanged@Detached(bel.left.node.Repr) && bel.left.node.Valid();
    Adopt(bel, r);
    r := bel;
  }

  ghost predicate ValidRef(r: Ref)
    reads if r.Pointer? then {r.node} + r.node.Repr else {}
  {
    match r case Operand(e) => !e.Binary? case Pointer(node) => node.Valid()
  }

  ghost function RefView(r: Ref): Expr
    requires ValidRef(r)
    reads if r.Pointer? then {r.node} + r.node.Repr else {}
  {
    match r case Operand(e) => e case Pointer(node) => node.View()
  }

  /** The loop of parseExpr once its operators and operands are read: a new
      node for every operator, put in place by rotation. The nodes make up the
      tree that Fold describes. */
  method FoldOperations(first: Expr, ops: seq<OpInfo>, xs: seq<Expr>) returns (r: Ref)
    requires |ops| == |xs| && !first.Binary? && AreOperands(xs)
    ensures ValidRef(r) && RefView(r) == Fold(first, ops, xs)
    ensures fresh(Footprint(r))
  {
    hide Balance;
    r := Operand(first);
    for i := 0 to |ops|
      invariant ValidRef(r) && fresh(Footprint(r))
      invariant RefView(r) == Fold(first, ops[..i], xs[..i])
    {
      var be := new BinaryOpExpr(ops[i], r, xs[i]);
      assert be.View().left == Fold(first, ops[..i], xs[..i]);
      var node := BalanceBinaryOp(be);
      r := Pointer(node);
      assert ops[..i + 1][..i] == ops[..i] && xs[..i + 1][..i] == xs[..i];
    }
    assert ops[..|ops|] == ops && xs[..|xs|] == xs;
  }
}
