/** Folding of y and n, structural equality up to reordering, and cancellation of common
    operands.  Two rewritten trees and the number of rewrites travel together because the
    original changes both trees in place while it counts in a global. */
module KconfigEliminate {
  import opened KconfigExpr

  // ----- Folding of y and n -----

  function EliminateYn(e: Expr): (r: Expr)
    ensures Size(r) <= Size(e)
  {
    if !e.Binary? then e
    else
      var l, r := EliminateYn(e.left), EliminateYn(e.right);
      var absorbing := if e.op == OrOp then Ref(Yes) else Ref(No);
      if l == absorbing then absorbing
      else if l == Neutral(e.op) then r
      else if r == absorbing then absorbing
      else if r == Neutral(e.op) then l
      else Binary(e.op, l, r)
  }

  lemma {:induction false} EliminateYnValue(e: Expr, v: Valuation)
    ensures Calc(EliminateYn(e), v) == Calc(e, v)
  {
    if e.Binary? {
      EliminateYnValue(e.left, v);
      EliminateYnValue(e.right, v);
    }
  }

  lemma {:induction false} EliminateYnKeeps(e: Expr, v: Valuation)
    ensures Nnf(e) ==> Nnf(EliminateYn(e))
    ensures PlainConstants(v, e) ==> PlainConstants(v, EliminateYn(e))
  {
    if e.Binary? {
      EliminateYnKeeps(e.left, v);
      EliminateYnKeeps(e.right, v);
    }
  }

  predicate IsYesOrNo(e: Expr) {
    e == Ref(Yes) || e == Ref(No)
  }

  /** Some operator outside every negation has y or n as an operand. */
  predicate Reducible(e: Expr) {
    e.Binary? &&
    (IsYesOrNo(e.left) || IsYesOrNo(e.right) || Reducible(e.left) || Reducible(e.right))
  }

  /** Folding removes a node exactly when there is an operand y or n to remove, and it
      leaves none behind. */
  lemma {:induction false} EliminateYnShrinks(e: Expr)
    ensures !Reducible(EliminateYn(e))
    ensures if Reducible(e) then Size(EliminateYn(e)) < Size(e) else EliminateYn(e) == e
  {
    if e.Binary? {
      EliminateYnShrinks(e.left);
      EliminateYnShrinks(e.right);
    }
  }

  // ----- Equality and cancellation -----

  datatype Trees = Trees(a: Expr, b: Expr, hits: nat)

  /** Compares every leaf of a with every leaf of b, a leaf being a node whose operator is
      not op, and makes both leaves neutral when they are equal. */
  function CancelEqual(op: Op, a: Expr, b: Expr): (r: Trees)
    ensures Size(r.a) <= Size(a) && Size(r.b) <= Size(b)
    ensures (IsOp(r.a, op) <==> IsOp(a, op)) && (IsOp(r.b, op) <==> IsOp(b, op))
    decreases Size(a) + Size(b), if IsOp(a, op) || IsOp(b, op) then 0 else 4
  {
    if IsOp(a, op) then
      var s := CancelEqual(op, a.left, b);
      var t := CancelEqual(op, a.right, s.b);
      Trees(Binary(op, s.a, t.a), t.b, s.hits + t.hits)
    else if IsOp(b, op) then
      var s := CancelEqual(op, a, b.left);
      var t := CancelEqual(op, s.a, b.right);
      Trees(t.a, Binary(op, s.b, t.b), s.hits + t.hits)
    else if a == b && IsYesOrNo(a) then Trees(a, b, 0)
    else if !Eq(a, b) then Trees(a, b, 0)
    else Trees(Neutral(op), Neutral(op), 1)
  }

  /** First under the operator of a, then under the operator of b if it is another one. */
  function CancelLevels(a: Expr, b: Expr): (r: Trees)
    ensures Size(r.a) <= Size(a) && Size(r.b) <= Size(b)
    decreases Size(a) + Size(b), 1
  {
    var s := if a.Binary? then CancelEqual(a.op, a, b) else Trees(a, b, 0);
    if s.b.Binary? && !IsOp(s.a, s.b.op) then
      var t := CancelEqual(s.b.op, s.a, s.b);
      t.(hits := s.hits + t.hits)
    else s
  }

  /** What is left of both sides once equal operands, and then neutral ones, are gone. */
  function EliminateEq(a: Expr, b: Expr): (r: Trees)
    ensures Size(r.a) <= Size(a) && Size(r.b) <= Size(b)
    decreases Size(a) + Size(b), 2
  {
    var s := CancelLevels(a, b);
    Trees(EliminateYn(s.a), EliminateYn(s.b), s.hits)
  }

  /** Equality after minor simplification: two operators are equal when cancelling their
      common operands leaves the same single symbol on both sides. */
  predicate Eq(a: Expr, b: Expr)
    decreases Size(a) + Size(b), 3
  {
    match a
    case Compare(_, _, _) => a == b
    case Ref(_) => a == b
    case Not(x) => b.Not? && Eq(x, b.arg)
    case Binary(op, _, _) =>
      IsOp(b, op) &&
      var r := EliminateEq(a, b);
      r.a.Ref? && r.a == r.b
  }

  // ----- Soundness -----

  /** Cancelling splits off one common factor c: each side was its remainder joined with c. */
  ghost predicate CommonFactor(op: Op, a: Expr, b: Expr, r: Trees, c: Tri, v: Valuation) {
    Calc(a, v) == OpValue(op, Calc(r.a, v), c) && Calc(b, v) == OpValue(op, Calc(r.b, v), c)
  }

  lemma {:induction false} CancelEqualFactor(op: Op, a: Expr, b: Expr, v: Valuation) returns (c: Tri)
    ensures CommonFactor(op, a, b, CancelEqual(op, a, b), c, v)
    decreases Size(a) + Size(b), if IsOp(a, op) || IsOp(b, op) then 0 else 4
  {
    if IsOp(a, op) {
      c := FactorOfLeft(op, a, b, v);
    } else if IsOp(b, op) {
      c := FactorOfRight(op, a, b, v);
    } else if !(a == b && IsYesOrNo(a)) && Eq(a, b) {
      EqSound(a, b, v);
      c := Calc(a, v);
    } else {
      c := TriValue(v, Neutral(op).sym);
    }
  }

  lemma {:induction false} FactorOfLeft(op: Op, a: Expr, b: Expr, v: Valuation) returns (c: Tri)
    requires IsOp(a, op)
    ensures CommonFactor(op, a, b, CancelEqual(op, a, b), c, v)
    decreases Size(a) + Size(b), 0, 0
  {
    var s := CancelEqual(op, a.left, b);
    var t := CancelEqual(op, a.right, s.b);
    var c1 := CancelEqualFactor(op, a.left, b, v);
    var c2 := CancelEqualFactor(op, a.right, s.b, v);
    c := OpValue(op, c1, c2);
    assert CancelEqual(op, a, b).a == Binary(op, s.a, t.a);
    JoinFactors(op, Calc(s.a, v), Calc(t.a, v), c1, c2);
    JoinFactors(op, Calc(t.b, v), Calc(t.b, v), c1, c2);
  }

  lemma {:induction false} FactorOfRight(op: Op, a: Expr, b: Expr, v: Valuation) returns (c: Tri)
    requires !IsOp(a, op) && IsOp(b, op)
    ensures CommonFactor(op, a, b, CancelEqual(op, a, b), c, v)
    decreases Size(a) + Size(b), 0, 0
  {
    var s := CancelEqual(op, a, b.left);
    var t := CancelEqual(op, s.a, b.right);
    var c1 := CancelEqualFactor(op, a, b.left, v);
    var c2 := CancelEqualFactor(op, s.a, b.right, v);
    c := OpValue(op, c1, c2);
    assert CancelEqual(op, a, b).b == Binary(op, s.b, t.b);
    JoinFactors(op, Calc(s.b, v), Calc(t.b, v), c1, c2);
    JoinFactors(op, Calc(t.a, v), Calc(t.a, v), c1, c2);
  }

  lemma JoinFactors(op: Op, x: Tri, y: Tri, c: Tri, d: Tri)
    ensures OpValue(op, OpValue(op, x, c), OpValue(op, y, d)) == OpValue(op, OpValue(op, x, y), OpValue(op, c, d))
    ensures OpValue(op, OpValue(op, x, d), c) == OpValue(op, x, OpValue(op, c, d))
  {
  }

  /** Equality is sound: expressions it accepts have the same value under every valuation. */
  lemma {:induction false} EqSound(a: Expr, b: Expr, v: Valuation)
    requires Eq(a, b)
    ensures Calc(a, v) == Calc(b, v)
    decreases Size(a) + Size(b), 3
  {
    match a
    case Ref(_) =>
    case Compare(_, _, _) =>
    case Not(x) => EqSound(x, b.arg, v);
    case Binary(op, _, _) =>
      var s := CancelEqual(op, a, b);
      var c := CancelEqualFactor(op, a, b, v);
      assert CancelLevels(a, b) == s;
      EliminateYnValue(s.a, v);
      EliminateYnValue(s.b, v);
  }

  /** The superset test: when cancelling turns b into y, a never exceeds b. */
  lemma SupersetTest(a: Expr, b: Expr, v: Valuation)
    requires EliminateEq(a, b).b == Ref(Yes)
    ensures Calc(a, v) <= Calc(b, v)
  {
    var r := CancelLevels(a, b);
    EliminateYnValue(r.b, v);
    CancelLevelsMonotone(a, b, v);
  }

  lemma CancelLevelsMonotone(a: Expr, b: Expr, v: Valuation)
    requires Calc(CancelLevels(a, b).b, v) == 2
    ensures Calc(a, v) <= Calc(b, v)
  {
    var s := Trees(a, b, 0);
    if a.Binary? {
      s := CancelEqual(a.op, a, b);
      var c := CancelEqualFactor(a.op, a, b, v);
      assert Calc(s.a, v) <= Calc(s.b, v) ==> Calc(a, v) <= Calc(b, v);
    }
    if s.b.Binary? && !IsOp(s.a, s.b.op) {
      var d := CancelEqualFactor(s.b.op, s.a, s.b, v);
    }
  }
}
