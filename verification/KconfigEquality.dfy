/** What equality of expressions means on one level of an operator: the same operands, each as
    often. */
module KconfigEquality {
  import opened KconfigExpr
  import opened KconfigEliminate

  /** A symbol, a comparison, or the negation of one; y and n are not operands of interest, as
      they are folded away. */
  predicate Literal(e: Expr) {
    (e.Ref? && !IsYesOrNo(e)) || e.Compare? || (e.Not? && Literal(e.arg))
  }

  /** Literals joined by op. */
  predicate Level(op: Op, e: Expr) {
    if IsOp(e, op) then Level(op, e.left) && Level(op, e.right) else Literal(e)
  }

  /** The operands of one level, with how often each occurs. */
  function Operands(op: Op, e: Expr): multiset<Expr> {
    if IsOp(e, op) then Operands(op, e.left) + Operands(op, e.right) else multiset{e}
  }

  // ----- While operands are being cancelled -----

  /** A level in which some operands have been made neutral. */
  predicate PartLevel(op: Op, e: Expr) {
    if IsOp(e, op) then PartLevel(op, e.left) && PartLevel(op, e.right)
    else Literal(e) || e == Neutral(op)
  }

  function Remaining(op: Op, e: Expr): multiset<Expr> {
    if IsOp(e, op) then Remaining(op, e.left) + Remaining(op, e.right)
    else if e == Neutral(op) then multiset{} else multiset{e}
  }

  lemma {:induction false} LevelIsPart(op: Op, e: Expr)
    requires Level(op, e)
    ensures PartLevel(op, e) && Remaining(op, e) == Operands(op, e)
  {
    if IsOp(e, op) {
      LevelIsPart(op, e.left);
      LevelIsPart(op, e.right);
    }
  }

  lemma Differences(a: multiset<Expr>, b: multiset<Expr>, c: multiset<Expr>)
    ensures (a - c) + (b - (c - a)) == (a + b) - c
    ensures (c - a) - b == c - (a + b)
  {
  }

  /** Each side keeps what the other does not have. */
  ghost predicate Apart(op: Op, a: Expr, b: Expr, c: Expr, d: Expr) {
    PartLevel(op, c) && PartLevel(op, d) &&
    Remaining(op, c) == Remaining(op, a) - Remaining(op, b) && Remaining(op, d) == Remaining(op, b) - Remaining(op, a)
  }

  lemma {:induction false} CancelRemaining(op: Op, a: Expr, b: Expr)
    requires PartLevel(op, a) && PartLevel(op, b)
    ensures Apart(op, a, b, CancelEqual(op, a, b).a, CancelEqual(op, a, b).b)
    decreases Size(a) + Size(b)
  {
    if IsOp(a, op) {
      var s := CancelEqual(op, a.left, b);
      CancelRemaining(op, a.left, b);
      CancelRemaining(op, a.right, s.b);
      ApartLeft(op, a.left, a.right, b, s, CancelEqual(op, a.right, s.b));
    } else if IsOp(b, op) {
      var s := CancelEqual(op, a, b.left);
      CancelRemaining(op, a, b.left);
      CancelRemaining(op, s.a, b.right);
      ApartRight(op, a, b.left, b.right, s, CancelEqual(op, s.a, b.right));
    } else {
      CancelLeaf(op, a, b, CancelEqual(op, a, b));
    }
  }

  lemma RemainingJoin(op: Op, l: Expr, m: Expr)
    ensures PartLevel(op, Binary(op, l, m)) <==> PartLevel(op, l) && PartLevel(op, m)
    ensures Remaining(op, Binary(op, l, m)) == Remaining(op, l) + Remaining(op, m)
  {
  }

  lemma ApartLeft(op: Op, l: Expr, m: Expr, b: Expr, s: Trees, t: Trees)
    requires Apart(op, l, b, s.a, s.b) && Apart(op, m, s.b, t.a, t.b)
    ensures Apart(op, Binary(op, l, m), b, Binary(op, s.a, t.a), t.b)
  {
    Differences(Remaining(op, l), Remaining(op, m), Remaining(op, b));
    RemainingJoin(op, l, m);
    RemainingJoin(op, s.a, t.a);
  }

  lemma ApartRight(op: Op, a: Expr, l: Expr, m: Expr, s: Trees, t: Trees)
    requires Apart(op, a, l, s.a, s.b) && Apart(op, s.a, m, t.a, t.b)
    ensures Apart(op, a, Binary(op, l, m), t.a, Binary(op, s.b, t.b))
  {
    Differences(Remaining(op, l), Remaining(op, m), Remaining(op, a));
    RemainingJoin(op, l, m);
    RemainingJoin(op, s.b, t.b);
  }

  lemma {:induction false} EqOfLiterals(a: Expr, b: Expr)
    requires (Literal(a) || IsYesOrNo(a)) && (Literal(b) || IsYesOrNo(b))
    ensures Eq(a, b) <==> a == b
  {
    if a.Not? && b.Not? {
      EqOfLiterals(a.arg, b.arg);
    }
  }

  lemma LeafResult(op: Op, a: Expr, b: Expr)
    requires !IsOp(a, op) && !IsOp(b, op)
    ensures
      var hit := Eq(a, b) && !(a == b && IsYesOrNo(a));
      CancelEqual(op, a, b) == if hit then Trees(Neutral(op), Neutral(op), 1) else Trees(a, b, 0)
  {
  }

  lemma RemainingLeaf(op: Op, e: Expr)
    requires !IsOp(e, op)
    ensures Remaining(op, e) == if e == Neutral(op) then multiset{} else multiset{e}
    ensures Remaining(op, Neutral(op)) == multiset{} && PartLevel(op, Neutral(op))
  {
  }

  lemma CancelLeaf(op: Op, a: Expr, b: Expr, r: Trees)
    requires !IsOp(a, op) && !IsOp(b, op) && PartLevel(op, a) && PartLevel(op, b) && r == CancelEqual(op, a, b)
    ensures Apart(op, a, b, r.a, r.b)
  {
    EqOfLiterals(a, b);
    LeafResult(op, a, b);
    RemainingLeaf(op, a);
    RemainingLeaf(op, b);
    ApartLeaves(op, a, b, r.a, r.b);
  }

  lemma ApartLeaves(op: Op, a: Expr, b: Expr, c: Expr, d: Expr)
    requires PartLevel(op, a) && PartLevel(op, b)
    requires Remaining(op, a) == if a == Neutral(op) then multiset{} else multiset{a}
    requires Remaining(op, b) == if b == Neutral(op) then multiset{} else multiset{b}
    requires if a == b then c == d == Neutral(op) else c == a && d == b
    ensures Apart(op, a, b, c, d)
  {
  }

  /** Folding takes the neutral operands away and leaves the others. */
  lemma {:induction false} FoldRemaining(op: Op, e: Expr)
    requires PartLevel(op, e)
    ensures
      var f := EliminateYn(e);
      if f == Neutral(op) then Remaining(op, e) == multiset{}
      else PartLevel(op, f) && Remaining(op, f) == Remaining(op, e) && |Remaining(op, e)| > 0
  {
    if IsOp(e, op) {
      FoldRemaining(op, e.left);
      FoldRemaining(op, e.right);
      var l, r := EliminateYn(e.left), EliminateYn(e.right);
      assert !IsYesOrNo(l) || l == Neutral(op);
      assert !IsYesOrNo(r) || r == Neutral(op);
    }
  }

  lemma NothingLeft(a: multiset<Expr>, b: multiset<Expr>)
    ensures a - b == multiset{} && b - a == multiset{} <==> a == b
    ensures a - b == b - a <==> a == b
  {
    if a - b == b - a {
      forall x ensures a[x] == b[x] {
        assert (a - b)[x] == (b - a)[x];
      }
      assert a == b;
    }
  }

  /** On one level expressions are equal exactly when they have the same operands, each as often,
      in whatever order and grouping. */
  lemma EqExactly(op: Op, a: Expr, b: Expr)
    requires IsOp(a, op) && IsOp(b, op) && Level(op, a) && Level(op, b)
    ensures Eq(a, b) <==> Operands(op, a) == Operands(op, b)
  {
    var s := CancelEqual(op, a, b);
    LevelIsPart(op, a);
    LevelIsPart(op, b);
    CancelRemaining(op, a, b);
    assert CancelLevels(a, b) == s;
    FoldRemaining(op, s.a);
    FoldRemaining(op, s.b);
    var f, g := EliminateYn(s.a), EliminateYn(s.b);
    NothingLeft(Operands(op, a), Operands(op, b));
    assert Eq(a, b) <==> f.Ref? && f == g;
  }

  // ----- The reading of the comment -----

  /** Every operand of one is an operand of the other. */
  ghost predicate SameSet(op: Op, a: Expr, b: Expr) {
    forall x :: x in Operands(op, a) <==> x in Operands(op, b)
  }

  ghost predicate Different(op: Op, e: Expr) {
    forall x :: x in Operands(op, e) ==> Operands(op, e)[x] == 1
  }

  /** That every operand of one equals some operand of the other is enough when the operands of
      each side are pairwise different. */
  lemma EqOfDifferent(op: Op, a: Expr, b: Expr)
    requires IsOp(a, op) && IsOp(b, op) && Level(op, a) && Level(op, b) && Different(op, a) && Different(op, b)
    ensures Eq(a, b) <==> SameSet(op, a, b)
  {
    EqExactly(op, a, b);
    if SameSet(op, a, b) {
      forall x ensures Operands(op, a)[x] == Operands(op, b)[x] {
        assert x in Operands(op, a) <==> x in Operands(op, b);
      }
    }
  }

  /** In general it is enough exactly when every operand occurs as often on both sides. */
  lemma EqOfSameSet(op: Op, a: Expr, b: Expr)
    requires IsOp(a, op) && IsOp(b, op) && Level(op, a) && Level(op, b) && SameSet(op, a, b)
    ensures Eq(a, b) <==> forall x :: x in Operands(op, a) ==> Operands(op, a)[x] == Operands(op, b)[x]
  {
    EqExactly(op, a, b);
    if forall x :: x in Operands(op, a) ==> Operands(op, a)[x] == Operands(op, b)[x] {
      forall x ensures Operands(op, a)[x] == Operands(op, b)[x] {
        assert x in Operands(op, a) <==> x in Operands(op, b);
      }
      assert Operands(op, a) == Operands(op, b);
    }
  }

  /** A && A && A and A && A have the same operands, and are not equal. */
  lemma RepetitionMatters(s: Symbol)
    requires s != Yes && s != No
    ensures
      var two := Binary(AndOp, Ref(s), Ref(s));
      var three := Binary(AndOp, two, Ref(s));
      SameSet(AndOp, three, two) && !Eq(three, two)
  {
    var one := Ref(s);
    var two := Binary(AndOp, one, one);
    var three := Binary(AndOp, two, one);
    assert !IsOp(one, AndOp) && Level(AndOp, one) && Operands(AndOp, one) == multiset{one};
    SetOfPair(one, two);
    SetOfPair(two, three);
    EqExactly(AndOp, three, two);
    assert Operands(AndOp, three)[one] == 3;
  }

  lemma SetOfPair(e: Expr, f: Expr)
    requires Level(AndOp, e) && f.Binary? && f == Binary(AndOp, e, f.right) && Level(AndOp, f.right) && !f.right.Binary?
    ensures Level(AndOp, f) && Operands(AndOp, f) == Operands(AndOp, e) + multiset{f.right}
  {
  }
}
