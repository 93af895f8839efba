/** When an entry goes into the submenu of a symbol before it: by an operand of its dependency, or
    because the dependency has all the operands that the symbol's condition has. */
module KconfigDependence {
  import opened Wrappers
  import opened KconfigExpr
  import opened KconfigEliminate
  import opened KconfigEquality
  import opened KconfigDups
  import opened KconfigTransform

  /** The symbols that occur. */
  function Symbols(e: Expr): set<Symbol> {
    match e
    case Ref(s) => {s}
    case Compare(_, a, b) => {a, b}
    case Not(a) => Symbols(a)
    case Binary(_, l, r) => Symbols(l) + Symbols(r)
  }

  lemma {:induction false} ContainsExactly(e: Expr, s: Symbol)
    ensures ContainsSymbol(e, s) <==> s in Symbols(e)
  {
    match e
    case Not(a) => ContainsExactly(a, s);
    case Binary(_, l, r) =>
      ContainsExactly(l, s);
      ContainsExactly(r, s);
    case _ =>
  }

  /** s, s=y, s=m or s!=n. */
  predicate Asks(x: Expr, s: Symbol) {
    x in {Ref(s), Compare(Equal, s, Yes), Compare(Equal, s, Mod), Compare(Unequal, s, No)}
  }

  /** An operand of the conjunction. */
  predicate Operand(e: Expr, p: Path) {
    Spine(AndOp, e, p) && !IsOp(At(AndOp, e, p), AndOp)
  }

  lemma {:induction false} OperandDepends(e: Expr, s: Symbol, p: Path)
    requires Operand(e, p) && Asks(At(AndOp, e, p), s)
    ensures DependsSymbol(e, s)
  {
    if p != [] { OperandDepends(Child(e, p[0]), s, p[1..]); }
  }

  lemma {:induction false} DependsByOperand(e: Expr, s: Symbol) returns (p: Path)
    requires DependsSymbol(e, s)
    ensures Operand(e, p) && Asks(At(AndOp, e, p), s)
  {
    if IsOp(e, AndOp) {
      var b := !DependsSymbol(e.left, s);
      var q := DependsByOperand(Child(e, b), s);
      p := [b] + q;
      assert p[1..] == q;
    } else {
      p := [];
    }
  }

  /** An expression depends on a symbol exactly when one operand of its conjunction asks for it. */
  lemma DependsExactly(e: Expr, s: Symbol)
    ensures DependsSymbol(e, s) <==> exists p :: Operand(e, p) && Asks(At(AndOp, e, p), s)
  {
    if DependsSymbol(e, s) { var p := DependsByOperand(e, s); }
    if p :| Operand(e, p) && Asks(At(AndOp, e, p), s) { OperandDepends(e, s, p); }
  }

  /** Then the entry goes into the submenu of the symbol, whatever the symbol stands under. */
  lemma OperandGoesIn(dep: Expr, s: Symbol, base: Option<Expr>, p: Path)
    requires Operand(dep, p) && Asks(At(AndOp, dep, p), s)
    ensures GoesInSubmenu(Some(dep), s, base)
  {
    OperandDepends(dep, s, p);
    DependsContains(dep, s);
  }

  /** Cancelling takes all of b away when every operand of b is one of a, as often. */
  lemma SupersetFound(a: Expr, b: Expr)
    requires IsOp(a, AndOp) && Level(AndOp, a) && Level(AndOp, b) && Operands(AndOp, b) <= Operands(AndOp, a)
    ensures EliminateEq(a, b).b == Ref(Yes)
  {
    var s := CancelEqual(AndOp, a, b);
    LevelIsPart(AndOp, a);
    LevelIsPart(AndOp, b);
    CancelRemaining(AndOp, a, b);
    FoldRemaining(AndOp, s.b);
    assert Operands(AndOp, b) - Operands(AndOp, a) == multiset{};
    assert CancelLevels(a, b) == s by { LevelShape(b); }
  }

  lemma LevelShape(b: Expr)
    requires Level(AndOp, b)
    ensures b.Binary? ==> IsOp(b, AndOp)
  {
  }

  /** So an entry that contains the symbol and has all the operands of the symbol's condition goes
      into the submenu, both taken as "is not n". */
  lemma SupersetGoesIn(dep: Expr, s: Symbol, base: Option<Expr>)
    requires s in Symbols(dep)
    requires
      var a, b := NotNoForm(Some(dep)), NotNoForm(base);
      IsOp(a, AndOp) && Level(AndOp, a) && Level(AndOp, b) && Operands(AndOp, b) <= Operands(AndOp, a)
    ensures GoesInSubmenu(Some(dep), s, base)
  {
    ContainsExactly(dep, s);
    SupersetFound(NotNoForm(Some(dep)), NotNoForm(base));
  }
}
