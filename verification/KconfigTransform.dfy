/** Normalisation of expressions, the comparison-related rewritings, and how a menu's
    dependency is put together from them. */
module KconfigTransform {
  import opened KconfigExpr
  import opened KconfigEliminate
  import opened KconfigDups
  import opened Wrappers

  // ----- expr_transform -----

  /** Negation weighs double, so that moving it inwards is progress. */
  ghost function Weight(e: Expr): (w: nat)
    ensures w >= 1
  {
    match e
    case Ref(_) => 1
    case Compare(_, _, _) => 2
    case Not(a) => 2 * Weight(a)
    case Binary(_, l, r) => 1 + Weight(l) + Weight(r)
  }

  function Opposite(rel: Relation): Relation {
    match rel
    case Equal => Unequal
    case Unequal => Equal
    case Less => GreaterEq
    case LessEq => Greater
    case Greater => LessEq
    case GreaterEq => Less
  }

  function OtherOp(op: Op): Op {
    if op == OrOp then AndOp else OrOp
  }

  /** The negation of op over l and r. */
  function DeMorgan(op: Op, l: Expr, r: Expr): (d: Expr)
    ensures Weight(d) == 1 + 2 * Weight(l) + 2 * Weight(r)
  {
    assert Weight(Not(l)) == 2 * Weight(l) && Weight(Not(r)) == 2 * Weight(r);
    Binary(OtherOp(op), Not(l), Not(r))
  }

  lemma DeMorganValue(op: Op, l: Expr, r: Expr, v: Valuation)
    ensures Calc(DeMorgan(op, l, r), v) == 2 - Calc(Binary(op, l, r), v)
  {
    assert Calc(Not(l), v) == 2 - Calc(l, v) && Calc(Not(r), v) == 2 - Calc(r, v);
  }

  function TransformComparison(rel: Relation, a: Symbol, b: Symbol): Expr {
    if a.Type() != Boolean then Compare(rel, a, b)
    else match rel
      case Equal =>
        if b == No then Not(Ref(a)) else if b == Mod then Ref(No) else if b == Yes then Ref(a) else Compare(rel, a, b)
      case Unequal =>
        if b == No then Ref(a) else if b == Mod then Ref(Yes) else if b == Yes then Not(Ref(a)) else Compare(rel, a, b)
      case _ => Compare(rel, a, b)
  }

  function Transform(e: Expr): (r: Expr)
    ensures Nnf(r) && Weight(r) <= Weight(e)
    decreases Weight(e)
  {
    match e
    case Ref(_) => e
    case Compare(rel, a, b) => TransformComparison(rel, a, b)
    case Binary(op, l, r) => Binary(op, Transform(l), Transform(r))
    case Not(a) =>
      var x := Transform(a);
      match x
      case Not(y) => Transform(y)
      case Compare(rel, s, t) => Compare(Opposite(rel), s, t)
      case Binary(op, l, r) => Transform(DeMorgan(op, l, r))
      case Ref(Yes) => Ref(No)
      case Ref(Mod) => Ref(Mod)
      case Ref(No) => Ref(Yes)
      case Ref(_) => Not(x)
  }

  lemma TransformComparisonValue(rel: Relation, a: Symbol, b: Symbol, v: Valuation)
    ensures Calc(TransformComparison(rel, a, b), v) == Calc(Compare(rel, a, b), v)
  {
    if a.Type() == Boolean { CompareAllThree(v, a); }
  }

  lemma {:induction false} TransformValue(e: Expr, v: Valuation)
    ensures Calc(Transform(e), v) == Calc(e, v)
    decreases Weight(e)
  {
    match e
    case Ref(_) =>
    case Compare(rel, a, b) =>
      TransformComparisonValue(rel, a, b, v);
    case Binary(op, l, r) =>
      TransformValue(l, v);
      TransformValue(r, v);
    case Not(a) =>
      TransformValue(a, v);
      var x := Transform(a);
      match x {
        case Not(y) => TransformValue(y, v);
        case Binary(op, l, r) =>
          TransformValue(DeMorgan(op, l, r), v);
          DeMorganValue(op, l, r, v);
        case _ =>
      }
  }

  /** Negation normal form without any comparison of a boolean symbol with y, m or n. */
  predicate Normal(e: Expr) {
    match e
    case Ref(_) => true
    case Compare(rel, a, b) => !(a.Type() == Boolean && IsTriConstant(b) && (rel == Equal || rel == Unequal))
    case Not(a) => a.Ref? && !IsTriConstant(a.sym)
    case Binary(_, l, r) => Normal(l) && Normal(r)
  }

  lemma {:induction false} TransformNormal(e: Expr)
    ensures Normal(Transform(e))
    decreases Weight(e)
  {
    match e
    case Ref(_) =>
    case Compare(_, _, _) =>
    case Binary(_, l, r) =>
      TransformNormal(l);
      TransformNormal(r);
    case Not(a) =>
      TransformNormal(a);
      match Transform(a) {
        case Not(y) => TransformNormal(y);
        case Binary(op, l, r) => TransformNormal(DeMorgan(op, l, r));
        case _ =>
      }
  }

  lemma {:induction false} TransformFixesNormal(e: Expr)
    requires Normal(e)
    ensures Transform(e) == e
    decreases e
  {
    match e
    case Binary(_, l, r) =>
      TransformFixesNormal(l);
      TransformFixesNormal(r);
    case _ =>
  }

  /** Transforming twice is transforming once. */
  lemma TransformIdempotent(e: Expr)
    ensures Transform(Transform(e)) == Transform(e)
  {
    TransformNormal(e);
    TransformFixesNormal(Transform(e));
  }

  lemma {:induction false} TransformKeepsConstants(e: Expr, v: Valuation)
    requires PlainConstants(v, e)
    ensures PlainConstants(v, Transform(e))
    decreases Weight(e)
  {
    match e
    case Ref(_) =>
    case Compare(_, _, _) =>
    case Binary(_, l, r) =>
      TransformKeepsConstants(l, v);
      TransformKeepsConstants(r, v);
    case Not(a) =>
      TransformKeepsConstants(a, v);
      match Transform(a) {
        case Not(y) => TransformKeepsConstants(y, v);
        case Binary(op, l, r) => TransformKeepsConstants(DeMorgan(op, l, r), v);
        case _ =>
      }
  }

  // ----- expr_trans_bool -----

  function TransBool(e: Expr): Expr {
    match e
    case Ref(_) => e
    case Not(a) => Not(TransBool(a))
    case Binary(op, l, r) => Binary(op, TransBool(l), TransBool(r))
    case Compare(rel, a, b) => if rel == Unequal && a.Type() == Tristate && b == No then Ref(a) else e
  }

  /** On a negation normal form the value can only drop from y to m, so whether it is n stays. */
  lemma {:induction false} TransBoolKeepsNo(e: Expr, v: Valuation)
    requires Nnf(e)
    ensures Calc(TransBool(e), v) <= Calc(e, v)
    ensures Calc(TransBool(e), v) == 0 <==> Calc(e, v) == 0
  {
    match e
    case Binary(_, l, r) =>
      TransBoolKeepsNo(l, v);
      TransBoolKeepsNo(r, v);
    case Compare(_, a, _) =>
      if a.Type() == Tristate { CompareAllThree(v, a); }
    case _ =>
  }

  /** Some tristate symbol is compared with n by !=. */
  predicate HasNotNo(e: Expr) {
    match e
    case Ref(_) => false
    case Not(a) => HasNotNo(a)
    case Binary(_, l, r) => HasNotNo(l) || HasNotNo(r)
    case Compare(rel, a, b) => rel == Unequal && a.Type() == Tristate && b == No
  }

  /** No such comparison is left, and without one nothing changes. */
  lemma {:induction false} TransBoolLeavesNone(e: Expr)
    ensures !HasNotNo(TransBool(e)) && (TransBool(e) == e <==> !HasNotNo(e))
  {
    match e
    case Not(a) => TransBoolLeavesNone(a);
    case Binary(_, l, r) =>
      TransBoolLeavesNone(l);
      TransBoolLeavesNone(r);
    case _ =>
  }

  /** Below a negation being n is not kept: !(A!=n) becomes !A, which differs exactly when A is m. */
  lemma TransBoolBelowNot(s: Symbol, v: Valuation)
    requires s.Type() == Tristate
    ensures
      var e := Not(Compare(Unequal, s, No));
      (Calc(TransBool(e), v) == 0 <==> Calc(e, v) == 0) <==> TriValue(v, s) != 1
  {
    CompareAllThree(v, s);
  }

  // ----- rewrite_m -----

  function RewriteM(e: Expr, modules: Symbol): Expr {
    match e
    case Ref(s) => if s == Mod then Binary(AndOp, e, Ref(modules)) else e
    case Not(a) => Not(RewriteM(a, modules))
    case Binary(op, l, r) => Binary(op, RewriteM(l, modules), RewriteM(r, modules))
    case Compare(_, _, _) => e
  }

  function ModAsNo(e: Expr): Expr {
    match e
    case Ref(s) => if s == Mod then Ref(No) else e
    case Not(a) => Not(ModAsNo(a))
    case Binary(op, l, r) => Binary(op, ModAsNo(l), ModAsNo(r))
    case Compare(_, _, _) => e
  }

  /** Without modules a bare m reads as n; with modules nothing changes. */
  lemma {:induction false} RewriteMValue(e: Expr, modules: Symbol, v: Valuation)
    ensures Calc(RewriteM(e, modules), v) == (if TriValue(v, modules) == 0 then Calc(ModAsNo(e), v) else Calc(e, v))
    ensures PlainConstants(v, e) ==> PlainConstants(v, RewriteM(e, modules))
  {
    match e
    case Not(a) => RewriteMValue(a, modules, v);
    case Binary(_, l, r) =>
      RewriteMValue(l, modules, v);
      RewriteMValue(r, modules, v);
    case _ =>
  }

  // ----- expr_trans_compare against n -----

  function TransCompareNo(e: Expr, rel: Relation): Expr
    requires rel == Equal || rel == Unequal
  {
    match e
    case Ref(s) => Compare(rel, s, No)
    case Compare(_, _, _) => if rel == Equal then Not(e) else e
    case Not(a) => TransCompareNo(a, Opposite(rel))
    case Binary(op, l, r) =>
      var b := Binary(OtherOp(op), TransCompareNo(l, Equal), TransCompareNo(r, Equal));
      if rel == Unequal then Not(b) else b
  }

  function TransCompareNoOpt(e: Option<Expr>, rel: Relation): Expr
    requires rel == Equal || rel == Unequal
  {
    match e
    case None => if rel == Unequal then Not(Ref(No)) else Ref(No)
    case Some(x) => TransCompareNo(x, rel)
  }

  /** Nothing negated is m, and each symbol has the text n exactly when it has the value n. */
  predicate TwoValued(e: Expr, v: Valuation) {
    match e
    case Ref(s) => CompareSymbols(v, s, No) == 0 <==> TriValue(v, s) == 0
    case Compare(_, _, _) => true
    case Not(a) => TwoValued(a, v) && Calc(a, v) != 1
    case Binary(_, l, r) => TwoValued(l, v) && TwoValued(r, v)
  }

  lemma {:induction false} TransCompareNoValue(e: Expr, rel: Relation, v: Valuation)
    requires rel == Equal || rel == Unequal
    requires TwoValued(e, v)
    ensures Calc(TransCompareNo(e, rel), v) == if (Calc(e, v) == 0) == (rel == Equal) then 2 else 0
  {
    match e
    case Not(a) => TransCompareNoValue(a, Opposite(rel), v);
    case Binary(_, l, r) =>
      TransCompareNoValue(l, Equal, v);
      TransCompareNoValue(r, Equal, v);
    case _ =>
  }

  lemma {:induction false} TransCompareNoConstants(e: Expr, rel: Relation, v: Valuation)
    requires rel == Equal || rel == Unequal
    requires PlainConstants(v, e)
    ensures PlainConstants(v, TransCompareNo(e, rel))
  {
    match e
    case Not(a) => TransCompareNoConstants(a, Opposite(rel), v);
    case Binary(_, l, r) =>
      TransCompareNoConstants(l, Equal, v);
      TransCompareNoConstants(r, Equal, v);
    case _ =>
  }

  /** The comparison misreads a negated tristate symbol exactly when the symbol is m. */
  lemma TransCompareNoNegated(s: Symbol, v: Valuation)
    requires TriTyped(s)
    ensures
      var e := Not(Ref(s));
      (Calc(TransCompareNo(e, Unequal), v) != 0 <==> Calc(e, v) != 0) <==> TriValue(v, s) != 1
  {
    CompareAllThree(v, s);
  }

  /** It misreads a symbol that was never given a type, whose text is its own name. */
  lemma TransCompareNoUntyped(name: string, v: Valuation)
    ensures
      var e := Ref(Sym(name, UnknownType, false));
      (Calc(TransCompareNo(e, Unequal), v) != 0 <==> Calc(e, v) != 0) <==> name == "n"
  {
    assert ParseNumber(v, "n", 0) == None;
  }

  // ----- Dependencies -----

  function AllocAnd(a: Option<Expr>, b: Option<Expr>): Option<Expr> {
    if a.None? then b else if b.None? then a else Some(Binary(AndOp, a.value, b.value))
  }

  predicate PlainOpt(v: Valuation, e: Option<Expr>) {
    e.Some? ==> PlainConstants(v, e.value)
  }

  /** The dependency of a child: its own, rewritten and normalised, joined to its parent's. */
  function PropagateDep(parent: Option<Expr>, dep: Option<Expr>, modules: Symbol): Option<Expr> {
    var own := if dep.Some? then Some(Transform(RewriteM(dep.value, modules))) else None;
    var both := AllocAnd(parent, own);
    if both.Some? then Some(EliminateDups(both.value)) else None
  }

  /** The condition of a property of a child that is not tristate. */
  function PropagateBoolDep(parent: Option<Expr>, dep: Option<Expr>, modules: Symbol): Option<Expr> {
    var d := PropagateDep(parent, dep, modules);
    if d.Some? then Some(TransBool(d.value)) else None
  }

  function OwnValue(dep: Option<Expr>, modules: Symbol, v: Valuation): Tri {
    if dep.None? then 2
    else if TriValue(v, modules) == 0 then Calc(ModAsNo(dep.value), v)
    else Calc(dep.value, v)
  }

  /** The whole chain of rewritings yields the lower of the two dependencies. */
  lemma PropagateDepValue(parent: Option<Expr>, dep: Option<Expr>, modules: Symbol, v: Valuation)
    requires PlainOpt(v, parent) && PlainOpt(v, dep)
    ensures CalcOpt(PropagateDep(parent, dep, modules), v) == OpValue(AndOp, CalcOpt(parent, v), OwnValue(dep, modules, v))
    ensures PlainOpt(v, PropagateDep(parent, dep, modules))
  {
    if dep.Some? {
      RewriteMValue(dep.value, modules, v);
      TransformValue(RewriteM(dep.value, modules), v);
      TransformKeepsConstants(RewriteM(dep.value, modules), v);
    }
    var own := if dep.Some? then Some(Transform(RewriteM(dep.value, modules))) else None;
    var both := AllocAnd(parent, own);
    if both.Some? {
      EliminateDupsMeaning(both.value, v);
    }
  }

  lemma PropagateDepNnf(parent: Option<Expr>, dep: Option<Expr>, modules: Symbol, v: Valuation)
    requires parent.Some? ==> Nnf(parent.value)
    ensures PropagateDep(parent, dep, modules).Some? ==> Nnf(PropagateDep(parent, dep, modules).value)
  {
    var own := if dep.Some? then Some(Transform(RewriteM(dep.value, modules))) else None;
    var both := AllocAnd(parent, own);
    if both.Some? {
      EliminateDupsMeaning(both.value, v);
    }
  }

  /** For a child that is not tristate the condition is n exactly when one of the two is n. */
  lemma PropagateBoolDepValue(parent: Option<Expr>, dep: Option<Expr>, modules: Symbol, v: Valuation)
    requires PlainOpt(v, parent) && PlainOpt(v, dep)
    requires parent.Some? ==> Nnf(parent.value)
    ensures CalcOpt(PropagateBoolDep(parent, dep, modules), v) == 0 <==>
            CalcOpt(parent, v) == 0 || OwnValue(dep, modules, v) == 0
  {
    PropagateDepValue(parent, dep, modules, v);
    PropagateDepNnf(parent, dep, modules, v);
    var d := PropagateDep(parent, dep, modules);
    if d.Some? { TransBoolKeepsNo(d.value, v); }
  }

  // ----- The automatic submenu test -----

  predicate ContainsSymbol(dep: Expr, s: Symbol) {
    match dep
    case Binary(_, l, r) => ContainsSymbol(l, s) || ContainsSymbol(r, s)
    case Ref(x) => x == s
    case Compare(_, a, b) => a == s || b == s
    case Not(a) => ContainsSymbol(a, s)
  }

  predicate DependsSymbol(dep: Expr, s: Symbol) {
    match dep
    case Binary(op, l, r) => op == AndOp && (DependsSymbol(l, s) || DependsSymbol(r, s))
    case Ref(x) => x == s
    case Compare(rel, a, b) => a == s && ((rel == Equal && (b == Yes || b == Mod)) || (rel == Unequal && b == No))
    case Not(_) => false
  }

  /** An expression that depends on a symbol is n whenever the symbol is n. */
  lemma {:induction false} DependsSymbolSound(dep: Expr, s: Symbol, v: Valuation)
    requires DependsSymbol(dep, s) && TriTyped(s)
    ensures TriValue(v, s) == 0 ==> Calc(dep, v) == 0
  {
    match dep
    case Binary(_, l, r) =>
      if DependsSymbol(l, s) { DependsSymbolSound(l, s, v); } else { DependsSymbolSound(r, s, v); }
    case Compare(_, _, _) => CompareAllThree(v, s);
    case _ =>
  }

  lemma {:induction false} DependsContains(dep: Expr, s: Symbol)
    requires DependsSymbol(dep, s)
    ensures ContainsSymbol(dep, s)
  {
    match dep
    case Binary(_, l, r) =>
      if DependsSymbol(l, s) { DependsContains(l, s); } else { DependsContains(r, s); }
    case _ =>
  }

  function NotNoForm(e: Option<Expr>): Expr {
    EliminateDups(Transform(TransCompareNoOpt(e, Unequal)))
  }

  /** Whether an entry with dependency dep, following an entry for s whose own condition is
      base, is nested below s. */
  predicate GoesInSubmenu(dep: Option<Expr>, s: Symbol, base: Option<Expr>) {
    dep.Some? && ContainsSymbol(dep.value, s) &&
    (DependsSymbol(dep.value, s) || EliminateEq(NotNoForm(dep), NotNoForm(base)).b == Ref(Yes))
  }

  lemma NotNoFormValue(e: Option<Expr>, v: Valuation)
    requires PlainOpt(v, e) && (e.Some? ==> TwoValued(e.value, v))
    ensures Calc(NotNoForm(e), v) == if CalcOpt(e, v) == 0 then 0 else 2
  {
    var c := TransCompareNoOpt(e, Unequal);
    if e.Some? {
      TransCompareNoValue(e.value, Unequal, v);
      TransCompareNoConstants(e.value, Unequal, v);
    }
    TransformValue(c, v);
    TransformKeepsConstants(c, v);
    EliminateDupsMeaning(Transform(c), v);
  }

  /** An entry is nested below s only if, whenever the entry is not n, either s is not n or
      the condition s itself stands under is not n. */
  lemma GoesInSubmenuSound(dep: Option<Expr>, s: Symbol, base: Option<Expr>, v: Valuation)
    requires GoesInSubmenu(dep, s, base) && TriTyped(s)
    requires PlainOpt(v, dep) && PlainOpt(v, base)
    requires TwoValued(dep.value, v) && (base.Some? ==> TwoValued(base.value, v))
    ensures CalcOpt(dep, v) != 0 ==> if DependsSymbol(dep.value, s) then TriValue(v, s) != 0 else CalcOpt(base, v) != 0
  {
    if DependsSymbol(dep.value, s) {
      DependsSymbolSound(dep.value, s, v);
    } else {
      NotNoFormValue(dep, v);
      NotNoFormValue(base, v);
      SupersetTest(NotNoForm(dep), NotNoForm(base), v);
    }
  }
}
