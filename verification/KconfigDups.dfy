/** Removal of duplicate and redundant operands: the joining rules for two operands, the
    walk that tries them on every pair of leaves, and the loop that repeats the walk. */
module KconfigDups {
  import opened KconfigExpr
  import opened KconfigEliminate
  import opened Wrappers

  // ----- Joining two operands -----

  predicate Joinable(e: Expr) {
    e.Ref? || e.Not? || (e.Compare? && (e.rel == Equal || e.rel == Unequal))
  }

  /** The one boolean or tristate symbol both operands are about, if there is one. */
  function JoinSymbol(e1: Expr, e2: Expr): (r: Option<Symbol>)
    ensures r.Some? ==> TriTyped(r.value)
  {
    if !Joinable(e1) || !Joinable(e2) then None
    else if e1.Not? && (!Joinable(e1.arg) || e1.arg.Not?) then None
    else
      var tmp := if e1.Not? then e1.arg else e1;
      var sym1 := if tmp.Ref? then tmp.sym else tmp.lhs;
      if e2.Not? && !e2.arg.Ref? then None
      else
        var sym2 := if e2.Not? then e2.arg.sym else if e2.Ref? then e2.sym else e2.lhs;
        if sym1 != sym2 || !TriTyped(sym1) then None else Some(sym1)
  }

  predicate IsCompare(e: Expr, rel: Relation, c: Symbol) {
    e.Compare? && e.rel == rel && e.rhs == c
  }

  predicate BothCompare(e1: Expr, e2: Expr, rel: Relation, c: Symbol, d: Symbol) {
    (IsCompare(e1, rel, c) && IsCompare(e2, rel, d)) || (IsCompare(e1, rel, d) && IsCompare(e2, rel, c))
  }

  function JoinOr(e1: Expr, e2: Expr): Option<Expr> {
    if Eq(e1, e2) then Some(e1)
    else
      var js := JoinSymbol(e1, e2);
      if js.None? then None else JoinOrRule(js.value, e1, e2)
  }

  function JoinOrRule(s: Symbol, e1: Expr, e2: Expr): Option<Expr> {
    if s.Type() == Tristate && BothCompare(e1, e2, Equal, Yes, Mod) then Some(Compare(Unequal, s, No))
    else if s.Type() == Tristate && BothCompare(e1, e2, Equal, Yes, No) then Some(Compare(Unequal, s, Mod))
    else if s.Type() == Tristate && BothCompare(e1, e2, Equal, Mod, No) then Some(Compare(Unequal, s, Yes))
    else if s.Type() == Boolean &&
            ((e1.Not? && e1.arg.Ref? && e2.Ref?) || (e2.Not? && e2.arg.Ref? && e1.Ref?)) then Some(Ref(Yes))
    else None
  }

  predicate RefAndCompare(e1: Expr, e2: Expr, rel: Relation, c: Symbol) {
    (e1.Ref? && IsCompare(e2, rel, c)) || (e2.Ref? && IsCompare(e1, rel, c))
  }

  /** a='b' together with a!='c', both constants: a='b' unless they are the same constant. */
  function JoinEqualUnequal(s: Symbol, b: Symbol, c: Symbol): Expr {
    if b != c then Compare(Equal, s, b) else Ref(No)
  }

  function JoinAnd(e1: Expr, e2: Expr): Option<Expr> {
    if Eq(e1, e2) then Some(e1)
    else
      var js := JoinSymbol(e1, e2);
      if js.None? then None else JoinAndRule(js.value, e1, e2)
  }

  function JoinAndRule(s: Symbol, e1: Expr, e2: Expr): Option<Expr> {
    if RefAndCompare(e1, e2, Equal, Yes) then Some(Compare(Equal, s, Yes))
    else if RefAndCompare(e1, e2, Unequal, No) then Some(Ref(s))
    else if RefAndCompare(e1, e2, Unequal, Mod) then Some(Compare(Equal, s, Yes))
    else if s.Type() == Tristate && e1.Compare? && e2.Compare? then JoinComparisons(s, e1, e2)
    else None
  }

  function JoinComparisons(s: Symbol, e1: Expr, e2: Expr): Option<Expr>
    requires e1.Compare? && e2.Compare?
  {
    if e1.rel == Equal && e2.rel == Unequal && e1.rhs.Const() && e2.rhs.Const() then
      Some(JoinEqualUnequal(s, e1.rhs, e2.rhs))
    else if e1.rel == Unequal && e2.rel == Equal && e1.rhs.Const() && e2.rhs.Const() then
      Some(JoinEqualUnequal(s, e2.rhs, e1.rhs))
    else if BothCompare(e1, e2, Unequal, Yes, No) then Some(Compare(Equal, s, Mod))
    else if BothCompare(e1, e2, Unequal, Yes, Mod) then Some(Compare(Equal, s, No))
    else if BothCompare(e1, e2, Unequal, Mod, No) then Some(Compare(Equal, s, Yes))
    else None
  }

  function Join(op: Op, e1: Expr, e2: Expr): Option<Expr> {
    if op == OrOp then JoinOr(e1, e2) else JoinAnd(e1, e2)
  }

  lemma JoinOrValue(e1: Expr, e2: Expr, v: Valuation)
    requires JoinOr(e1, e2).Some?
    ensures Calc(JoinOr(e1, e2).value, v) == OpValue(OrOp, Calc(e1, v), Calc(e2, v))
  {
    if Eq(e1, e2) {
      EqSound(e1, e2, v);
    } else {
      var s := JoinSymbol(e1, e2).value;
      CompareAllThree(v, s);
      if s.Type() == Tristate {
        assert e1.Compare? && e2.Compare? && e1.lhs == s && e2.lhs == s;
      } else {
        assert Calc(Ref(s), v) != 1;
      }
    }
  }

  lemma CompareAllThree(v: Valuation, s: Symbol)
    requires TriTyped(s)
    ensures CompareSymbols(v, s, Yes) == 0 <==> TriValue(v, s) == 2
    ensures CompareSymbols(v, s, Mod) == 0 <==> TriValue(v, s) == 1
    ensures CompareSymbols(v, s, No) == 0 <==> TriValue(v, s) == 0
  {
    CompareWithTriConstant(v, s, Yes);
    CompareWithTriConstant(v, s, Mod);
    CompareWithTriConstant(v, s, No);
  }

  /** The rule for a='b' && a!='c' takes two constants for different values because they are
      different symbols.  It goes wrong when the symbol's value matches both. */
  predicate ConstantsClash(e1: Expr, e2: Expr, v: Valuation) {
    e1.Compare? && e2.Compare? && e1.lhs == e2.lhs && e1.lhs.Type() == Tristate &&
    ((e1.rel == Equal && e2.rel == Unequal) || (e1.rel == Unequal && e2.rel == Equal)) &&
    e1.rhs.Const() && e2.rhs.Const() && e1.rhs != e2.rhs &&
    CompareSymbols(v, e1.lhs, e1.rhs) == 0 && CompareSymbols(v, e1.lhs, e2.rhs) == 0
  }

  /** Joining under && keeps the value exactly when the two constants do not clash. */
  lemma JoinAndValue(e1: Expr, e2: Expr, v: Valuation)
    requires JoinAnd(e1, e2).Some?
    ensures Calc(JoinAnd(e1, e2).value, v) == OpValue(AndOp, Calc(e1, v), Calc(e2, v)) <==> !ConstantsClash(e1, e2, v)
  {
    if Eq(e1, e2) {
      EqSound(e1, e2, v);
    } else {
      var s := JoinSymbol(e1, e2).value;
      if e1.Compare? && e2.Compare? {
        JoinComparisonsValue(s, e1, e2, v);
      } else {
        CompareAllThree(v, s);
      }
    }
  }

  lemma JoinComparisonsValue(s: Symbol, e1: Expr, e2: Expr, v: Valuation)
    requires s.Type() == Tristate && e1.Compare? && e2.Compare? && e1.lhs == s && e2.lhs == s
    requires JoinComparisons(s, e1, e2).Some?
    ensures Calc(JoinComparisons(s, e1, e2).value, v) == OpValue(AndOp, Calc(e1, v), Calc(e2, v))
            <==> !ConstantsClash(e1, e2, v)
  {
    if e1.rel == Unequal && e2.rel == Unequal {
      CompareAllThree(v, s);
    }
  }

  /** Plain constants never clash. */
  lemma PlainConstantsNeverClash(e1: Expr, e2: Expr, v: Valuation)
    requires PlainConstants(v, e1) && PlainConstants(v, e2)
    ensures !ConstantsClash(e1, e2, v)
  {
    if ConstantsClash(e1, e2, v) {
      CompareAllThree(v, e1.lhs);
      if !IsTriConstant(e1.rhs) { PlainConstantNeverEqual(v, e1.lhs, e1.rhs); }
      if !IsTriConstant(e2.rhs) { PlainConstantNeverEqual(v, e1.lhs, e2.rhs); }
    }
  }

  /** The clash is real: with A=y, A="2" && A!=y is n, but it is joined into A="2", which is y. */
  lemma NumericConstantBreaksJoin(v: Valuation)
    requires v.number("2", 0) == Some(2) && v.tri(Sym("A", Tristate, false)) == 2
    ensures
      var a := Sym("A", Tristate, false);
      var e1, e2 := Compare(Equal, a, Sym("2", UnknownType, true)), Compare(Unequal, a, Yes);
      JoinAnd(e1, e2) == Some(e1) && Calc(Binary(AndOp, e1, e2), v) == 0 && Calc(e1, v) == 2
  {
    var a := Sym("A", Tristate, false);
    var two := Sym("2", UnknownType, true);
    CompareAllThree(v, a);
    assert "2"[0] == '2' && "y"[0] == 'y' && "m"[0] == 'm' && "n"[0] == 'n';
    assert ParseNumber(v, "2", 0) == Some(2);
    assert ParseString(v, TriName(2), Tristate) == KSigned(2);
    assert CompareSymbols(v, a, two) == 0;
    assert !Eq(Compare(Equal, a, two), Compare(Unequal, a, Yes));
  }

  lemma JoinOrForm(e1: Expr, e2: Expr, v: Valuation)
    requires JoinOr(e1, e2).Some?
    ensures Nnf(e1) ==> Nnf(JoinOr(e1, e2).value)
    ensures PlainConstants(v, e1) && PlainConstants(v, e2) ==> PlainConstants(v, JoinOr(e1, e2).value)
  {
  }

  lemma JoinAndForm(e1: Expr, e2: Expr, v: Valuation)
    requires JoinAnd(e1, e2).Some?
    ensures Nnf(e1) ==> Nnf(JoinAnd(e1, e2).value)
    ensures PlainConstants(v, e1) && PlainConstants(v, e2) ==> PlainConstants(v, JoinAnd(e1, e2).value)
  {
  }

  lemma JoinKeeps(op: Op, e1: Expr, e2: Expr, v: Valuation)
    requires Join(op, e1, e2).Some?
    ensures Nnf(e1) ==> Nnf(Join(op, e1, e2).value)
    ensures PlainConstants(v, e1) && PlainConstants(v, e2) ==> PlainConstants(v, Join(op, e1, e2).value)
    ensures PlainConstants(v, e1) && PlainConstants(v, e2) ==>
              Calc(Join(op, e1, e2).value, v) == OpValue(op, Calc(e1, v), Calc(e2, v))
  {
    var keep := PlainConstants(v, e1) && PlainConstants(v, e2);
    var j := Join(op, e1, e2).value;
    if op == OrOp {
      assert j == JoinOr(e1, e2).value;
      JoinOrForm(e1, e2, v);
      JoinOrValue(e1, e2, v);
    } else {
      assert j == JoinAnd(e1, e2).value;
      JoinAndForm(e1, e2, v);
      JoinAndValue(e1, e2, v);
      if keep { PlainConstantsNeverClash(e1, e2, v); }
    }
  }

  /** A join is a copy of the first operand or a single leaf. */
  lemma JoinShape(op: Op, e1: Expr, e2: Expr)
    requires Join(op, e1, e2).Some?
    ensures Join(op, e1, e2).value == e1 || !Join(op, e1, e2).value.Binary?
    ensures Join(op, e1, e2).value == e1 || Size(Join(op, e1, e2).value) == 1
  {
  }

  /** A neutral operand joins only with another one, and stays neutral. */
  lemma JoinNeutral(op: Op, e1: Expr, e2: Expr)
    requires Join(op, e1, e2).Some? && e2 == Neutral(op)
    ensures Join(op, e1, e2).value == Neutral(op)
  {
  }

  // ----- Slots -----

  // A slot is the address of an operand, given by the way to it: false is left, true is right.
  type Path = seq<bool>

  function Child(t: Expr, right: bool): Expr
    requires t.Binary?
  {
    if right then t.right else t.left
  }

  /** Every node above slot p is an operator op. */
  predicate Spine(op: Op, t: Expr, p: Path) {
    p == [] || (IsOp(t, op) && Spine(op, Child(t, p[0]), p[1..]))
  }

  function At(op: Op, t: Expr, p: Path): Expr
    requires Spine(op, t, p)
  {
    if p == [] then t else At(op, Child(t, p[0]), p[1..])
  }

  function Replace(op: Op, t: Expr, p: Path, x: Expr): Expr
    requires Spine(op, t, p)
  {
    if p == [] then x
    else if p[0] then Binary(op, t.left, Replace(op, t.right, p[1..], x))
    else Binary(op, Replace(op, t.left, p[1..], x), t.right)
  }

  /** The same operators op above the same leaves, whatever the leaves are. */
  predicate SameSpine(op: Op, t: Expr, u: Expr) {
    IsOp(t, op) == IsOp(u, op) &&
    (IsOp(t, op) ==> SameSpine(op, t.left, u.left) && SameSpine(op, t.right, u.right))
  }

  function SpineSize(op: Op, t: Expr): nat {
    if IsOp(t, op) then 1 + SpineSize(op, t.left) + SpineSize(op, t.right) else 0
  }

  lemma {:induction false} SameSpineReflexive(op: Op, t: Expr)
    ensures SameSpine(op, t, t)
  {
    if IsOp(t, op) {
      SameSpineReflexive(op, t.left);
      SameSpineReflexive(op, t.right);
    }
  }

  lemma {:induction false} SameSpineTransitive(op: Op, t: Expr, u: Expr, w: Expr)
    requires SameSpine(op, t, u) && SameSpine(op, u, w)
    ensures SameSpine(op, t, w)
  {
    if IsOp(t, op) {
      SameSpineTransitive(op, t.left, u.left, w.left);
      SameSpineTransitive(op, t.right, u.right, w.right);
    }
  }

  lemma {:induction false} SameSpineSize(op: Op, t: Expr, u: Expr)
    requires SameSpine(op, t, u)
    ensures SpineSize(op, t) == SpineSize(op, u)
  {
    if IsOp(t, op) {
      SameSpineSize(op, t.left, u.left);
      SameSpineSize(op, t.right, u.right);
    }
  }

  lemma {:induction false} SameSpineAt(op: Op, t: Expr, u: Expr, p: Path)
    requires SameSpine(op, t, u) && Spine(op, t, p)
    ensures Spine(op, u, p) && SameSpine(op, At(op, t, p), At(op, u, p))
    ensures SpineSize(op, At(op, t, p)) == SpineSize(op, At(op, u, p))
  {
    if p == [] {
      SameSpineSize(op, t, u);
    } else {
      SameSpineAt(op, Child(t, p[0]), Child(u, p[0]), p[1..]);
    }
  }

  lemma {:induction false} SpineStep(op: Op, t: Expr, p: Path, b: bool)
    requires Spine(op, t, p) && IsOp(At(op, t, p), op)
    ensures Spine(op, t, p + [b]) && At(op, t, p + [b]) == Child(At(op, t, p), b)
  {
    if p == [] {
      assert [b][1..] == [];
    } else {
      SpineStep(op, Child(t, p[0]), p[1..], b);
      assert (p + [b])[1..] == p[1..] + [b];
    }
  }

  /** Replacing a leaf by a leaf. */
  lemma {:induction false} ReplaceLeaf(op: Op, t: Expr, p: Path, x: Expr)
    requires Spine(op, t, p) && !IsOp(At(op, t, p), op) && !IsOp(x, op)
    ensures SameSpine(op, t, Replace(op, t, p, x))
    ensures Spine(op, Replace(op, t, p, x), p) && At(op, Replace(op, t, p, x), p) == x
    ensures Size(Replace(op, t, p, x)) == Size(t) - Size(At(op, t, p)) + Size(x)
  {
    if p != [] {
      ReplaceLeaf(op, Child(t, p[0]), p[1..], x);
      SameSpineReflexive(op, Child(t, !p[0]));
    }
  }

  lemma {:induction false} ReplaceOther(op: Op, t: Expr, p: Path, q: Path, x: Expr)
    requires Spine(op, t, p) && !IsOp(At(op, t, p), op) && !IsOp(x, op)
    requires Spine(op, t, q) && !IsOp(At(op, t, q), op) && p != q
    ensures Spine(op, Replace(op, t, p, x), q) && At(op, Replace(op, t, p, x), q) == At(op, t, q)
  {
    if p != [] && q != [] && p[0] == q[0] {
      ReplaceOther(op, Child(t, p[0]), p[1..], q[1..], x);
    }
  }

  lemma {:induction false} SlotSmaller(op: Op, t: Expr, p: Path)
    requires Spine(op, t, p)
    ensures Size(At(op, t, p)) <= Size(t) && (p != [] ==> Size(At(op, t, p)) < Size(t))
  {
    if p != [] {
      SlotSmaller(op, Child(t, p[0]), p[1..]);
    }
  }

  lemma {:induction false} ReplaceSame(op: Op, t: Expr, p: Path)
    requires Spine(op, t, p)
    ensures Replace(op, t, p, At(op, t, p)) == t
  {
    if p != [] {
      ReplaceSame(op, Child(t, p[0]), p[1..]);
    }
  }

  lemma {:induction false} ReplaceKeeps(op: Op, t: Expr, p: Path, x: Expr, v: Valuation)
    requires Spine(op, t, p)
    ensures Nnf(t) ==> Nnf(At(op, t, p))
    ensures Nnf(t) && Nnf(x) ==> Nnf(Replace(op, t, p, x))
    ensures PlainConstants(v, t) ==> PlainConstants(v, At(op, t, p))
    ensures PlainConstants(v, t) && PlainConstants(v, x) ==> PlainConstants(v, Replace(op, t, p, x))
  {
    if p != [] {
      ReplaceKeeps(op, Child(t, p[0]), p[1..], x, v);
    }
  }

  /** The value of everything under the operators op except slot p. */
  ghost function Rest(op: Op, t: Expr, p: Path, v: Valuation): Tri
    requires Spine(op, t, p)
  {
    if p == [] then TriValue(v, Neutral(op).sym)
    else OpValue(op, Calc(Child(t, !p[0]), v), Rest(op, Child(t, p[0]), p[1..], v))
  }

  lemma {:induction false} ReplaceValue(op: Op, t: Expr, p: Path, x: Expr, v: Valuation)
    requires Spine(op, t, p)
    ensures Calc(Replace(op, t, p, x), v) == OpValue(op, Calc(x, v), Rest(op, t, p, v))
  {
    if p != [] {
      ReplaceValue(op, Child(t, p[0]), p[1..], x, v);
    }
  }

  /** Two leaves may be replaced together by any two of the same joint value. */
  lemma {:induction false} ReplaceTwoValue(op: Op, t: Expr, p: Path, q: Path, x: Expr, y: Expr, v: Valuation)
    requires Spine(op, t, p) && !IsOp(At(op, t, p), op) && !IsOp(x, op)
    requires Spine(op, t, q) && !IsOp(At(op, t, q), op) && !IsOp(y, op)
    requires p != q
    requires OpValue(op, Calc(At(op, t, p), v), Calc(At(op, t, q), v)) == OpValue(op, Calc(x, v), Calc(y, v))
    ensures Spine(op, Replace(op, t, p, x), q)
    ensures Calc(Replace(op, Replace(op, t, p, x), q, y), v) == Calc(t, v)
  {
    ReplaceOther(op, t, p, q, x);
    if p[0] == q[0] {
      ReplaceTwoValue(op, Child(t, p[0]), p[1..], q[1..], x, y, v);
    } else {
      var l, r := Child(t, p[0]), Child(t, q[0]);
      SlotValue(op, l, p[1..], x, v);
      SlotValue(op, r, q[1..], y, v);
      Regroup(op, Calc(At(op, t, p), v), Calc(At(op, t, q), v), Calc(x, v), Calc(y, v),
              Rest(op, l, p[1..], v), Rest(op, r, q[1..], v));
    }
  }

  lemma SlotValue(op: Op, t: Expr, p: Path, x: Expr, v: Valuation)
    requires Spine(op, t, p)
    ensures Calc(Replace(op, t, p, x), v) == OpValue(op, Calc(x, v), Rest(op, t, p, v))
    ensures Calc(t, v) == OpValue(op, Calc(At(op, t, p), v), Rest(op, t, p, v))
  {
    ReplaceValue(op, t, p, x, v);
    ReplaceValue(op, t, p, At(op, t, p), v);
    ReplaceSame(op, t, p);
  }

  lemma Regroup(op: Op, a: Tri, b: Tri, x: Tri, y: Tri, c: Tri, d: Tri)
    requires OpValue(op, a, b) == OpValue(op, x, y)
    ensures OpValue(op, OpValue(op, a, c), OpValue(op, b, d)) == OpValue(op, OpValue(op, x, c), OpValue(op, y, d))
    ensures OpValue(op, OpValue(op, b, d), OpValue(op, a, c)) == OpValue(op, OpValue(op, y, d), OpValue(op, x, c))
  {
  }

  lemma {:induction false} SlotReducible(op: Op, t: Expr, p: Path)
    requires Spine(op, t, p) && p != []
    requires IsYesOrNo(At(op, t, p)) || Reducible(At(op, t, p))
    ensures Reducible(t)
  {
    if p[1..] == [] {
      assert At(op, t, p) == Child(t, p[0]);
    } else {
      SlotReducible(op, Child(t, p[0]), p[1..]);
    }
  }

  lemma {:induction false} ReplaceReducible(op: Op, t: Expr, p: Path, x: Expr)
    requires Spine(op, t, p) && Reducible(t)
    requires IsYesOrNo(At(op, t, p)) ==> IsYesOrNo(x)
    requires Reducible(At(op, t, p)) ==> Reducible(x)
    ensures Reducible(Replace(op, t, p, x))
  {
    if p != [] {
      var c := Child(t, p[0]);
      if Reducible(c) {
        ReplaceReducible(op, c, p[1..], x);
      } else if IsYesOrNo(c) {
        assert At(op, c, p[1..]) == c && Replace(op, c, p[1..], x) == x;
      }
    }
  }

  // ----- The walk -----

  datatype Walk = Walk(tree: Expr, hits: nat)

  /** Tries to join the leaves in two different slots: the first becomes neutral, the second
      takes the join. */
  function JoinSlots(op: Op, t: Expr, p1: Path, p2: Path): (r: Walk)
    requires Spine(op, t, p1) && !IsOp(At(op, t, p1), op)
    requires Spine(op, t, p2) && !IsOp(At(op, t, p2), op)
    requires p1 != p2
    ensures SameSpine(op, t, r.tree) && Size(r.tree) <= Size(t)
  {
    var e1, e2 := At(op, t, p1), At(op, t, p2);
    var j := Join(op, e1, e2);
    if j.None? then
      SameSpineReflexive(op, t);
      Walk(t, 0)
    else
      JoinShape(op, e1, e2);
      ReplaceLeaf(op, t, p1, Neutral(op));
      ReplaceOther(op, t, p1, p2, Neutral(op));
      var u := Replace(op, t, p1, Neutral(op));
      ReplaceLeaf(op, u, p2, j.value);
      SameSpineTransitive(op, t, u, Replace(op, u, p2, j.value));
      Walk(Replace(op, u, p2, j.value), 1)
  }

  /** Both slots are driven down to leaves, the first one outermost.  A leaf in the first slot
      that is the other operator is walked against itself before it is joined. */
  function EliminateDups1(op: Op, t: Expr, p1: Path, p2: Path): (r: Walk)
    requires Spine(op, t, p1) && Spine(op, t, p2)
    ensures SameSpine(op, t, r.tree) && Size(r.tree) <= Size(t)
    decreases Size(t), SpineSize(op, At(op, t, p1)) + SpineSize(op, At(op, t, p2))
  {
    if IsOp(At(op, t, p1), op) then
      SpineStep(op, t, p1, false);
      SpineStep(op, t, p1, true);
      var a := EliminateDups1(op, t, p1 + [false], p2);
      SameSpineAt(op, t, a.tree, p1 + [true]);
      SameSpineAt(op, t, a.tree, p2);
      var b := EliminateDups1(op, a.tree, p1 + [true], p2);
      SameSpineTransitive(op, t, a.tree, b.tree);
      Walk(b.tree, a.hits + b.hits)
    else if IsOp(At(op, t, p2), op) then
      SpineStep(op, t, p2, false);
      SpineStep(op, t, p2, true);
      var a := EliminateDups1(op, t, p1, p2 + [false]);
      SameSpineAt(op, t, a.tree, p1);
      SameSpineAt(op, t, a.tree, p2 + [true]);
      var b := EliminateDups1(op, a.tree, p1, p2 + [true]);
      SameSpineTransitive(op, t, a.tree, b.tree);
      Walk(b.tree, a.hits + b.hits)
    else if p1 == p2 then
      SameSpineReflexive(op, t);
      Walk(t, 0)
    else
      SlotSmaller(op, t, p1);
      var e1 := At(op, t, p1);
      var n := if e1.Binary? then EliminateDups1(e1.op, e1, [], []) else Walk(e1, 0);
      ReplaceLeaf(op, t, p1, n.tree);
      ReplaceOther(op, t, p1, p2, n.tree);
      var u := Replace(op, t, p1, n.tree);
      var b := JoinSlots(op, u, p1, p2);
      SameSpineTransitive(op, t, u, b.tree);
      Walk(b.tree, n.hits + b.hits)
  }

  /** What one walk keeps. */
  ghost predicate SameMeaning(t: Expr, u: Expr, v: Valuation) {
    (Nnf(t) ==> Nnf(u)) &&
    (PlainConstants(v, t) ==> PlainConstants(v, u) && Calc(u, v) == Calc(t, v))
  }

  lemma JoinSlotsMeaning(op: Op, t: Expr, p1: Path, p2: Path, v: Valuation)
    requires Spine(op, t, p1) && !IsOp(At(op, t, p1), op)
    requires Spine(op, t, p2) && !IsOp(At(op, t, p2), op)
    requires p1 != p2
    ensures SameMeaning(t, JoinSlots(op, t, p1, p2).tree, v)
  {
    var e1, e2 := At(op, t, p1), At(op, t, p2);
    var j := Join(op, e1, e2);
    if j.Some? {
      JoinShape(op, e1, e2);
      JoinKeeps(op, e1, e2, v);
      var u := Replace(op, t, p1, Neutral(op));
      ReplaceOther(op, t, p1, p2, Neutral(op));
      ReplaceKeeps(op, t, p1, Neutral(op), v);
      ReplaceKeeps(op, t, p2, Neutral(op), v);
      ReplaceKeeps(op, u, p2, j.value, v);
      if PlainConstants(v, t) {
        ReplaceTwoValue(op, t, p1, p2, Neutral(op), j.value, v);
      }
    }
  }

  lemma {:induction false} EliminateDups1Meaning(op: Op, t: Expr, p1: Path, p2: Path, v: Valuation)
    requires Spine(op, t, p1) && Spine(op, t, p2)
    ensures SameMeaning(t, EliminateDups1(op, t, p1, p2).tree, v)
    decreases Size(t), SpineSize(op, At(op, t, p1)) + SpineSize(op, At(op, t, p2))
  {
    if IsOp(At(op, t, p1), op) {
      SpineStep(op, t, p1, false);
      SpineStep(op, t, p1, true);
      var a := EliminateDups1(op, t, p1 + [false], p2);
      SameSpineAt(op, t, a.tree, p1 + [true]);
      SameSpineAt(op, t, a.tree, p2);
      EliminateDups1Meaning(op, t, p1 + [false], p2, v);
      EliminateDups1Meaning(op, a.tree, p1 + [true], p2, v);
    } else if IsOp(At(op, t, p2), op) {
      SpineStep(op, t, p2, false);
      SpineStep(op, t, p2, true);
      var a := EliminateDups1(op, t, p1, p2 + [false]);
      SameSpineAt(op, t, a.tree, p1);
      SameSpineAt(op, t, a.tree, p2 + [true]);
      EliminateDups1Meaning(op, t, p1, p2 + [false], v);
      EliminateDups1Meaning(op, a.tree, p1, p2 + [true], v);
    } else if p1 != p2 {
      NestedMeaning(op, t, p1, p2, v);
    }
  }

  lemma {:induction false} NestedMeaning(op: Op, t: Expr, p1: Path, p2: Path, v: Valuation)
    requires Spine(op, t, p1) && !IsOp(At(op, t, p1), op)
    requires Spine(op, t, p2) && !IsOp(At(op, t, p2), op)
    requires p1 != p2
    ensures SameMeaning(t, EliminateDups1(op, t, p1, p2).tree, v)
    decreases Size(t), 0, 0
  {
    SlotSmaller(op, t, p1);
    var e1 := At(op, t, p1);
    var n := if e1.Binary? then EliminateDups1(e1.op, e1, [], []) else Walk(e1, 0);
    if e1.Binary? { EliminateDups1Meaning(e1.op, e1, [], [], v); }
    ReplaceLeaf(op, t, p1, n.tree);
    ReplaceOther(op, t, p1, p2, n.tree);
    var u := Replace(op, t, p1, n.tree);
    ReplaceKeeps(op, t, p1, n.tree, v);
    ReplaceValue(op, t, p1, n.tree, v);
    ReplaceValue(op, t, p1, e1, v);
    ReplaceSame(op, t, p1);
    JoinSlotsMeaning(op, u, p1, p2, v);
  }

  /** Progress: a walk that counted something leaves an operand y or n to fold away, and a
      walk that counted nothing changed nothing. */
  ghost predicate Progress(t: Expr, r: Walk) {
    (Reducible(t) || r.hits > 0 ==> Reducible(r.tree)) && (r.hits == 0 ==> r.tree == t)
  }

  lemma JoinSlotsProgress(op: Op, t: Expr, p1: Path, p2: Path)
    requires Spine(op, t, p1) && !IsOp(At(op, t, p1), op)
    requires Spine(op, t, p2) && !IsOp(At(op, t, p2), op)
    requires p1 != p2
    ensures Progress(t, JoinSlots(op, t, p1, p2))
  {
    var e1, e2 := At(op, t, p1), At(op, t, p2);
    var j := Join(op, e1, e2);
    if j.Some? {
      JoinShape(op, e1, e2);
      var u := Replace(op, t, p1, Neutral(op));
      ReplaceLeaf(op, t, p1, Neutral(op));
      ReplaceOther(op, t, p1, p2, Neutral(op));
      ReplaceOther(op, u, p2, p1, j.value);
      SlotReducible(op, Replace(op, u, p2, j.value), p1);
    }
  }

  lemma {:induction false} EliminateDups1Progress(op: Op, t: Expr, p1: Path, p2: Path)
    requires Spine(op, t, p1) && Spine(op, t, p2)
    ensures Progress(t, EliminateDups1(op, t, p1, p2))
    decreases Size(t), SpineSize(op, At(op, t, p1)) + SpineSize(op, At(op, t, p2))
  {
    if IsOp(At(op, t, p1), op) {
      SpineStep(op, t, p1, false);
      SpineStep(op, t, p1, true);
      var a := EliminateDups1(op, t, p1 + [false], p2);
      SameSpineAt(op, t, a.tree, p1 + [true]);
      SameSpineAt(op, t, a.tree, p2);
      EliminateDups1Progress(op, t, p1 + [false], p2);
      EliminateDups1Progress(op, a.tree, p1 + [true], p2);
    } else if IsOp(At(op, t, p2), op) {
      SpineStep(op, t, p2, false);
      SpineStep(op, t, p2, true);
      var a := EliminateDups1(op, t, p1, p2 + [false]);
      SameSpineAt(op, t, a.tree, p1);
      SameSpineAt(op, t, a.tree, p2 + [true]);
      EliminateDups1Progress(op, t, p1, p2 + [false]);
      EliminateDups1Progress(op, a.tree, p1, p2 + [true]);
    } else if p1 != p2 {
      NestedProgress(op, t, p1, p2);
    }
  }

  lemma {:induction false} NestedProgress(op: Op, t: Expr, p1: Path, p2: Path)
    requires Spine(op, t, p1) && !IsOp(At(op, t, p1), op)
    requires Spine(op, t, p2) && !IsOp(At(op, t, p2), op)
    requires p1 != p2
    ensures Progress(t, EliminateDups1(op, t, p1, p2))
    decreases Size(t), 0, 0
  {
    SlotSmaller(op, t, p1);
    var e1 := At(op, t, p1);
    var n := if e1.Binary? then EliminateDups1(e1.op, e1, [], []) else Walk(e1, 0);
    if e1.Binary? { EliminateDups1Progress(e1.op, e1, [], []); }
    ReplaceLeaf(op, t, p1, n.tree);
    ReplaceOther(op, t, p1, p2, n.tree);
    var u := Replace(op, t, p1, n.tree);
    if Reducible(t) { ReplaceReducible(op, t, p1, n.tree); }
    if Reducible(n.tree) { SlotReducible(op, u, p1); }
    ReplaceSame(op, t, p1);
    JoinSlotsProgress(op, u, p1, p2);
  }

  // ----- The loop -----

  /** Walks and folds until a walk counts nothing. */
  function EliminateDups(e: Expr): (r: Expr)
    ensures Size(r) <= Size(e)
    decreases Size(e)
  {
    if !e.Binary? then e
    else
      var w := EliminateDups1(e.op, e, [], []);
      if w.hits == 0 then w.tree
      else
        EliminateDups1Progress(e.op, e, [], []);
        EliminateYnShrinks(w.tree);
        EliminateDups(EliminateYn(w.tree))
  }

  /** Removing duplicates keeps the value, negation normal form and plain constants. */
  lemma {:induction false} EliminateDupsMeaning(e: Expr, v: Valuation)
    ensures SameMeaning(e, EliminateDups(e), v)
    decreases Size(e)
  {
    if e.Binary? {
      var w := EliminateDups1(e.op, e, [], []);
      EliminateDups1Meaning(e.op, e, [], [], v);
      if w.hits != 0 {
        EliminateDups1Progress(e.op, e, [], []);
        EliminateYnShrinks(w.tree);
        EliminateYnValue(w.tree, v);
        EliminateYnKeeps(w.tree, v);
        EliminateDupsMeaning(EliminateYn(w.tree), v);
      }
    }
  }

  /** The result is a fixpoint: one more walk would count nothing. */
  lemma {:induction false} EliminateDupsFixpoint(e: Expr)
    ensures
      var r := EliminateDups(e);
      r.Binary? ==> EliminateDups1(r.op, r, [], []) == Walk(r, 0)
    decreases Size(e)
  {
    if e.Binary? {
      var w := EliminateDups1(e.op, e, [], []);
      EliminateDups1Progress(e.op, e, [], []);
      if w.hits != 0 {
        EliminateYnShrinks(w.tree);
        EliminateDupsFixpoint(EliminateYn(w.tree));
      }
    }
  }

  /** A walk that counts nothing has tried every pair of different leaves below its slots, and has
      walked the first of them. */
  lemma {:induction false} WalkTriesAllPairs(op: Op, t: Expr, p1: Path, p2: Path, s1: Path, s2: Path)
    requires Spine(op, t, p1) && Spine(op, t, p2) && EliminateDups1(op, t, p1, p2).hits == 0
    requires Spine(op, t, s1) && !IsOp(At(op, t, s1), op) && p1 <= s1
    requires Spine(op, t, s2) && !IsOp(At(op, t, s2), op) && p2 <= s2
    requires s1 != s2
    ensures Join(op, At(op, t, s1), At(op, t, s2)) == None
    ensures At(op, t, s1).Binary? ==> EliminateDups1(At(op, t, s1).op, At(op, t, s1), [], []).hits == 0
    decreases SpineSize(op, At(op, t, p1)) + SpineSize(op, At(op, t, p2))
  {
    if IsOp(At(op, t, p1), op) {
      SpineStep(op, t, p1, false);
      SpineStep(op, t, p1, true);
      EliminateDups1Progress(op, t, p1 + [false], p2);
      assert s1 != p1;
      if s1[|p1|] {
        WalkTriesAllPairs(op, t, p1 + [true], p2, s1, s2);
      } else {
        WalkTriesAllPairs(op, t, p1 + [false], p2, s1, s2);
      }
    } else if IsOp(At(op, t, p2), op) {
      SpineStep(op, t, p2, false);
      SpineStep(op, t, p2, true);
      EliminateDups1Progress(op, t, p1, p2 + [false]);
      assert s2 != p2;
      if s2[|p2|] {
        WalkTriesAllPairs(op, t, p1, p2 + [true], s1, s2);
      } else {
        WalkTriesAllPairs(op, t, p1, p2 + [false], s1, s2);
      }
    } else {
      LeafSlotEnds(op, t, p1, s1);
      LeafSlotEnds(op, t, p2, s2);
      var e1 := At(op, t, p1);
      SlotSmaller(op, t, p1);
      if e1.Binary? { EliminateDups1Progress(e1.op, e1, [], []); }
      ReplaceSame(op, t, p1);
    }
  }

  lemma {:induction false} LeafSlotEnds(op: Op, t: Expr, p: Path, s: Path)
    requires Spine(op, t, p) && !IsOp(At(op, t, p), op) && Spine(op, t, s) && p <= s
    ensures s == p
  {
    if p != [] {
      LeafSlotEnds(op, Child(t, p[0]), p[1..], s[1..]);
    }
  }

  /** No two operands of the result are equal, and no joining rule applies to any two. */
  lemma EliminateDupsLeavesNoPair(e: Expr, s1: Path, s2: Path)
    requires EliminateDups(e).Binary?
    requires
      var r := EliminateDups(e);
      Spine(r.op, r, s1) && !IsOp(At(r.op, r, s1), r.op) && Spine(r.op, r, s2) && !IsOp(At(r.op, r, s2), r.op)
    requires s1 != s2
    ensures
      var r := EliminateDups(e);
      !Eq(At(r.op, r, s1), At(r.op, r, s2)) && Join(r.op, At(r.op, r, s1), At(r.op, r, s2)) == None
  {
    var r := EliminateDups(e);
    EliminateDupsFixpoint(e);
    WalkTriesAllPairs(r.op, r, [], [], s1, s2);
  }
}
