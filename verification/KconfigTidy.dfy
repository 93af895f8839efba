/** What the removal of duplicates leaves: which pairs of operands are joined, by their shapes,
    and that none of them is left at any depth. */
module KconfigTidy {
  import opened Wrappers
  import opened KconfigExpr
  import opened KconfigEliminate
  import opened KconfigDups

  // ----- The pairs, in either order -----

  predicate Are(x: Expr, y: Expr, a: Expr, b: Expr) {
    (x == a && y == b) || (x == b && y == a)
  }

  /** s and !s for a boolean s; s=c and s=d for a tristate s and two of y, m and n. */
  predicate OrPair(s: Symbol, x: Expr, y: Expr) {
    (s.Type() == Boolean && Are(x, y, Ref(s), Not(Ref(s)))) ||
    (s.Type() == Tristate &&
     (Are(x, y, Compare(Equal, s, Yes), Compare(Equal, s, Mod)) ||
      Are(x, y, Compare(Equal, s, Yes), Compare(Equal, s, No)) ||
      Are(x, y, Compare(Equal, s, Mod), Compare(Equal, s, No))))
  }

  /** s=b and s!=c of two constants. */
  predicate EqualUnequal(s: Symbol, x: Expr, y: Expr) {
    x.Compare? && y.Compare? && x.rel == Equal && y.rel == Unequal && x.lhs == s && y.lhs == s && x.rhs.Const() && y.rhs.Const()
  }

  /** s and one of s=y, s!=n and s!=m; for a tristate s also s=b and s!=c of two constants, and
      s!=c and s!=d for two of y, m and n. */
  predicate AndPair(s: Symbol, x: Expr, y: Expr) {
    (TriTyped(s) &&
     (Are(x, y, Ref(s), Compare(Equal, s, Yes)) || Are(x, y, Ref(s), Compare(Unequal, s, No)) || Are(x, y, Ref(s), Compare(Unequal, s, Mod)))) ||
    (s.Type() == Tristate &&
     (EqualUnequal(s, x, y) || EqualUnequal(s, y, x) ||
      Are(x, y, Compare(Unequal, s, Yes), Compare(Unequal, s, Mod)) ||
      Are(x, y, Compare(Unequal, s, Yes), Compare(Unequal, s, No)) ||
      Are(x, y, Compare(Unequal, s, Mod), Compare(Unequal, s, No))))
  }

  predicate Pair(op: Op, s: Symbol, x: Expr, y: Expr) {
    if op == OrOp then OrPair(s, x, y) else AndPair(s, x, y)
  }

  /** Exactly equal operands and these pairs are joined. */
  lemma JoinsExactly(op: Op, x: Expr, y: Expr)
    ensures Join(op, x, y).Some? <==> Eq(x, y) || exists s :: Pair(op, s, x, y)
  {
    if s :| Pair(op, s, x, y) { PairJoins(op, s, x, y); }
    if Join(op, x, y).Some? && !Eq(x, y) { JoinedIsPair(op, x, y); }
  }

  lemma PairJoins(op: Op, s: Symbol, x: Expr, y: Expr)
    requires Pair(op, s, x, y)
    ensures Join(op, x, y).Some?
  {
    assert JoinSymbol(x, y) == Some(s);
  }

  lemma JoinedIsPair(op: Op, x: Expr, y: Expr)
    requires Join(op, x, y).Some? && !Eq(x, y)
    ensures JoinSymbol(x, y).Some? && Pair(op, JoinSymbol(x, y).value, x, y)
  {
  }

  // ----- The result -----

  /** Two operands that could be joined. */
  ghost predicate Redundant(op: Op, x: Expr, y: Expr) {
    Eq(x, y) || exists s :: Pair(op, s, x, y)
  }

  /** A slot of the level. */
  predicate Leaf(op: Op, t: Expr, p: Path) {
    Spine(op, t, p) && !IsOp(At(op, t, p), op)
  }

  /** No two operands of any level that is not below a negation could be joined. */
  ghost predicate Tidy(t: Expr)
    decreases t, 1
  {
    t.Binary? ==>
      (forall p, q :: Leaf(t.op, t, p) && Leaf(t.op, t, q) && p != q ==> !Redundant(t.op, At(t.op, t, p), At(t.op, t, q))) &&
      TidyBelow(t.op, t.left) && TidyBelow(t.op, t.right)
  }

  ghost predicate TidyBelow(op: Op, t: Expr)
    decreases t, 2
  {
    if IsOp(t, op) then TidyBelow(op, t.left) && TidyBelow(op, t.right) else Tidy(t)
  }

  function SomeLeaf(op: Op, t: Expr): (p: Path)
    ensures Leaf(op, t, p)
  {
    if IsOp(t, op) then
      var p := SomeLeaf(op, t.left);
      assert ([false] + p)[1..] == p;
      [false] + p
    else []
  }

  /** Another slot than s. */
  lemma OtherSlot(op: Op, t: Expr, s: Path) returns (q: Path)
    requires IsOp(t, op) && Leaf(op, t, s)
    ensures Leaf(op, t, q) && q != s
  {
    var b := !s[0];
    var p := SomeLeaf(op, Child(t, b));
    q := [b] + p;
    assert q[1..] == p;
  }

  lemma {:induction false} SlotsTidy(op: Op, t: Expr, p: Path)
    requires Spine(op, t, p)
    requires forall q :: Leaf(op, t, q) && p <= q ==> Tidy(At(op, t, q))
    ensures TidyBelow(op, At(op, t, p))
    decreases SpineSize(op, At(op, t, p))
  {
    if IsOp(At(op, t, p), op) {
      SpineStep(op, t, p, false);
      SpineStep(op, t, p, true);
      SlotsTidy(op, t, p + [false]);
      SlotsTidy(op, t, p + [true]);
    } else {
      assert Leaf(op, t, p);
    }
  }

  /** A walk that counts nothing has found nothing, at any depth. */
  lemma {:induction false} WalkTidies(t: Expr)
    requires t.Binary? && EliminateDups1(t.op, t, [], []).hits == 0
    ensures Tidy(t)
    decreases Size(t)
  {
    forall p, q | Leaf(t.op, t, p) && Leaf(t.op, t, q) && p != q ensures !Redundant(t.op, At(t.op, t, p), At(t.op, t, q)) {
      WalkTriesAllPairs(t.op, t, [], [], p, q);
      JoinsExactly(t.op, At(t.op, t, p), At(t.op, t, q));
    }
    forall p | Leaf(t.op, t, p) ensures Tidy(At(t.op, t, p)) {
      var q := OtherSlot(t.op, t, p);
      WalkTriesAllPairs(t.op, t, [], [], p, q);
      SlotSmaller(t.op, t, p);
      if At(t.op, t, p).Binary? { WalkTidies(At(t.op, t, p)); }
    }
    SpineStep(t.op, t, [], false);
    SpineStep(t.op, t, [], true);
    SlotsTidy(t.op, t, [false]);
    SlotsTidy(t.op, t, [true]);
  }

  /** No two operands are left that are equal or of which one makes the other redundant, on any
      level of the result. */
  lemma EliminateDupsTidies(e: Expr)
    ensures Tidy(EliminateDups(e))
  {
    var r := EliminateDups(e);
    EliminateDupsFixpoint(e);
    if r.Binary? { WalkTidies(r); }
  }
}
