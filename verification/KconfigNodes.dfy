/** The rewritings of expressions on linked nodes, in place: nodes are overwritten, relinked and
    allocated as they go. */
module KconfigNodes {
  import opened KconfigExpr
  import opened KconfigEliminate
  import opened KconfigTransform

  datatype NodeType = ESymbol | ENot | EOp(op: Op) | ERel(rel: Relation)

  /** One of the two data of a node: nothing, a symbol or another node. */
  datatype Data = Null | Symb(sym: Symbol) | Sub(expr: ExprNode)

  class ExprNode {
    var etype: NodeType
    var left: Data
    var right: Data

    constructor (etype: NodeType, left: Data, right: Data)
      ensures this.etype == etype && this.left == left && this.right == right
    {
      this.etype, this.left, this.right := etype, left, right;
    }
  }

  /** An expression with the node that holds each part of it. */
  datatype Tree =
    | RefTree(id: ExprNode, sym: Symbol)
    | CompareTree(id: ExprNode, rel: Relation, lhs: Symbol, rhs: Symbol)
    | NotTree(id: ExprNode, arg: Tree)
    | BinTree(id: ExprNode, op: Op, left: Tree, right: Tree)

  /** The expression alone. */
  function Plain(t: Tree): Expr {
    match t
    case RefTree(_, s) => Ref(s)
    case CompareTree(_, rel, a, b) => Compare(rel, a, b)
    case NotTree(_, a) => Not(Plain(a))
    case BinTree(_, op, l, r) => Binary(op, Plain(l), Plain(r))
  }

  function Nodes(t: Tree): set<ExprNode> {
    match t
    case RefTree(id, _) => {id}
    case CompareTree(id, _, _, _) => {id}
    case NotTree(id, a) => {id} + Nodes(a)
    case BinTree(id, _, l, r) => {id} + Nodes(l) + Nodes(r)
  }

  /** No node holds two parts. */
  predicate Unshared(t: Tree) {
    match t
    case NotTree(id, a) => id !in Nodes(a) && Unshared(a)
    case BinTree(id, _, l, r) => id !in Nodes(l) && id !in Nodes(r) && Nodes(l) !! Nodes(r) && Unshared(l) && Unshared(r)
    case _ => true
  }

  /** The nodes from n on hold the tree. */
  ghost predicate Shows(n: ExprNode, t: Tree)
    reads Nodes(t)
  {
    n == t.id &&
    match t
    case RefTree(_, s) => n.etype == ESymbol && n.left == Symb(s)
    case CompareTree(_, rel, a, b) => n.etype == ERel(rel) && n.left == Symb(a) && n.right == Symb(b)
    case NotTree(_, a) => n.etype == ENot && n.left == Sub(a.id) && n.right == Null && Shows(a.id, a)
    case BinTree(_, op, l, r) =>
      n.etype == EOp(op) && n.left == Sub(l.id) && n.right == Sub(r.id) && Shows(l.id, l) && Shows(r.id, r)
  }

  /** An expression of its own. */
  ghost predicate Owns(n: ExprNode, t: Tree)
    reads Nodes(t)
  {
    Unshared(t) && Shows(n, t)
  }

  function WithId(t: Tree, n: ExprNode): (r: Tree)
    ensures Plain(r) == Plain(t) && r.id == n && Nodes(r) <= Nodes(t) + {n}
  {
    match t
    case RefTree(_, s) => RefTree(n, s)
    case CompareTree(_, rel, a, b) => CompareTree(n, rel, a, b)
    case NotTree(_, a) => NotTree(n, a)
    case BinTree(_, op, l, r) => BinTree(n, op, l, r)
  }

  // ----- Folding of y and n -----

  /** The node becomes a symbol. */
  method SetSymbol(n: ExprNode, s: Symbol)
    modifies n
    ensures Owns(n, RefTree(n, s))
  {
    n.etype, n.left, n.right := ESymbol, Symb(s), Null;
  }

  /** The node is overwritten with another one, which is no longer used. */
  method Overwrite(n: ExprNode, from: ExprNode, ghost f: Tree)
    requires Owns(from, f) && n !in Nodes(f)
    modifies n
    ensures Owns(n, WithId(f, n))
  {
    n.etype, n.left, n.right := from.etype, from.left, from.right;
  }

  predicate IsSymbol(n: ExprNode, s: Symbol)
    reads n
  {
    n.etype == ESymbol && n.left == Symb(s)
  }

  lemma SymbolShown(n: ExprNode, t: Tree, s: Symbol)
    requires Owns(n, t)
    ensures IsSymbol(n, s) <==> Plain(t) == Ref(s)
  {
  }

  /** The left operand of a node is held by n now. */
  method SetLeft(e: ExprNode, n: ExprNode, ghost t: Tree, ghost l: Tree)
    requires t.BinTree? && e == t.id && e.etype == EOp(t.op) && e.right == Sub(t.right.id)
    requires Owns(n, l) && Owns(t.right.id, t.right) && e !in Nodes(l) && e !in Nodes(t.right) && Nodes(l) !! Nodes(t.right)
    modifies e`left
    ensures Owns(e, t.(left := l))
  {
    e.left := Sub(n);
  }

  method SetRight(e: ExprNode, n: ExprNode, ghost t: Tree, ghost r: Tree)
    requires t.BinTree? && e == t.id && e.etype == EOp(t.op) && e.left == Sub(t.left.id)
    requires Owns(n, r) && Owns(t.left.id, t.left) && e !in Nodes(r) && e !in Nodes(t.left) && Nodes(r) !! Nodes(t.left)
    modifies e`right
    ensures Owns(e, t.(right := r))
  {
    e.right := Sub(n);
  }

  method EliminateLeft(e: ExprNode, ghost t: Tree, ghost all: set<ExprNode>) returns (ghost u: Tree)
    requires t.BinTree? && Owns(e, t) && Nodes(t) == all
    modifies Nodes(t)
    ensures u.BinTree? && Owns(e, u) && Nodes(u) <= Nodes(t) && u == t.(left := u.left)
    ensures Plain(u.left) == EliminateYn(Plain(t.left))
    decreases t.left, 2
  {
    var r;
    ghost var l;
    r, l := ExprEliminateYn(e.left.expr, t.left);
    SetLeft(e, r, t, l);
    u := t.(left := l);
  }

  method EliminateRight(e: ExprNode, ghost t: Tree, ghost all: set<ExprNode>) returns (ghost u: Tree)
    requires t.BinTree? && Owns(e, t) && Nodes(t) == all
    modifies Nodes(t)
    ensures u.BinTree? && Owns(e, u) && Nodes(u) <= Nodes(t) && u == t.(right := u.right)
    ensures Plain(u.right) == EliminateYn(Plain(t.right))
    decreases t.right, 2
  {
    var n;
    ghost var r;
    n, r := ExprEliminateYn(e.right.expr, t.right);
    SetRight(e, n, t, r);
    u := t.(right := r);
  }

  method FoldOperator(e: ExprNode, ghost t: Tree) returns (ghost u: Tree)
    requires t.BinTree? && Owns(e, t)
    modifies e
    ensures Owns(e, u) && Nodes(u) <= Nodes(t)
    ensures Plain(u) == Folded(Plain(t))
  {
    var neutral, absorbing := if e.etype.op == OrOp then No else Yes, if e.etype.op == OrOp then Yes else No;
    u := t;
    var l, r := e.left.expr, e.right.expr;
    SymbolShown(l, t.left, absorbing);
    SymbolShown(l, t.left, neutral);
    SymbolShown(r, t.right, absorbing);
    SymbolShown(r, t.right, neutral);
    assert Neutral(t.op) == Ref(neutral);
    if IsSymbol(l, absorbing) {
      SetSymbol(e, absorbing);
      u := RefTree(e, absorbing);
    } else if IsSymbol(l, neutral) {
      Overwrite(e, r, t.right);
      u := WithId(t.right, e);
    } else if IsSymbol(r, absorbing) {
      SetSymbol(e, absorbing);
      u := RefTree(e, absorbing);
    } else if IsSymbol(r, neutral) {
      Overwrite(e, l, t.left);
      u := WithId(t.left, e);
    }
  }

  /** What EliminateYn does to an operator once its operands are done. */
  function Folded(e: Expr): Expr
    requires e.Binary?
  {
    var absorbing := if e.op == OrOp then Ref(Yes) else Ref(No);
    if e.left == absorbing then absorbing
    else if e.left == Neutral(e.op) then e.right
    else if e.right == absorbing then absorbing
    else if e.right == Neutral(e.op) then e.left
    else e
  }

  method EliminateBoth(e: ExprNode, ghost t: Tree, ghost all: set<ExprNode>) returns (ghost u: Tree)
    requires t.BinTree? && Owns(e, t) && Nodes(t) == all
    modifies Nodes(t)
    ensures u.BinTree? && Owns(e, u) && Nodes(u) <= Nodes(t)
    ensures Plain(u) == Binary(t.op, EliminateYn(Plain(t.left)), EliminateYn(Plain(t.right)))
    decreases t, 0
  {
    u := EliminateLeft(e, t, all);
    u := EliminateRight(e, u, Nodes(u));
  }

  /** The same node comes back. */
  method ExprEliminateYn(e: ExprNode, ghost t: Tree) returns (r: ExprNode, ghost u: Tree)
    requires Owns(e, t)
    modifies Nodes(t)
    ensures Owns(r, u) && r == e && Nodes(u) <= Nodes(t)
    ensures Plain(u) == EliminateYn(Plain(t))
    decreases t, 1
  {
    r, u := e, t;
    if e.etype.EOp? {
      u := EliminateBoth(e, u, Nodes(u));
      u := FoldOperator(e, u);
    }
  }

  // ----- expr_trans_bool -----

  method TransBoolLeft(e: ExprNode, ghost t: Tree, ghost all: set<ExprNode>) returns (ghost u: Tree)
    requires t.BinTree? && Owns(e, t) && Nodes(t) == all
    modifies Nodes(t)
    ensures u.BinTree? && Owns(e, u) && Nodes(u) == Nodes(t) && u == t.(left := u.left)
    ensures Plain(u.left) == TransBool(Plain(t.left))
    decreases t.left, 2
  {
    ghost var l := ExprTransBool(e.left.expr, t.left);
    u := t.(left := l);
  }

  method TransBoolRight(e: ExprNode, ghost t: Tree, ghost all: set<ExprNode>) returns (ghost u: Tree)
    requires t.BinTree? && Owns(e, t) && Nodes(t) == all
    modifies Nodes(t)
    ensures u.BinTree? && Owns(e, u) && Nodes(u) == Nodes(t) && u == t.(right := u.right)
    ensures Plain(u.right) == TransBool(Plain(t.right))
    decreases t.right, 2
  {
    ghost var r := ExprTransBool(e.right.expr, t.right);
    u := t.(right := r);
  }

  method ExprTransBool(e: ExprNode, ghost t: Tree) returns (ghost u: Tree)
    requires Owns(e, t)
    modifies Nodes(t)
    ensures Owns(e, u) && Nodes(u) == Nodes(t) && Plain(u) == TransBool(Plain(t))
    decreases t, 1
  {
    u := t;
    match e.etype
    case EOp(_) =>
      u := TransBoolLeft(e, u, Nodes(u));
      u := TransBoolRight(e, u, Nodes(u));
    case ENot =>
      ghost var a := ExprTransBool(e.left.expr, t.arg);
      u := t.(arg := a);
    case ERel(rel) =>
      if rel == Unequal && e.left.sym.Type() == Tristate && e.right == Symb(No) {
        e.etype, e.right := ESymbol, Null;
        u := RefTree(e, t.lhs);
      }
    case ESymbol =>
  }

  // ----- rewrite_m -----

  method RewriteLeft(e: ExprNode, modules: Symbol, ghost t: Tree, ghost all: set<ExprNode>) returns (ghost u: Tree)
    requires t.BinTree? && Owns(e, t) && Nodes(t) == all
    modifies Nodes(t)
    ensures u.BinTree? && Owns(e, u) && fresh(Nodes(u) - all) && u == t.(left := u.left)
    ensures Plain(u.left) == RewriteM(Plain(t.left), modules)
    decreases t.left, 2
  {
    var r;
    ghost var l;
    r, l := ExprRewriteM(e.left.expr, modules, t.left);
    SetLeft(e, r, t, l);
    u := t.(left := l);
  }

  method RewriteRight(e: ExprNode, modules: Symbol, ghost t: Tree, ghost all: set<ExprNode>) returns (ghost u: Tree)
    requires t.BinTree? && Owns(e, t) && Nodes(t) == all
    modifies Nodes(t)
    ensures u.BinTree? && Owns(e, u) && fresh(Nodes(u) - all) && u == t.(right := u.right)
    ensures Plain(u.right) == RewriteM(Plain(t.right), modules)
    decreases t.right, 2
  {
    var n;
    ghost var r;
    n, r := ExprRewriteM(e.right.expr, modules, t.right);
    SetRight(e, n, t, r);
    u := t.(right := r);
  }

  method RewriteBoth(e: ExprNode, modules: Symbol, ghost t: Tree, ghost all: set<ExprNode>) returns (ghost u: Tree)
    requires t.BinTree? && Owns(e, t) && Nodes(t) == all
    modifies Nodes(t)
    ensures Owns(e, u) && fresh(Nodes(u) - all) && Plain(u) == RewriteM(Plain(t), modules)
    decreases t, 0
  {
    ghost var v := RewriteLeft(e, modules, t, all);
    ghost var mid := Nodes(v);
    u := RewriteRight(e, modules, v, mid);
    assert fresh(mid - all) && fresh(Nodes(u) - mid);
    assert Nodes(u) - all <= (mid - all) + (Nodes(u) - mid);
  }

  /** Every bare m gets the symbol for modules beside it. */
  method ExprRewriteM(e: ExprNode, modules: Symbol, ghost t: Tree) returns (r: ExprNode, ghost u: Tree)
    requires Owns(e, t)
    modifies Nodes(t)
    ensures Owns(r, u) && fresh(Nodes(u) - Nodes(t)) && Plain(u) == RewriteM(Plain(t), modules)
    decreases t, 1
  {
    r, u := e, t;
    match e.etype
    case EOp(_) => u := RewriteBoth(e, modules, t, Nodes(t));
    case ENot =>
      var n;
      ghost var a;
      n, a := ExprRewriteM(e.left.expr, modules, t.arg);
      e.left := Sub(n);
      u := t.(arg := a);
    case ESymbol =>
      if e.left == Symb(Mod) {
        var m := new ExprNode(ESymbol, Symb(modules), Null);
        r := new ExprNode(EOp(AndOp), Sub(e), Sub(m));
        u := BinTree(r, AndOp, t, RefTree(m, modules));
      }
    case ERel(_) =>
  }

  // ----- expr_transform -----

  /** A comparison with y, m or n of a boolean symbol. */
  method TransformRelation(e: ExprNode, ghost t: Tree) returns (ghost u: Tree)
    requires t.CompareTree? && Owns(e, t)
    modifies e
    ensures Owns(e, u) && fresh(Nodes(u) - {e}) && Plain(u) == TransformComparison(t.rel, t.lhs, t.rhs)
  {
    u := t;
    var rel, a, b := e.etype.rel, e.left.sym, e.right.sym;
    if a.Type() == Boolean && (rel == Equal || rel == Unequal) && IsTriConstant(b) {
      if b == Mod {
        SetSymbol(e, if rel == Equal then No else Yes);
        u := RefTree(e, if rel == Equal then No else Yes);
      } else if (b == No) == (rel == Unequal) {
        SetSymbol(e, a);
        u := RefTree(e, a);
      } else {
        var n := new ExprNode(ESymbol, Symb(a), Null);
        e.etype, e.left, e.right := ENot, Sub(n), Null;
        u := NotTree(e, RefTree(n, a));
      }
    }
  }

  /** The nodes e, tmp and n become an operator over two negations. */
  method LinkNegations(e: ExprNode, tmp: ExprNode, n: ExprNode, op: Op, ghost l: Tree, ghost r: Tree, ghost all: set<ExprNode>)
    requires Owns(l.id, l) && Owns(r.id, r) && Nodes(l) !! Nodes(r) && all == Nodes(l) + Nodes(r)
    requires e !in all && tmp !in all && n !in all && e != tmp && e != n && tmp != n
    requires e.left == Sub(tmp) && tmp.left == Sub(l.id)
    requires n.etype == ENot && n.left == Sub(r.id) && n.right == Null
    modifies e, tmp
    ensures Owns(e, BinTree(e, op, NotTree(tmp, l), NotTree(n, r)))
  {
    e.etype, e.right := EOp(op), Sub(n);
    tmp.etype, tmp.right := ENot, Null;
    assert Owns(tmp, NotTree(tmp, l)) && Owns(n, NotTree(n, r));
  }

  /** De Morgan: the node of the negation becomes the operator, the node of the operator the
      first negation; the second one is new. */
  method PushNegation(e: ExprNode, ghost t: Tree, ghost all: set<ExprNode>) returns (ghost u: Tree)
    requires t.NotTree? && t.arg.BinTree? && Owns(e, t) && Nodes(t) == all
    modifies e, t.arg.id
    ensures Owns(e, u) && fresh(Nodes(u) - Nodes(t))
    ensures Plain(u) == DeMorgan(t.arg.op, Plain(t.arg.left), Plain(t.arg.right))
  {
    var tmp := e.left.expr;
    assert Owns(tmp, t.arg) && e !in Nodes(t.arg);
    var n := new ExprNode(ENot, tmp.right, Null);
    LinkNegations(e, tmp, n, OtherOp(tmp.etype.op), t.arg.left, t.arg.right, Nodes(t.arg.left) + Nodes(t.arg.right));
    u := BinTree(e, OtherOp(t.arg.op), NotTree(tmp, t.arg.left), NotTree(n, t.arg.right));
  }

  /** The node of a negation goes away; what it negated is turned round in its own node. */
  method NegateLeaf(tmp: ExprNode, ghost t: Tree) returns (ghost u: Tree)
    requires Owns(tmp, t) && (t.CompareTree? || (t.RefTree? && IsTriConstant(t.sym)))
    modifies tmp
    ensures Owns(tmp, u) && Nodes(u) == {tmp}
    ensures Plain(u) == if t.CompareTree? then Compare(Opposite(t.rel), t.lhs, t.rhs)
                        else Ref(if t.sym == Yes then No else if t.sym == No then Yes else Mod)
  {
    if tmp.etype.ERel? {
      tmp.etype := ERel(Opposite(tmp.etype.rel));
      u := CompareTree(tmp, Opposite(t.rel), t.lhs, t.rhs);
    } else {
      var s := if tmp.left == Symb(Yes) then No else if tmp.left == Symb(No) then Yes else Mod;
      SetSymbol(tmp, s);
      u := RefTree(tmp, s);
    }
  }

  /** A negation whose operand is done. */
  method TransformNegation(e: ExprNode, ghost t: Tree, ghost all: set<ExprNode>, ghost w: nat) returns (r: ExprNode, ghost u: Tree)
    requires t.NotTree? && Owns(e, t) && Nodes(t) == all && Nnf(Plain(t.arg)) && Weight(Plain(t)) <= w
    modifies Nodes(t)
    ensures Owns(r, u) && fresh(Nodes(u) - Nodes(t)) && Plain(u) == Negated(Plain(t.arg))
    decreases w, -1
  {
    var tmp := e.left.expr;
    assert Owns(tmp, t.arg);
    r, u := e, t;
    match tmp.etype
    case ENot =>
      r, u := ExprTransform(tmp.left.expr, t.arg.arg);
    case ERel(_) =>
      r := tmp;
      u := NegateLeaf(tmp, t.arg);
    case EOp(_) =>
      u := PushNegation(e, t, all);
      r, u := ExprTransform(e, u);
    case ESymbol =>
      if IsTriConstant(tmp.left.sym) {
        r := tmp;
        u := NegateLeaf(tmp, t.arg);
      }
  }

  /** What Transform does to the negation of x, which is done. */
  function Negated(x: Expr): Expr {
    match x
    case Not(y) => Transform(y)
    case Compare(rel, s, t) => Compare(Opposite(rel), s, t)
    case Binary(op, l, r) => Transform(DeMorgan(op, l, r))
    case Ref(Yes) => Ref(No)
    case Ref(Mod) => Ref(Mod)
    case Ref(No) => Ref(Yes)
    case Ref(_) => Not(x)
  }

  method TransformLeft(e: ExprNode, ghost t: Tree, ghost all: set<ExprNode>) returns (ghost u: Tree)
    requires t.BinTree? && Owns(e, t) && Nodes(t) == all
    modifies Nodes(t)
    ensures u.BinTree? && Owns(e, u) && fresh(Nodes(u) - Nodes(t)) && u == t.(left := u.left)
    ensures Plain(u.left) == Transform(Plain(t.left))
    decreases Weight(Plain(t.left)), 2
  {
    var r;
    ghost var l;
    r, l := ExprTransform(e.left.expr, t.left);
    SetLeft(e, r, t, l);
    u := t.(left := l);
  }

  method TransformRight(e: ExprNode, ghost t: Tree, ghost all: set<ExprNode>) returns (ghost u: Tree)
    requires t.BinTree? && Owns(e, t) && Nodes(t) == all
    modifies Nodes(t)
    ensures u.BinTree? && Owns(e, u) && fresh(Nodes(u) - Nodes(t)) && u == t.(right := u.right)
    ensures Plain(u.right) == Transform(Plain(t.right))
    decreases Weight(Plain(t.right)), 2
  {
    var n;
    ghost var r;
    n, r := ExprTransform(e.right.expr, t.right);
    SetRight(e, n, t, r);
    u := t.(right := r);
  }

  method TransformOperand(e: ExprNode, ghost t: Tree, ghost all: set<ExprNode>) returns (ghost u: Tree)
    requires t.NotTree? && Owns(e, t) && Nodes(t) == all
    modifies Nodes(t)
    ensures u.NotTree? && Owns(e, u) && fresh(Nodes(u) - Nodes(t)) && u == t.(arg := u.arg)
    ensures Plain(u.arg) == Transform(Plain(t.arg))
    decreases Weight(Plain(t.arg)), 2
  {
    var n;
    ghost var a;
    n, a := ExprTransform(e.left.expr, t.arg);
    e.left := Sub(n);
    u := t.(arg := a);
  }

  method TransformBoth(e: ExprNode, ghost t: Tree, ghost all: set<ExprNode>) returns (ghost u: Tree)
    requires t.BinTree? && Owns(e, t) && Nodes(t) == all
    modifies Nodes(t)
    ensures Owns(e, u) && fresh(Nodes(u) - Nodes(t)) && Plain(u) == Transform(Plain(t))
    decreases Weight(Plain(t)), 0
  {
    ghost var v := TransformLeft(e, t, all);
    ghost var mid := Nodes(v);
    u := TransformRight(e, v, mid);
    assert fresh(mid - all) && fresh(Nodes(u) - mid);
    assert Nodes(u) - all <= (mid - all) + (Nodes(u) - mid);
  }

  method TransformNot(e: ExprNode, ghost t: Tree, ghost all: set<ExprNode>) returns (r: ExprNode, ghost u: Tree)
    requires t.NotTree? && Owns(e, t) && Nodes(t) == all
    modifies Nodes(t)
    ensures Owns(r, u) && fresh(Nodes(u) - Nodes(t)) && Plain(u) == Negated(Transform(Plain(t.arg)))
    decreases Weight(Plain(t)), 0
  {
    ghost var v := TransformOperand(e, t, all);
    ghost var mid := Nodes(v);
    r, u := TransformNegation(e, v, mid, Weight(Plain(t)));
    assert fresh(mid - all) && fresh(Nodes(u) - mid);
    assert Nodes(u) - all <= (mid - all) + (Nodes(u) - mid);
  }

  method ExprTransform(e: ExprNode, ghost t: Tree) returns (r: ExprNode, ghost u: Tree)
    requires Owns(e, t)
    modifies Nodes(t)
    ensures Owns(r, u) && fresh(Nodes(u) - Nodes(t)) && Plain(u) == Transform(Plain(t))
    decreases Weight(Plain(t)), 1
  {
    r, u := e, t;
    match e.etype
    case ESymbol =>
    case ERel(_) => u := TransformRelation(e, t);
    case EOp(_) => u := TransformBoth(e, t, Nodes(t));
    case ENot => r, u := TransformNot(e, t, Nodes(t));
  }
}
