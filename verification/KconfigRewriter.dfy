/** The rewritings that count: cancellation of common operands and removal of duplicates, in
    place, with the number of rewrites in one counter. */
module KconfigRewriter {
  import opened KconfigExpr
  import opened KconfigEliminate
  import opened KconfigDups
  import opened KconfigNodes
  import opened KconfigSlots
  import opened KconfigTransform
  import opened Wrappers

  /** Two expressions without a node in common. */
  ghost predicate Pair(n1: ExprNode, t1: Tree, n2: ExprNode, t2: Tree)
    reads Nodes(t1), Nodes(t2)
  {
    Owns(n1, t1) && Owns(n2, t2) && Nodes(t1) !! Nodes(t2)
  }

  method ExprAllocOne(a: ExprNode, ghost x: Tree, ghost all: set<ExprNode>) returns (r: ExprNode, ghost u: Tree)
    requires Owns(a, x) && Nodes(x) == all
    ensures fresh(r) && Owns(r, u) && u == NotTree(r, x)
  {
    r := new ExprNode(ENot, Sub(a), Null);
    u := NotTree(r, x);
  }

  method ExprAllocTwo(op: Op, a: ExprNode, b: ExprNode, ghost x: Tree, ghost y: Tree, ghost all: set<ExprNode>)
    returns (r: ExprNode, ghost u: Tree)
    requires Pair(a, x, b, y) && Nodes(x) + Nodes(y) == all
    ensures fresh(r) && Owns(r, u) && u == BinTree(r, op, x, y)
  {
    r := new ExprNode(EOp(op), Sub(a), Sub(b));
    u := BinTree(r, op, x, y);
  }

  /** A copy beside another expression. */
  method CopyBeside(n: ExprNode, ghost t: Tree, a: ExprNode, ghost x: Tree, ghost all: set<ExprNode>)
    returns (b: ExprNode, ghost y: Tree)
    requires Owns(n, t) && Owns(a, x) && Nodes(x) == all
    ensures Pair(a, x, b, y) && fresh(Nodes(y)) && Plain(y) == Plain(t)
    decreases t, 2
  {
    b, y := ExprCopy(n, t);
  }

  /** Both operands copied. */
  method CopyBoth(n: ExprNode, ghost t: Tree, ghost all: set<ExprNode>)
    returns (a: ExprNode, b: ExprNode, ghost x: Tree, ghost y: Tree)
    requires Owns(n, t) && t.BinTree? && Nodes(t) == all
    ensures Pair(a, x, b, y) && fresh(Nodes(x)) && fresh(Nodes(y)) && Plain(x) == Plain(t.left) && Plain(y) == Plain(t.right)
    decreases t, 0
  {
    a, x := ExprCopy(n.left.expr, t.left);
    b, y := CopyBeside(n.right.expr, t.right, a, x, Nodes(x));
  }

  method ExprCopy(n: ExprNode, ghost t: Tree) returns (r: ExprNode, ghost u: Tree)
    requires Owns(n, t)
    ensures Owns(r, u) && fresh(Nodes(u)) && Plain(u) == Plain(t)
    decreases t, 1
  {
    match n.etype
    case ENot =>
      var a;
      ghost var x;
      a, x := ExprCopy(n.left.expr, t.arg);
      r, u := ExprAllocOne(a, x, Nodes(x));
    case EOp(op) =>
      var a, b;
      ghost var x, y;
      a, b, x, y := CopyBoth(n, t, Nodes(t));
      r, u := ExprAllocTwo(op, a, b, x, y, Nodes(x) + Nodes(y));
    case _ =>
      r := new ExprNode(n.etype, n.left, n.right);
      u := WithId(t, r);
  }

  method SetLeftOfPair(e: ExprNode, n: ExprNode, ghost t: Tree, ghost l: Tree, n2: ExprNode, ghost t2: Tree, ghost all: set<ExprNode>)
    requires t.BinTree? && e == t.id && e.etype == EOp(t.op) && e.right == Sub(t.right.id)
    requires Owns(n, l) && Owns(t.right.id, t.right) && e !in Nodes(l) && e !in Nodes(t.right) && Nodes(l) !! Nodes(t.right)
    requires Owns(n2, t2) && Nodes(t2) == all && e !in all && all !! Nodes(l) && all !! Nodes(t.right)
    modifies e`left
    ensures Pair(e, t.(left := l), n2, t2)
  {
    SetLeft(e, n, t, l);
  }

  method SetRightOfPair(e: ExprNode, n: ExprNode, ghost t: Tree, ghost r: Tree, n2: ExprNode, ghost t2: Tree, ghost all: set<ExprNode>)
    requires t.BinTree? && e == t.id && e.etype == EOp(t.op) && e.left == Sub(t.left.id)
    requires Owns(n, r) && Owns(t.left.id, t.left) && e !in Nodes(r) && e !in Nodes(t.left) && Nodes(r) !! Nodes(t.left)
    requires Owns(n2, t2) && Nodes(t2) == all && e !in all && all !! Nodes(r) && all !! Nodes(t.left)
    modifies e`right
    ensures Pair(e, t.(right := r), n2, t2)
  {
    SetRight(e, n, t, r);
  }

  /** Folding the first of two expressions. */
  method FoldFirst(n1: ExprNode, ghost t1: Tree, n2: ExprNode, ghost t2: Tree, ghost all: set<ExprNode>)
    returns (r1: ExprNode, ghost u1: Tree)
    requires Pair(n1, t1, n2, t2) && Nodes(t2) == all
    modifies Nodes(t1)
    ensures Pair(r1, u1, n2, t2) && Nodes(u1) <= Nodes(t1) && Plain(u1) == EliminateYn(Plain(t1))
  {
    r1, u1 := ExprEliminateYn(n1, t1);
  }

  // ----- Walks over slots -----

  function Measure(op: Op, e: Expr, p1: Path, p2: Path): nat
    requires Spine(op, e, p1) && Spine(op, e, p2)
  {
    SpineSize(op, At(op, e, p1)) + SpineSize(op, At(op, e, p2))
  }

  predicate InSlot(op: Op, t: Tree, p: Path, s: Slot) {
    Way(op, t, p) && s == SlotOf(op, t, p) && Spine(op, Plain(t), p) && Plain(SubTree(op, t, p)) == At(op, Plain(t), p)
  }

  predicate IsLeaf(op: Op, t: Tree, p: Path)
    requires Way(op, t, p)
  {
    !IsOpTree(SubTree(op, t, p), op)
  }

  /** Two slots of one expression whose root is the operator. */
  ghost predicate Walkable(op: Op, root: ExprNode, s1: Slot, s2: Slot, t: Tree, p1: Path, p2: Path, all: set<ExprNode>)
    reads Nodes(t)
  {
    Owns(root, t) && Nodes(t) == all && IsOpTree(t, op) && InSlot(op, t, p1, s1) && InSlot(op, t, p2, s2)
  }

  lemma InSide(op: Op, t: Tree, p: Path, s: Slot, b: bool)
    requires InSlot(op, t, p, s) && IsOpTree(SubTree(op, t, p), op)
    ensures InSlot(op, t, p + [b], Side(SubTree(op, t, p).id, b))
    ensures SpineSize(op, At(op, Plain(t), p + [b])) < SpineSize(op, At(op, Plain(t), p))
  {
    WayStep(op, t, p, b);
    WaySpine(op, t, p + [b]);
    SpineStep(op, Plain(t), p, b);
  }

  lemma StaysInSlot(op: Op, t: Tree, u: Tree, p: Path, s: Slot)
    requires InSlot(op, t, p, s) && KeepsSpine(op, t, u) && SameSpine(op, Plain(t), Plain(u))
    ensures InSlot(op, u, p, s) && SpineSize(op, At(op, Plain(u), p)) == SpineSize(op, At(op, Plain(t), p))
    ensures SubTree(op, u, p).id == SubTree(op, t, p).id || IsLeaf(op, t, p)
  {
    KeptSlot(op, t, u, p);
    WaySpine(op, u, p);
    SameSpineAt(op, Plain(t), Plain(u), p);
  }

  lemma FirstSplit(op: Op, e: Expr, p1: Path, p2: Path, v: Expr)
    requires Spine(op, e, p1) && Spine(op, e, p2) && IsOp(At(op, e, p1), op)
    requires Spine(op, e, p1 + [false]) && v == EliminateDups1(op, e, p1 + [false], p2).tree
    requires Spine(op, v, p1 + [true]) && Spine(op, v, p2)
    ensures
      var a, b := EliminateDups1(op, e, p1 + [false], p2), EliminateDups1(op, v, p1 + [true], p2);
      EliminateDups1(op, e, p1, p2) == Walk(b.tree, a.hits + b.hits)
  {
  }

  lemma SecondSplit(op: Op, e: Expr, p1: Path, p2: Path, v: Expr)
    requires Spine(op, e, p1) && Spine(op, e, p2) && !IsOp(At(op, e, p1), op) && IsOp(At(op, e, p2), op)
    requires Spine(op, e, p2 + [false]) && v == EliminateDups1(op, e, p1, p2 + [false]).tree
    requires Spine(op, v, p1) && Spine(op, v, p2 + [true])
    ensures
      var a, b := EliminateDups1(op, e, p1, p2 + [false]), EliminateDups1(op, v, p1, p2 + [true]);
      EliminateDups1(op, e, p1, p2) == Walk(b.tree, a.hits + b.hits)
  {
  }

  /** What becomes of a leaf before it is joined. */
  function Inside(e: Expr): Walk {
    if e.Binary? then EliminateDups1(e.op, e, [], []) else Walk(e, 0)
  }

  lemma LeavesSplit(op: Op, e: Expr, p1: Path, p2: Path, v: Expr)
    requires Spine(op, e, p1) && Spine(op, e, p2) && !IsOp(At(op, e, p1), op) && !IsOp(At(op, e, p2), op) && p1 != p2
    requires v == Replace(op, e, p1, Inside(At(op, e, p1)).tree)
    requires Spine(op, v, p1) && Spine(op, v, p2) && !IsOp(At(op, v, p1), op) && !IsOp(At(op, v, p2), op)
    ensures
      var a, b := Inside(At(op, e, p1)), JoinSlots(op, v, p1, p2);
      EliminateDups1(op, e, p1, p2) == Walk(b.tree, a.hits + b.hits)
  {
    SlotSmaller(op, e, p1);
  }

  lemma JoinStored(op: Op, e: Expr, p1: Path, p2: Path, v: Expr, j: Expr)
    requires Spine(op, e, p1) && Spine(op, e, p2) && !IsOp(At(op, e, p1), op) && !IsOp(At(op, e, p2), op) && p1 != p2
    requires Join(op, At(op, e, p1), At(op, e, p2)) == Some(j)
    requires v == Replace(op, e, p1, Neutral(op)) && Spine(op, v, p2)
    ensures JoinSlots(op, e, p1, p2) == Walk(Replace(op, v, p2, j), 1)
    ensures !IsOp(j, op)
  {
    JoinShape(op, At(op, e, p1), At(op, e, p2));
  }

  /** An operand put in the place of a leaf, seen from another leaf. */
  lemma PutLeaf(op: Op, t: Tree, p: Path, s: Slot, q: Path, r: Slot, x: Tree)
    requires InSlot(op, t, p, s) && InSlot(op, t, q, r) && IsLeaf(op, t, p) && IsLeaf(op, t, q) && p != q
    requires Unshared(t) && !IsOpTree(x, op)
    ensures
      var u := Put(op, t, p, x);
      InSlot(op, u, p, s) && InSlot(op, u, q, r) && SubTree(op, u, p) == x && SubTree(op, u, q) == SubTree(op, t, q) &&
      KeepsSpine(op, t, u) && Plain(u) == Replace(op, Plain(t), p, Plain(x))
  {
    var u := Put(op, t, p, x);
    PutKeepsSpine(op, t, p, x);
    OtherLeaf(op, t, p, q, x);
    KeptSlot(op, t, u, p);
    KeptSlot(op, t, u, q);
    WaySpine(op, u, p);
    WaySpine(op, u, q);
    PutPlain(op, t, p, x);
  }

  /** The expression that nodes hold, and nodes for an expression. */
  function ReadExpr(n: ExprNode, ghost t: Tree): (x: Expr)
    requires Owns(n, t)
    reads Nodes(t)
    ensures x == Plain(t)
    decreases t
  {
    match n.etype
    case ESymbol => Ref(n.left.sym)
    case ERel(rel) => Compare(rel, n.left.sym, n.right.sym)
    case ENot => Not(ReadExpr(n.left.expr, t.arg))
    case EOp(op) => Binary(op, ReadExpr(n.left.expr, t.left), ReadExpr(n.right.expr, t.right))
  }

  method BuildBeside(x: Expr, a: ExprNode, ghost t: Tree, ghost all: set<ExprNode>) returns (b: ExprNode, ghost u: Tree)
    requires Owns(a, t) && Nodes(t) == all
    ensures Pair(a, t, b, u) && fresh(Nodes(u)) && Plain(u) == x
    decreases x, 1
  {
    b, u := BuildExpr(x);
  }

  method BuildExpr(x: Expr) returns (n: ExprNode, ghost t: Tree)
    ensures Owns(n, t) && fresh(Nodes(t)) && Plain(t) == x
    decreases x, 0
  {
    match x
    case Ref(s) =>
      n := new ExprNode(ESymbol, Symb(s), Null);
      t := RefTree(n, s);
    case Compare(rel, a, b) =>
      n := new ExprNode(ERel(rel), Symb(a), Symb(b));
      t := CompareTree(n, rel, a, b);
    case Not(y) =>
      var a;
      ghost var ta;
      a, ta := BuildExpr(y);
      n, t := ExprAllocOne(a, ta, Nodes(ta));
    case Binary(op, l, r) =>
      var a, b;
      ghost var ta, tb;
      a, ta := BuildExpr(l);
      b, tb := BuildBeside(r, a, ta, Nodes(ta));
      n, t := ExprAllocTwo(op, a, b, ta, tb, Nodes(ta) + Nodes(tb));
  }

  /** The join of two operands in nodes of its own, or null. */
  method ExprJoin(op: Op, n1: ExprNode, n2: ExprNode, ghost t1: Tree, ghost t2: Tree, ghost all: set<ExprNode>)
    returns (r: ExprNode?, ghost x: Tree)
    requires Owns(n1, t1) && Owns(n2, t2) && Nodes(t1) + Nodes(t2) == all
    ensures r == null <==> Join(op, Plain(t1), Plain(t2)) == None
    ensures r != null ==> Owns(r, x) && fresh(Nodes(x)) && Some(Plain(x)) == Join(op, Plain(t1), Plain(t2))
  {
    var j := Join(op, ReadExpr(n1, t1), ReadExpr(n2, t2));
    r, x := null, t1;
    if j.Some? { r, x := BuildExpr(j.value); }
  }

  /** A leaf is replaced in its slot. */
  method StoreLeaf(op: Op, root: ExprNode, s: Slot, n: ExprNode, ghost t: Tree, ghost p: Path, ghost r: Slot, ghost q: Path,
                   ghost x: Tree, ghost all: set<ExprNode>)
    requires Owns(root, t) && IsOpTree(t, op) && InSlot(op, t, p, s) && InSlot(op, t, q, r) && IsLeaf(op, t, p) && IsLeaf(op, t, q) && p != q
    requires Owns(n, x) && !IsOpTree(x, op) && Nodes(x) !! Nodes(t) && all == Nodes(t) + Nodes(x)
    modifies Nodes(t)
    ensures
      var u := Put(op, t, p, x);
      Owns(root, u) && Nodes(u) <= all && IsOpTree(u, op) && Plain(u) == Replace(op, Plain(t), p, Plain(x)) && KeepsSpine(op, t, u) &&
      InSlot(op, u, p, s) && InSlot(op, u, q, r) && SubTree(op, u, p) == x && SubTree(op, u, q) == SubTree(op, t, q)
  {
    PutLeaf(op, t, p, s, q, r, x);
    AroundAndInside(op, t, p);
    SlotAround(op, t, p);
    SetSlot(op, root, s, n, t, p, x, all);
    PutUnshared(op, t, p, x);
  }

  /** Two leaves in the same node are the same slot. */
  lemma SameNode(op: Op, t: Tree, p1: Path, p2: Path)
    requires Way(op, t, p1) && IsLeaf(op, t, p1) && Way(op, t, p2) && IsLeaf(op, t, p2) && Unshared(t)
    ensures SubTree(op, t, p1).id == SubTree(op, t, p2).id <==> p1 == p2
    ensures p1 == p2 && Spine(op, Plain(t), p1) && !IsOp(At(op, Plain(t), p1), op) ==>
              EliminateDups1(op, Plain(t), p1, p2) == Walk(Plain(t), 0)
  {
    if p1 != p2 { OtherLeaf(op, t, p1, p2, SubTree(op, t, p1)); }
  }

  /** One turn of the loop. */
  lemma DupsStep(e: Expr, x: Expr, count: nat)
    requires if e.Binary? then Walk(x, count) == EliminateDups1(e.op, e, [], []) else x == e && count == 0
    ensures if count == 0 then x == EliminateDups(e)
            else EliminateDups(EliminateYn(x)) == EliminateDups(e) && Size(EliminateYn(x)) < Size(e)
  {
    if e.Binary? {
      EliminateDups1Progress(e.op, e, [], []);
      if count != 0 {
        EliminateYnShrinks(x);
        WalkAgain(e, x, count);
      }
    }
  }

  lemma WalkAgain(e: Expr, x: Expr, count: nat)
    requires e.Binary? && Walk(x, count) == EliminateDups1(e.op, e, [], []) && count != 0
    ensures EliminateDups(e) == EliminateDups(EliminateYn(x))
  {
  }

  // ----- Expressions that may be absent -----

  ghost predicate OwnsAny(n: ExprNode?, t: Option<Tree>)
    reads NodesAny(t)
  {
    (n == null <==> t.None?) && (n != null ==> Owns(n, t.value))
  }

  ghost function PlainAny(t: Option<Tree>): Option<Expr> {
    if t.None? then None else Some(Plain(t.value))
  }

  ghost function NodesAny(t: Option<Tree>): set<ExprNode> {
    if t.Some? then Nodes(t.value) else {}
  }

  /** A copy of the first, if any, and the second, if any, joined by &&. */
  method AllocAndCopy(a: ExprNode?, b: ExprNode?, ghost ta: Option<Tree>, ghost tb: Option<Tree>, ghost all: set<ExprNode>)
    returns (r: ExprNode?, ghost u: Option<Tree>, ghost now: set<ExprNode>)
    requires OwnsAny(a, ta) && OwnsAny(b, tb) && all == NodesAny(tb)
    ensures OwnsAny(r, u) && PlainAny(u) == AllocAnd(PlainAny(ta), PlainAny(tb))
    ensures NodesAny(u) == now && fresh(now - all)
  {
    r, u := b, tb;
    if a != null {
      var c;
      ghost var x;
      if b == null {
        c, x := ExprCopy(a, ta.value);
        r, u := c, Some(x);
      } else {
        c, x := CopyBeside(a, ta.value, b, tb.value, all);
        ghost var y;
        r, y := ExprAllocTwo(AndOp, c, b, x, tb.value, Nodes(x) + all);
        u := Some(y);
      }
    }
    now := NodesAny(u);
  }

  class Rewriter {
    var transCount: nat

    /** What cancelling leaves: both trees and the number of hits. */
    ghost predicate Cancelled(c: Trees, count: nat, u1: Tree, u2: Tree)
      reads `transCount
    {
      Plain(u1) == c.a && Plain(u2) == c.b && transCount == count + c.hits
    }

    method CancelLeft(op: Op, n1: ExprNode, n2: ExprNode, ghost t1: Tree, ghost t2: Tree, ghost all: set<ExprNode>)
      returns (r2: ExprNode, ghost u1: Tree, ghost u2: Tree, ghost now: set<ExprNode>)
      requires Pair(n1, t1, n2, t2) && Nodes(t1) + Nodes(t2) == all && t1.BinTree? && t1.op == op
      modifies `transCount, all
      ensures Pair(n1, u1, r2, u2) && Nodes(u1) + Nodes(u2) == now && fresh(now - all)
      ensures u1.BinTree? && u1 == t1.(left := u1.left)
      ensures Cancelled(CancelEqual(op, Plain(t1.left), Plain(t2)), old(transCount), u1.left, u2)
      decreases Size(Plain(t1)) + Size(Plain(t2)), 0, 0
    {
      var r1;
      ghost var l;
      r1, r2, l, u2, now := CancelEqualNodes(op, n1.left.expr, n2, t1.left, t2, Nodes(t1.left) + Nodes(t2));
      SetLeftOfPair(n1, r1, t1, l, r2, u2, Nodes(u2));
      u1 := t1.(left := l);
      now := Nodes(u1) + Nodes(u2);
    }

    method CancelRight(op: Op, n1: ExprNode, n2: ExprNode, ghost t1: Tree, ghost t2: Tree, ghost all: set<ExprNode>)
      returns (r2: ExprNode, ghost u1: Tree, ghost u2: Tree, ghost now: set<ExprNode>)
      requires Pair(n1, t1, n2, t2) && Nodes(t1) + Nodes(t2) == all && t1.BinTree? && t1.op == op
      modifies `transCount, all
      ensures Pair(n1, u1, r2, u2) && Nodes(u1) + Nodes(u2) == now && fresh(now - all)
      ensures u1.BinTree? && u1 == t1.(right := u1.right)
      ensures Cancelled(CancelEqual(op, Plain(t1.right), Plain(t2)), old(transCount), u1.right, u2)
      decreases Size(Plain(t1)) + Size(Plain(t2)), 0, 0
    {
      var r1;
      ghost var r;
      r1, r2, r, u2, now := CancelEqualNodes(op, n1.right.expr, n2, t1.right, t2, Nodes(t1.right) + Nodes(t2));
      SetRightOfPair(n1, r1, t1, r, r2, u2, Nodes(u2));
      u1 := t1.(right := r);
      now := Nodes(u1) + Nodes(u2);
    }

    /** Each operand of the first expression against the second. */
    method CancelUnderFirst(op: Op, n1: ExprNode, n2: ExprNode, ghost t1: Tree, ghost t2: Tree, ghost all: set<ExprNode>)
      returns (r2: ExprNode, ghost u1: Tree, ghost u2: Tree, ghost now: set<ExprNode>)
      requires Pair(n1, t1, n2, t2) && Nodes(t1) + Nodes(t2) == all && t1.BinTree? && t1.op == op
      modifies `transCount, all
      ensures Pair(n1, u1, r2, u2) && Nodes(u1) + Nodes(u2) == now && fresh(now - all)
      ensures Cancelled(CancelEqual(op, Plain(t1), Plain(t2)), old(transCount), u1, u2)
      decreases Size(Plain(t1)) + Size(Plain(t2)), 0, 1
    {
      ghost var v1, v2, mid;
      r2, v1, v2, mid := CancelLeft(op, n1, n2, t1, t2, all);
      r2, u1, u2, now := CancelRight(op, n1, r2, v1, v2, mid);
      Through(all, mid, now);
    }

    method CancelOtherLeft(op: Op, n1: ExprNode, n2: ExprNode, ghost t1: Tree, ghost t2: Tree, ghost all: set<ExprNode>)
      returns (r1: ExprNode, ghost u1: Tree, ghost u2: Tree, ghost now: set<ExprNode>)
      requires Pair(n1, t1, n2, t2) && Nodes(t1) + Nodes(t2) == all && !IsOp(Plain(t1), op) && t2.BinTree? && t2.op == op
      modifies `transCount, all
      ensures Pair(r1, u1, n2, u2) && Nodes(u1) + Nodes(u2) == now && fresh(now - all)
      ensures u2.BinTree? && u2 == t2.(left := u2.left)
      ensures Cancelled(CancelEqual(op, Plain(t1), Plain(t2.left)), old(transCount), u1, u2.left)
      decreases Size(Plain(t1)) + Size(Plain(t2)), 0, 0
    {
      var r2;
      ghost var l;
      r1, r2, u1, l, now := CancelEqualNodes(op, n1, n2.left.expr, t1, t2.left, Nodes(t1) + Nodes(t2.left));
      SetLeftOfPair(n2, r2, t2, l, r1, u1, Nodes(u1));
      u2 := t2.(left := l);
      now := Nodes(u1) + Nodes(u2);
    }

    method CancelOtherRight(op: Op, n1: ExprNode, n2: ExprNode, ghost t1: Tree, ghost t2: Tree, ghost all: set<ExprNode>)
      returns (r1: ExprNode, ghost u1: Tree, ghost u2: Tree, ghost now: set<ExprNode>)
      requires Pair(n1, t1, n2, t2) && Nodes(t1) + Nodes(t2) == all && !IsOp(Plain(t1), op) && t2.BinTree? && t2.op == op
      modifies `transCount, all
      ensures Pair(r1, u1, n2, u2) && Nodes(u1) + Nodes(u2) == now && fresh(now - all)
      ensures u2.BinTree? && u2 == t2.(right := u2.right)
      ensures Cancelled(CancelEqual(op, Plain(t1), Plain(t2.right)), old(transCount), u1, u2.right)
      decreases Size(Plain(t1)) + Size(Plain(t2)), 0, 0
    {
      var r2;
      ghost var r;
      r1, r2, u1, r, now := CancelEqualNodes(op, n1, n2.right.expr, t1, t2.right, Nodes(t1) + Nodes(t2.right));
      SetRightOfPair(n2, r2, t2, r, r1, u1, Nodes(u1));
      u2 := t2.(right := r);
      now := Nodes(u1) + Nodes(u2);
    }

    /** A leaf against each operand of the second expression. */
    method CancelUnderSecond(op: Op, n1: ExprNode, n2: ExprNode, ghost t1: Tree, ghost t2: Tree, ghost all: set<ExprNode>)
      returns (r1: ExprNode, ghost u1: Tree, ghost u2: Tree, ghost now: set<ExprNode>)
      requires Pair(n1, t1, n2, t2) && Nodes(t1) + Nodes(t2) == all && !IsOp(Plain(t1), op) && t2.BinTree? && t2.op == op
      modifies `transCount, all
      ensures Pair(r1, u1, n2, u2) && Nodes(u1) + Nodes(u2) == now && fresh(now - all)
      ensures Cancelled(CancelEqual(op, Plain(t1), Plain(t2)), old(transCount), u1, u2)
      decreases Size(Plain(t1)) + Size(Plain(t2)), 0, 1
    {
      ghost var v1, v2, mid;
      r1, v1, v2, mid := CancelOtherLeft(op, n1, n2, t1, t2, all);
      r1, u1, u2, now := CancelOtherRight(op, r1, n2, v1, v2, mid);
      Through(all, mid, now);
    }

    /** Two leaves: equal ones both become neutral. */
    method CancelLeaves(op: Op, n1: ExprNode, n2: ExprNode, ghost t1: Tree, ghost t2: Tree, ghost all: set<ExprNode>)
      returns (r1: ExprNode, r2: ExprNode, ghost u1: Tree, ghost u2: Tree, ghost now: set<ExprNode>)
      requires Pair(n1, t1, n2, t2) && Nodes(t1) + Nodes(t2) == all && !IsOp(Plain(t1), op) && !IsOp(Plain(t2), op)
      modifies `transCount
      ensures Pair(r1, u1, r2, u2) && Nodes(u1) + Nodes(u2) == now && fresh(now - all)
      ensures Cancelled(CancelEqual(op, Plain(t1), Plain(t2)), old(transCount), u1, u2)
      decreases Size(Plain(t1)) + Size(Plain(t2)), 4, 0
    {
      r1, r2, u1, u2, now := n1, n2, t1, t2, all;
      if n1.etype == ESymbol && n2.etype == ESymbol && n1.left == n2.left && (n1.left == Symb(Yes) || n1.left == Symb(No)) {
        return;
      }
      var same := ExprEq(n1, n2, t1, t2, all);
      if !same { return; }
      transCount := transCount + 1;
      var s := if op == OrOp then No else Yes;
      r1 := new ExprNode(ESymbol, Symb(s), Null);
      r2 := new ExprNode(ESymbol, Symb(s), Null);
      u1, u2 := RefTree(r1, s), RefTree(r2, s);
      now := {r1, r2};
    }

    method CancelEqualNodes(op: Op, n1: ExprNode, n2: ExprNode, ghost t1: Tree, ghost t2: Tree, ghost all: set<ExprNode>)
      returns (r1: ExprNode, r2: ExprNode, ghost u1: Tree, ghost u2: Tree, ghost now: set<ExprNode>)
      requires Pair(n1, t1, n2, t2) && Nodes(t1) + Nodes(t2) == all
      modifies `transCount, all
      ensures Pair(r1, u1, r2, u2) && Nodes(u1) + Nodes(u2) == now && fresh(now - all)
      ensures Cancelled(CancelEqual(op, Plain(t1), Plain(t2)), old(transCount), u1, u2)
      decreases Size(Plain(t1)) + Size(Plain(t2)), if IsOp(Plain(t1), op) || IsOp(Plain(t2), op) then 0 else 4, 2
    {
      r1, r2 := n1, n2;
      if n1.etype == EOp(op) {
        r2, u1, u2, now := CancelUnderFirst(op, n1, n2, t1, t2, all);
      } else if n2.etype == EOp(op) {
        r1, u1, u2, now := CancelUnderSecond(op, n1, n2, t1, t2, all);
      } else {
        r1, r2, u1, u2, now := CancelLeaves(op, n1, n2, t1, t2, all);
      }
    }

    method CancelLevelsNodes(n1: ExprNode, n2: ExprNode, ghost t1: Tree, ghost t2: Tree, ghost all: set<ExprNode>)
      returns (r1: ExprNode, r2: ExprNode, ghost u1: Tree, ghost u2: Tree, ghost now: set<ExprNode>)
      requires Pair(n1, t1, n2, t2) && Nodes(t1) + Nodes(t2) == all
      modifies `transCount, all
      ensures Pair(r1, u1, r2, u2) && Nodes(u1) + Nodes(u2) == now && fresh(now - all)
      ensures Cancelled(CancelLevels(Plain(t1), Plain(t2)), old(transCount), u1, u2)
      decreases Size(Plain(t1)) + Size(Plain(t2)), 1, 0
    {
      ghost var v1, v2, mid := t1, t2, all;
      r1, r2 := n1, n2;
      if n1.etype.EOp? {
        r1, r2, v1, v2, mid := CancelEqualNodes(n1.etype.op, n1, n2, t1, t2, all);
      }
      u1, u2, now := v1, v2, mid;
      if r1.etype != r2.etype && r2.etype.EOp? {
        r1, r2, u1, u2, now := CancelEqualNodes(r2.etype.op, r1, r2, v1, v2, mid);
      }
      Through(all, mid, now);
    }

    /** Both expressions rewritten to remove what they have in common. */
    method ExprEliminateEq(n1: ExprNode, n2: ExprNode, ghost t1: Tree, ghost t2: Tree, ghost all: set<ExprNode>)
      returns (r1: ExprNode, r2: ExprNode, ghost u1: Tree, ghost u2: Tree, ghost now: set<ExprNode>)
      requires Pair(n1, t1, n2, t2) && Nodes(t1) + Nodes(t2) == all
      modifies `transCount, all
      ensures Pair(r1, u1, r2, u2) && Nodes(u1) + Nodes(u2) == now && fresh(now - all)
      ensures Cancelled(EliminateEq(Plain(t1), Plain(t2)), old(transCount), u1, u2)
      decreases Size(Plain(t1)) + Size(Plain(t2)), 2, 0
    {
      ghost var mid;
      r1, r2, u1, u2, mid := CancelLevelsNodes(n1, n2, t1, t2, all);
      r1, u1 := FoldFirst(r1, u1, r2, u2, Nodes(u2));
      r2, u2 := FoldFirst(r2, u2, r1, u1, Nodes(u1));
      now := Nodes(u1) + Nodes(u2);
      assert now - all <= mid - all;
    }

    /** Equality of two operators, found out on copies. */
    method EqOperators(n1: ExprNode, n2: ExprNode, ghost t1: Tree, ghost t2: Tree, ghost all: set<ExprNode>) returns (res: bool)
      requires Owns(n1, t1) && Owns(n2, t2) && Nodes(t1) + Nodes(t2) == all
      requires t1.BinTree? && t2.BinTree? && t1.op == t2.op
      modifies `transCount
      ensures res == Eq(Plain(t1), Plain(t2)) && transCount == old(transCount)
      decreases Size(Plain(t1)) + Size(Plain(t2)), 2, 1
    {
      var oldCount := transCount;
      var e1, e2;
      ghost var x1, x2, now;
      e1, x1 := ExprCopy(n1, t1);
      e2, x2 := CopyBeside(n2, t2, e1, x1, Nodes(x1));
      e1, e2, x1, x2, now := ExprEliminateEq(e1, e2, x1, x2, Nodes(x1) + Nodes(x2));
      res := e1.etype == ESymbol && e2.etype == ESymbol && e1.left == e2.left;
      transCount := oldCount;
    }

    method ExprEq(n1: ExprNode, n2: ExprNode, ghost t1: Tree, ghost t2: Tree, ghost all: set<ExprNode>) returns (res: bool)
      requires Owns(n1, t1) && Owns(n2, t2) && Nodes(t1) + Nodes(t2) == all
      modifies `transCount
      ensures res == Eq(Plain(t1), Plain(t2)) && transCount == old(transCount)
      decreases Size(Plain(t1)) + Size(Plain(t2)), 3, 0
    {
      if n1.etype != n2.etype { return false; }
      match n1.etype
      case ERel(_) => res := n1.left == n2.left && n1.right == n2.right;
      case ESymbol => res := n1.left == n2.left;
      case ENot => res := ExprEq(n1.left.expr, n2.left.expr, t1.arg, t2.arg, Nodes(t1.arg) + Nodes(t2.arg));
      case EOp(_) => res := EqOperators(n1, n2, t1, t2, all);
    }

    // ----- Duplicates -----

    /** A walk has rewritten the expression in place: its operators stay where they are, and
        expression and count are those of w. */
    ghost predicate Walked(op: Op, root: ExprNode, t: Tree, w: Walk, count: nat, u: Tree, now: set<ExprNode>)
      reads `transCount, Nodes(u)
    {
      Owns(root, u) && Nodes(u) == now && KeepsSpine(op, t, u) && Plain(u) == w.tree && transCount == count + w.hits
    }

    /** The operand in a slot, if it is the other operator, is walked against itself. */
    method WalkOperand(e: ExprNode, ghost t: Tree) returns (ghost u: Tree, ghost now: set<ExprNode>)
      requires Owns(e, t)
      modifies `transCount, Nodes(t)
      ensures Owns(e, u) && Nodes(u) == now && fresh(now - Nodes(t)) && (t.BinTree? <==> u.BinTree?) && (t.BinTree? ==> u.op == t.op)
      ensures Plain(u) == Inside(Plain(t)).tree && transCount == old(transCount) + Inside(Plain(t)).hits
      decreases Size(Plain(t)), SpineSize(if t.BinTree? then t.op else OrOp, Plain(t)) * 2, 9
    {
      u, now := t, Nodes(t);
      if e.etype.EOp? {
        WaySpine(t.op, t, []);
        u, now := ExprEliminateDups1(e.etype.op, e, Root, Root, t, [], [], Nodes(t));
      }
    }

    method WalkInside(op: Op, root: ExprNode, s: Slot, ghost t: Tree, ghost p: Path, ghost all: set<ExprNode>)
      returns (ghost x: Tree, ghost now: set<ExprNode>)
      requires Owns(root, t) && Nodes(t) == all && IsOpTree(t, op) && InSlot(op, t, p, s) && IsLeaf(op, t, p)
      modifies `transCount, all
      ensures fresh(now - all) && Owns(root, Put(op, t, p, x)) && Nodes(Put(op, t, p, x)) == now && !IsOpTree(x, op)
      ensures
        var w := Inside(Plain(SubTree(op, t, p)));
        Plain(x) == w.tree && transCount == old(transCount) + w.hits
      decreases Size(Plain(t)), 0, 0
    {
      Opened(op, root, t, p);
      AroundAndInside(op, t, p);
      SlotAround(op, t, p);
      SlotSmaller(op, Plain(t), p);
      ghost var inside;
      x, inside := WalkOperand(Linked(root, s).expr, SubTree(op, t, p));
      Closed(op, root, t, p, x);
      PutUnshared(op, t, p, x);
      now := Around(op, t, p) + inside;
    }

    /** The join of the leaves in two slots, or null. */
    method TryJoin(op: Op, root: ExprNode, s1: Slot, s2: Slot, ghost t: Tree, ghost p1: Path, ghost p2: Path, ghost all: set<ExprNode>)
      returns (tmp: ExprNode?, ghost x: Tree)
      requires Walkable(op, root, s1, s2, t, p1, p2, all)
      ensures tmp == null <==> Join(op, At(op, Plain(t), p1), At(op, Plain(t), p2)) == None
      ensures tmp != null ==>
                Owns(tmp, x) && fresh(Nodes(x)) && Join(op, At(op, Plain(t), p1), At(op, Plain(t), p2)) == Some(Plain(x))
    {
      Opened(op, root, t, p1);
      Opened(op, root, t, p2);
      tmp, x := ExprJoin(op, Linked(root, s1).expr, Linked(root, s2).expr, SubTree(op, t, p1), SubTree(op, t, p2),
                         Nodes(SubTree(op, t, p1)) + Nodes(SubTree(op, t, p2)));
    }

    /** Two leaves in different slots: when they join, the first becomes neutral and the second
        the join. */
    method JoinAt(op: Op, root: ExprNode, s1: Slot, s2: Slot, ghost t: Tree, ghost p1: Path, ghost p2: Path, ghost all: set<ExprNode>)
      returns (ghost u: Tree, ghost now: set<ExprNode>)
      requires Walkable(op, root, s1, s2, t, p1, p2, all) && IsLeaf(op, t, p1) && IsLeaf(op, t, p2) && p1 != p2
      modifies `transCount, all
      ensures fresh(now - all) && Walked(op, root, t, JoinSlots(op, Plain(t), p1, p2), old(transCount), u, now)
    {
      var tmp;
      ghost var x;
      tmp, x := TryJoin(op, root, s1, s2, t, p1, p2, all);
      u, now := t, all;
      if tmp == null {
        KeepsSpineReflexive(op, t);
      } else {
        u, now := StoreBoth(op, root, s1, s2, tmp, t, p1, p2, x, all, Nodes(x));
        transCount := transCount + 1;
      }
    }

    /** Two leaves in different slots. */
    method WalkLeaves(op: Op, root: ExprNode, s1: Slot, s2: Slot, ghost t: Tree, ghost p1: Path, ghost p2: Path, ghost all: set<ExprNode>)
      returns (ghost u: Tree, ghost now: set<ExprNode>)
      requires Walkable(op, root, s1, s2, t, p1, p2, all) && IsLeaf(op, t, p1) && IsLeaf(op, t, p2) && p1 != p2
      modifies `transCount, all
      ensures fresh(now - all) && Walked(op, root, t, EliminateDups1(op, Plain(t), p1, p2), old(transCount), u, now)
      decreases Size(Plain(t)), 0, 1
    {
      ghost var x, mid;
      x, mid := WalkInside(op, root, s1, t, p1, all);
      ghost var v := Put(op, t, p1, x);
      PutLeaf(op, t, p1, s1, p2, s2, x);
      LeavesSplit(op, Plain(t), p1, p2, Plain(v));
      u, now := JoinAt(op, root, s1, s2, v, p1, p2, mid);
      KeepsSpineTransitive(op, t, v, u);
      Through(all, mid, now);
    }

    /** Both operands of the operator in the first slot. */
    method WalkFirst(op: Op, root: ExprNode, s1: Slot, s2: Slot, e: ExprNode, ghost t: Tree, ghost p1: Path, ghost p2: Path,
                     ghost all: set<ExprNode>)
      returns (ghost u: Tree, ghost now: set<ExprNode>)
      requires Walkable(op, root, s1, s2, t, p1, p2, all) && !IsLeaf(op, t, p1) && e == SubTree(op, t, p1).id
      modifies `transCount, all
      ensures fresh(now - all) && Walked(op, root, t, EliminateDups1(op, Plain(t), p1, p2), old(transCount), u, now)
      decreases Size(Plain(t)), Measure(op, Plain(t), p1, p2), 0
    {
      InSide(op, t, p1, s1, false);
      InSide(op, t, p1, s1, true);
      ghost var v, mid;
      v, mid := ExprEliminateDups1(op, root, Side(e, false), s2, t, p1 + [false], p2, all);
      StaysInSlot(op, t, v, p1 + [true], Side(e, true));
      StaysInSlot(op, t, v, p2, s2);
      FirstSplit(op, Plain(t), p1, p2, Plain(v));
      u, now := ExprEliminateDups1(op, root, Side(e, true), s2, v, p1 + [true], p2, mid);
      KeepsSpineTransitive(op, t, v, u);
      Through(all, mid, now);
    }

    /** Both operands of the operator in the second slot. */
    method WalkSecond(op: Op, root: ExprNode, s1: Slot, s2: Slot, e: ExprNode, ghost t: Tree, ghost p1: Path, ghost p2: Path,
                      ghost all: set<ExprNode>)
      returns (ghost u: Tree, ghost now: set<ExprNode>)
      requires Walkable(op, root, s1, s2, t, p1, p2, all) && IsLeaf(op, t, p1) && !IsLeaf(op, t, p2) && e == SubTree(op, t, p2).id
      modifies `transCount, all
      ensures fresh(now - all) && Walked(op, root, t, EliminateDups1(op, Plain(t), p1, p2), old(transCount), u, now)
      decreases Size(Plain(t)), Measure(op, Plain(t), p1, p2), 0
    {
      InSide(op, t, p2, s2, false);
      InSide(op, t, p2, s2, true);
      ghost var v, mid;
      v, mid := ExprEliminateDups1(op, root, s1, Side(e, false), t, p1, p2 + [false], all);
      StaysInSlot(op, t, v, p2 + [true], Side(e, true));
      StaysInSlot(op, t, v, p1, s1);
      SecondSplit(op, Plain(t), p1, p2, Plain(v));
      u, now := ExprEliminateDups1(op, root, s1, Side(e, true), v, p1, p2 + [true], mid);
      KeepsSpineTransitive(op, t, v, u);
      Through(all, mid, now);
    }

    /** Every leaf below the first slot is tried against every leaf below the second. */
    method ExprEliminateDups1(op: Op, root: ExprNode, s1: Slot, s2: Slot, ghost t: Tree, ghost p1: Path, ghost p2: Path,
                              ghost all: set<ExprNode>)
      returns (ghost u: Tree, ghost now: set<ExprNode>)
      requires Walkable(op, root, s1, s2, t, p1, p2, all)
      modifies `transCount, all
      ensures fresh(now - all) && Walked(op, root, t, EliminateDups1(op, Plain(t), p1, p2), old(transCount), u, now)
      decreases Size(Plain(t)), Measure(op, Plain(t), p1, p2), 2
    {
      Opened(op, root, t, p1);
      Opened(op, root, t, p2);
      var e1, e2 := Linked(root, s1).expr, Linked(root, s2).expr;
      if e1.etype == EOp(op) {
        u, now := WalkFirst(op, root, s1, s2, e1, t, p1, p2, all);
      } else if e2.etype == EOp(op) {
        u, now := WalkSecond(op, root, s1, s2, e2, t, p1, p2, all);
      } else {
        SameNode(op, t, p1, p2);
        u, now := t, all;
        KeepsSpineReflexive(op, t);
        if e1 != e2 { u, now := WalkLeaves(op, root, s1, s2, t, p1, p2, all); }
      }
    }

    /** One walk, counted from 0. */
    method WalkOnce(e: ExprNode, ghost t: Tree, ghost all: set<ExprNode>) returns (ghost u: Tree, ghost now: set<ExprNode>)
      requires Owns(e, t) && Nodes(t) == all
      modifies `transCount, all
      ensures Owns(e, u) && Nodes(u) == now && fresh(now - all)
      ensures if transCount == 0 then Plain(u) == EliminateDups(Plain(t))
              else EliminateDups(EliminateYn(Plain(u))) == EliminateDups(Plain(t)) && Size(EliminateYn(Plain(u))) < Size(Plain(t))
    {
      transCount := 0;
      u, now := t, all;
      if e.etype.EOp? { u, now := WalkWhole(e, t, all); }
      DupsStep(Plain(t), Plain(u), transCount);
    }

    /** Walks and folds until a walk counts nothing; the count is restored at the end. */
    method ExprEliminateDups(e: ExprNode, ghost t: Tree) returns (r: ExprNode, ghost u: Tree)
      requires Owns(e, t)
      modifies `transCount, Nodes(t)
      ensures Owns(r, u) && fresh(Nodes(u) - Nodes(t)) && Plain(u) == EliminateDups(Plain(t)) && transCount == old(transCount)
    {
      ghost var all, mid := Nodes(t), Nodes(t);
      var oldCount := transCount;
      r, u := e, t;
      while true
        invariant Owns(r, u) && Nodes(u) == mid && fresh(mid - all) && EliminateDups(Plain(u)) == EliminateDups(Plain(t))
        decreases Size(Plain(u))
      {
        ghost var now;
        u, now := WalkOnce(r, u, mid);
        Through(all, mid, now);
        mid := now;
        if transCount == 0 { break; }
        r, u := ExprEliminateYn(r, u);
        mid := Nodes(u);
      }
      transCount := oldCount;
    }

    method WalkWhole(e: ExprNode, ghost t: Tree, ghost all: set<ExprNode>) returns (ghost u: Tree, ghost now: set<ExprNode>)
      requires Owns(e, t) && t.BinTree? && Nodes(t) == all
      modifies `transCount, all
      ensures Owns(e, u) && Nodes(u) == now && fresh(now - all)
      ensures
        var w := EliminateDups1(t.op, Plain(t), [], []);
        Plain(u) == w.tree && transCount == old(transCount) + w.hits
    {
      WaySpine(t.op, t, []);
      u, now := ExprEliminateDups1(e.etype.op, e, Root, Root, t, [], [], all);
    }

    method StoreBoth(op: Op, root: ExprNode, s1: Slot, s2: Slot, tmp: ExprNode, ghost t: Tree, ghost p1: Path, ghost p2: Path,
                     ghost x: Tree, ghost all: set<ExprNode>, ghost others: set<ExprNode>)
      returns (ghost u: Tree, ghost now: set<ExprNode>)
      requires Walkable(op, root, s1, s2, t, p1, p2, all) && IsLeaf(op, t, p1) && IsLeaf(op, t, p2) && p1 != p2
      requires Owns(tmp, x) && Nodes(x) == others && others !! all && Join(op, At(op, Plain(t), p1), At(op, Plain(t), p2)) == Some(Plain(x))
      modifies all
      ensures fresh(now - all - others) && Owns(root, u) && Nodes(u) == now && KeepsSpine(op, t, u)
      ensures Plain(u) == JoinSlots(op, Plain(t), p1, p2).tree
    {
      var s := if op == OrOp then No else Yes;
      var n := new ExprNode(ESymbol, Symb(s), Null);
      ghost var y := RefTree(n, s);
      StoreLeaf(op, root, s1, n, t, p1, s2, p2, y, all + {n});
      ghost var v := Put(op, t, p1, y);
      JoinStored(op, Plain(t), p1, p2, Plain(v), Plain(x));
      StoreLeaf(op, root, s2, tmp, v, p2, s1, p1, x, Nodes(v) + others);
      u := Put(op, v, p2, x);
      KeepsSpineTransitive(op, t, v, u);
      now := Nodes(u);
    }

    // ----- Dependencies -----

    method TransformOwn(dep: ExprNode, ghost t: Tree, ghost all: set<ExprNode>) returns (r: ExprNode, ghost u: Tree, ghost now: set<ExprNode>)
      requires Owns(dep, t) && Nodes(t) == all
      modifies all
      ensures Owns(r, u) && Nodes(u) == now && fresh(now - all) && Plain(u) == Transform(Plain(t))
    {
      r, u := ExprTransform(dep, t);
      now := Nodes(u);
    }

    method OwnDependency(dep: ExprNode, modules: Symbol, ghost t: Tree, ghost all: set<ExprNode>)
      returns (r: ExprNode, ghost u: Tree, ghost now: set<ExprNode>)
      requires Owns(dep, t) && Nodes(t) == all
      modifies all
      ensures Owns(r, u) && Nodes(u) == now && fresh(now - all) && Plain(u) == Transform(RewriteM(Plain(t), modules))
    {
      ghost var v;
      r, v := ExprRewriteM(dep, modules, t);
      ghost var mid := Nodes(v);
      r, u, now := TransformOwn(r, v, mid);
      Through(all, mid, now);
    }

    /** The child's own dependency, if any; the parent's, on other nodes, is left alone. */
    method OwnBeside(parent: ExprNode?, dep: ExprNode?, modules: Symbol, ghost tp: Option<Tree>, ghost td: Option<Tree>,
                     ghost others: set<ExprNode>, ghost all: set<ExprNode>)
      returns (own: ExprNode?, ghost t: Option<Tree>, ghost now: set<ExprNode>)
      requires OwnsAny(parent, tp) && OwnsAny(dep, td) && others == NodesAny(tp) && all == NodesAny(td) && others !! all
      modifies all
      ensures OwnsAny(parent, tp) && OwnsAny(own, t) && NodesAny(t) == now && fresh(now - all)
      ensures PlainAny(t) == if td.None? then None else Some(Transform(RewriteM(Plain(td.value), modules)))
    {
      own, t, now := dep, td, all;
      if dep != null {
        ghost var x;
        own, x, now := OwnDependency(dep, modules, td.value, all);
        t := Some(x);
      }
    }

    /** The dependency of a child is rewritten, joined to a copy of its parent's and rid of
        duplicates. */
    method PropagateDependency(parent: ExprNode?, dep: ExprNode?, modules: Symbol, ghost tp: Option<Tree>, ghost td: Option<Tree>)
      returns (r: ExprNode?, ghost u: Option<Tree>)
      requires OwnsAny(parent, tp) && OwnsAny(dep, td) && NodesAny(tp) !! NodesAny(td)
      modifies `transCount, NodesAny(td)
      ensures OwnsAny(r, u) && PlainAny(u) == PropagateDep(PlainAny(tp), PlainAny(td), modules)
      ensures transCount == old(transCount)
    {
      var own;
      ghost var t, mid, now;
      ghost var all := NodesAny(td);
      own, t, mid := OwnBeside(parent, dep, modules, tp, td, NodesAny(tp), all);
      r, u, now := AllocAndCopy(parent, own, tp, t, mid);
      Through(all, mid, now);
      if r != null {
        ghost var y;
        r, y := ExprEliminateDups(r, u.value);
        u := Some(y);
      }
    }
  }

  lemma Through<T>(a: set<T>, b: set<T>, c: set<T>)
    ensures c - a <= (b - a) + (c - b)
  {
  }
}
