/** Slots of an expression: the places, in nodes, where its operands are linked. */
module KconfigSlots {
  import opened KconfigExpr
  import opened KconfigDups
  import opened KconfigNodes

  /** Where an expression is linked: from outside, or from one side of a node. */
  datatype Slot = Root | Side(of: ExprNode, right: bool)

  function Linked(root: ExprNode, s: Slot): Data
    reads if s.Side? then {s.of} else {}
  {
    if s.Root? then Sub(root) else if s.right then s.of.right else s.of.left
  }

  // ----- Ways through a tree -----

  predicate IsOpTree(t: Tree, op: Op) {
    t.BinTree? && t.op == op
  }

  function Kid(t: Tree, right: bool): Tree
    requires t.BinTree?
  {
    if right then t.right else t.left
  }

  predicate Way(op: Op, t: Tree, p: Path) {
    p == [] || (IsOpTree(t, op) && Way(op, Kid(t, p[0]), p[1..]))
  }

  function SubTree(op: Op, t: Tree, p: Path): Tree
    requires Way(op, t, p)
  {
    if p == [] then t else SubTree(op, Kid(t, p[0]), p[1..])
  }

  /** The slot at the end of a way. */
  function SlotOf(op: Op, t: Tree, p: Path): (s: Slot)
    requires Way(op, t, p)
    ensures s.Root? <==> p == []
  {
    if p == [] then Root else if p[1..] == [] then Side(t.id, p[0]) else SlotOf(op, Kid(t, p[0]), p[1..])
  }

  function Put(op: Op, t: Tree, p: Path, x: Tree): Tree
    requires Way(op, t, p)
  {
    if p == [] then x
    else if p[0] then t.(right := Put(op, t.right, p[1..], x))
    else t.(left := Put(op, t.left, p[1..], x))
  }

  /** Ways and spines are the same. */
  lemma {:induction false} WaySpine(op: Op, t: Tree, p: Path)
    ensures Way(op, t, p) <==> Spine(op, Plain(t), p)
    ensures Way(op, t, p) ==> Plain(SubTree(op, t, p)) == At(op, Plain(t), p)
  {
    if p != [] && IsOpTree(t, op) { WaySpine(op, Kid(t, p[0]), p[1..]); }
  }

  lemma {:induction false} PutPlain(op: Op, t: Tree, p: Path, x: Tree)
    requires Way(op, t, p)
    ensures Spine(op, Plain(t), p) && Plain(Put(op, t, p, x)) == Replace(op, Plain(t), p, Plain(x))
  {
    if p != [] { PutPlain(op, Kid(t, p[0]), p[1..], x); }
  }

  /** One step further, from a node that is the operator. */
  lemma {:induction false} WayStep(op: Op, t: Tree, p: Path, b: bool)
    requires Way(op, t, p) && IsOpTree(SubTree(op, t, p), op)
    ensures Way(op, t, p + [b]) && SubTree(op, t, p + [b]) == Kid(SubTree(op, t, p), b)
    ensures SlotOf(op, t, p + [b]) == Side(SubTree(op, t, p).id, b)
  {
    if p == [] {
      assert [b][1..] == [] && [] + [b] == [b];
    } else {
      WayStep(op, Kid(t, p[0]), p[1..], b);
      assert (p + [b])[1..] == p[1..] + [b] && (p + [b])[0] == p[0];
    }
  }

  /** Putting something in one side of a node is putting the changed node in its place. */
  lemma {:induction false} PutStep(op: Op, t: Tree, p: Path, b: bool, x: Tree)
    requires Way(op, t, p) && IsOpTree(SubTree(op, t, p), op) && Way(op, t, p + [b])
    ensures
      var s := SubTree(op, t, p);
      Put(op, t, p + [b], x) == Put(op, t, p, if b then s.(right := x) else s.(left := x))
  {
    if p == [] {
      assert [b][1..] == [] && [] + [b] == [b];
    } else {
      assert (p + [b])[1..] == p[1..] + [b] && (p + [b])[0] == p[0];
      PutStep(op, Kid(t, p[0]), p[1..], b, x);
    }
  }

  // ----- The nodes around a slot -----

  function Around(op: Op, t: Tree, p: Path): set<ExprNode>
    requires Way(op, t, p)
  {
    if p == [] then {} else {t.id} + Nodes(Kid(t, !p[0])) + Around(op, Kid(t, p[0]), p[1..])
  }

  lemma {:induction false} AroundAndInside(op: Op, t: Tree, p: Path)
    requires Way(op, t, p) && Unshared(t)
    ensures Around(op, t, p) + Nodes(SubTree(op, t, p)) == Nodes(t)
    ensures Around(op, t, p) !! Nodes(SubTree(op, t, p)) && Unshared(SubTree(op, t, p))
  {
    if p != [] { AroundAndInside(op, Kid(t, p[0]), p[1..]); }
  }

  lemma {:induction false} SlotAround(op: Op, t: Tree, p: Path)
    requires Way(op, t, p) && p != []
    ensures SlotOf(op, t, p).of in Around(op, t, p)
  {
    if p[1..] != [] { SlotAround(op, Kid(t, p[0]), p[1..]); }
  }

  lemma {:induction false} PutUnshared(op: Op, t: Tree, p: Path, x: Tree)
    requires Way(op, t, p) && Unshared(t) && Unshared(x) && Nodes(x) !! Around(op, t, p)
    ensures Unshared(Put(op, t, p, x)) && Nodes(Put(op, t, p, x)) == Around(op, t, p) + Nodes(x)
  {
    if p != [] {
      PutUnshared(op, Kid(t, p[0]), p[1..], x);
      AroundAndInside(op, Kid(t, p[0]), p[1..]);
    }
  }

  /** The nodes around the slot hold the tree around it. */
  ghost predicate ShowsAround(op: Op, n: ExprNode, t: Tree, p: Path)
    requires Way(op, t, p)
    reads Around(op, t, p)
  {
    p == [] ||
    (n == t.id && n.etype == EOp(t.op) &&
     Linked(n, Side(n, !p[0])) == Sub(Kid(t, !p[0]).id) && Shows(Kid(t, !p[0]).id, Kid(t, !p[0])) &&
     (p[1..] != [] ==> Linked(n, Side(n, p[0])) == Sub(Kid(t, p[0]).id)) &&
     ShowsAround(op, Kid(t, p[0]).id, Kid(t, p[0]), p[1..]))
  }

  /** Taking a tree apart at a slot. */
  lemma {:induction false} Opened(op: Op, n: ExprNode, t: Tree, p: Path)
    requires Owns(n, t) && Way(op, t, p)
    ensures ShowsAround(op, n, t, p) && Linked(n, SlotOf(op, t, p)) == Sub(SubTree(op, t, p).id)
    ensures Owns(SubTree(op, t, p).id, SubTree(op, t, p))
  {
    if p != [] {
      var k := Kid(t, p[0]);
      Opened(op, k.id, k, p[1..]);
      if p[1..] == [] {
        assert SubTree(op, k, p[1..]) == k && Linked(n, Side(n, p[0])) == Sub(k.id);
      }
    }
  }

  /** Putting it together again with something else in the slot. */
  lemma {:induction false} Closed(op: Op, n: ExprNode, t: Tree, p: Path, x: Tree)
    requires Way(op, t, p) && Unshared(t) && Owns(x.id, x) && Nodes(x) !! Around(op, t, p)
    requires ShowsAround(op, n, t, p) && Linked(n, SlotOf(op, t, p)) == Sub(x.id)
    ensures Owns(n, Put(op, t, p, x))
  {
    PutUnshared(op, t, p, x);
    if p != [] {
      var k := Kid(t, p[0]);
      if p[1..] == [] {
        assert Put(op, k, p[1..], x) == x;
      } else {
        Closed(op, k.id, k, p[1..], x);
      }
    }
  }

  // ----- Spines that keep their nodes -----

  predicate KeepsSpine(op: Op, t: Tree, u: Tree) {
    IsOpTree(t, op) == IsOpTree(u, op) &&
    (IsOpTree(t, op) ==> t.id == u.id && KeepsSpine(op, t.left, u.left) && KeepsSpine(op, t.right, u.right))
  }

  lemma {:induction false} KeepsSpineReflexive(op: Op, t: Tree)
    ensures KeepsSpine(op, t, t)
  {
    if IsOpTree(t, op) {
      KeepsSpineReflexive(op, t.left);
      KeepsSpineReflexive(op, t.right);
    }
  }

  lemma {:induction false} KeepsSpineTransitive(op: Op, t: Tree, u: Tree, w: Tree)
    requires KeepsSpine(op, t, u) && KeepsSpine(op, u, w)
    ensures KeepsSpine(op, t, w)
  {
    if IsOpTree(t, op) {
      KeepsSpineTransitive(op, t.left, u.left, w.left);
      KeepsSpineTransitive(op, t.right, u.right, w.right);
    }
  }

  /** The slots stay where they are. */
  lemma {:induction false} KeptSlot(op: Op, t: Tree, u: Tree, p: Path)
    requires KeepsSpine(op, t, u) && Way(op, t, p)
    ensures Way(op, u, p) && SlotOf(op, u, p) == SlotOf(op, t, p) && KeepsSpine(op, SubTree(op, t, p), SubTree(op, u, p))
  {
    if p != [] { KeptSlot(op, Kid(t, p[0]), Kid(u, p[0]), p[1..]); }
  }

  /** Another leaf in the place of a leaf keeps the spine. */
  lemma {:induction false} PutKeepsSpine(op: Op, t: Tree, p: Path, x: Tree)
    requires Way(op, t, p) && !IsOpTree(SubTree(op, t, p), op) && !IsOpTree(x, op)
    ensures KeepsSpine(op, t, Put(op, t, p, x)) && Way(op, Put(op, t, p, x), p) && SubTree(op, Put(op, t, p, x), p) == x
  {
    if p != [] {
      PutKeepsSpine(op, Kid(t, p[0]), p[1..], x);
      KeepsSpineReflexive(op, Kid(t, !p[0]));
    }
  }

  /** Two leaves have no node in common, and one stays when the other is replaced. */
  lemma {:induction false} OtherLeaf(op: Op, t: Tree, p: Path, q: Path, x: Tree)
    requires Way(op, t, p) && !IsOpTree(SubTree(op, t, p), op) && !IsOpTree(x, op) && Unshared(t)
    requires Way(op, t, q) && !IsOpTree(SubTree(op, t, q), op) && p != q
    ensures Nodes(SubTree(op, t, p)) !! Nodes(SubTree(op, t, q))
    ensures Way(op, Put(op, t, p, x), q) && SubTree(op, Put(op, t, p, x), q) == SubTree(op, t, q)
  {
    if p != [] && q != [] {
      if p[0] == q[0] {
        OtherLeaf(op, Kid(t, p[0]), p[1..], q[1..], x);
      } else {
        AroundAndInside(op, Kid(t, p[0]), p[1..]);
        AroundAndInside(op, Kid(t, q[0]), q[1..]);
      }
    }
  }

  // ----- Storing in a slot -----

  lemma {:induction false} WayUp(op: Op, t: Tree, p: Path, b: bool)
    requires Way(op, t, p + [b])
    ensures Way(op, t, p) && IsOpTree(SubTree(op, t, p), op)
  {
    if p == [] {
      assert [] + [b] == [b];
    } else {
      assert (p + [b])[1..] == p[1..] + [b] && (p + [b])[0] == p[0];
      WayUp(op, Kid(t, p[0]), p[1..], b);
    }
  }

  lemma {:induction false} AroundStep(op: Op, t: Tree, p: Path, b: bool)
    requires Way(op, t, p) && IsOpTree(SubTree(op, t, p), op) && Way(op, t, p + [b])
    ensures
      var s := SubTree(op, t, p);
      Around(op, t, p + [b]) == Around(op, t, p) + {s.id} + Nodes(Kid(s, !b))
  {
    if p == [] {
      assert [b][1..] == [] && [] + [b] == [b];
    } else {
      assert (p + [b])[1..] == p[1..] + [b] && (p + [b])[0] == p[0];
      AroundStep(op, Kid(t, p[0]), p[1..], b);
    }
  }

  /** The node above the slot gets a new operand. */
  method SetSide(parent: ExprNode, right: bool, n: ExprNode, ghost t: Tree, ghost x: Tree)
    requires t.BinTree? && Owns(parent, t) && Owns(n, x) && parent !in Nodes(x) && Nodes(x) !! Nodes(Kid(t, !right))
    modifies parent
    ensures Owns(parent, if right then t.(right := x) else t.(left := x))
  {
    if right { SetRight(parent, n, t, x); } else { SetLeft(parent, n, t, x); }
  }

  /** A new operand fits into one side of the node that a way leads to. */
  ghost predicate Ready(op: Op, root: ExprNode, t: Tree, q: Path, b: bool, x: Tree)
    reads Nodes(t), Nodes(x)
  {
    Way(op, t, q) && Unshared(t) && IsOpTree(SubTree(op, t, q), op) &&
    Owns(root, t) && Owns(x.id, x) &&
    var sub := SubTree(op, t, q);
    sub.id !in Nodes(x) && Nodes(x) !! Nodes(Kid(sub, !b)) && Nodes(x) !! Around(op, t, q)
  }

  lemma IsReady(op: Op, root: ExprNode, t: Tree, q: Path, b: bool, x: Tree)
    requires Owns(root, t) && Way(op, t, q + [b]) && Owns(x.id, x) && Nodes(x) !! Around(op, t, q + [b])
    ensures Ready(op, root, t, q, b, x)
  {
    WayUp(op, t, q, b);
    AroundStep(op, t, q, b);
  }

  method SetReady(op: Op, root: ExprNode, parent: ExprNode, b: bool, n: ExprNode, ghost t: Tree, ghost q: Path, ghost x: Tree, ghost all: set<ExprNode>)
    requires Ready(op, root, t, q, b, x) && parent == SubTree(op, t, q).id && n == x.id && all == Nodes(t) + Nodes(x)
    modifies parent
    ensures
      var s := SubTree(op, t, q);
      Owns(root, Put(op, t, q, if b then s.(right := x) else s.(left := x)))
  {
    Opened(op, root, t, q);
    AroundAndInside(op, t, q);
    if q != [] { SlotAround(op, t, q); }
    ghost var sub := SubTree(op, t, q);
    SetSide(parent, b, n, sub, x);
    Closed(op, root, t, q, if b then sub.(right := x) else sub.(left := x));
  }

  /** The operand in a slot is replaced. */
  method SetSlot(op: Op, root: ExprNode, s: Slot, n: ExprNode, ghost t: Tree, ghost p: Path, ghost x: Tree, ghost all: set<ExprNode>)
    requires Owns(root, t) && Way(op, t, p) && s == SlotOf(op, t, p) && s.Side?
    requires Owns(n, x) && Nodes(x) !! Around(op, t, p) && all == Nodes(t) + Nodes(x)
    modifies s.of
    ensures Owns(root, Put(op, t, p, x))
  {
    ghost var q, b := p[..|p| - 1], p[|p| - 1];
    assert p == q + [b];
    WayUp(op, t, q, b);
    WayStep(op, t, q, b);
    IsReady(op, root, t, q, b, x);
    PutStep(op, t, q, b, x);
    SetReady(op, root, s.of, s.right, n, t, q, x, all);
  }
}
