/** The menu tree of Kconfig being re-nested: automatic submenus are made and blocks without a
    prompt are flattened while the linked nodes are walked. */
module KconfigMenu {

  /** A menu node; whether it has a symbol and a prompt text does not change here. */
  class Menu {
    const hasSym: bool
    const hasText: bool
    var next: Menu?
    var list: Menu?
    var parent: Menu?

    constructor (hasSym: bool, hasText: bool) {
      this.hasSym, this.hasText := hasSym, hasText;
      next, list, parent := null, null, null;
    }
  }

  /** A chain of siblings, each with its parent link and the chain of its children. */
  datatype Chain = Nil | Node(id: Menu, par: Menu?, list: Chain, next: Chain)

  /** Does the second node go into a submenu of the first, a symbol? */
  type Test = (Menu, Menu) -> bool

  function Size(c: Chain): nat {
    match c
    case Nil => 0
    case Node(_, _, l, n) => 1 + Size(l) + Size(n)
  }

  /** The nodes in the order in which they are displayed. */
  function Preorder(c: Chain): (r: seq<Menu>)
    ensures |r| == Size(c)
  {
    match c
    case Nil => []
    case Node(id, _, l, n) => [id] + (Preorder(l) + Preorder(n))
  }

  function Append(c: Chain, d: Chain): (r: Chain)
    ensures Size(r) == Size(c) + Size(d)
  {
    match c
    case Nil => d
    case Node(_, _, _, n) => c.(next := Append(n, d))
  }

  /** Every node of the chain itself gets a new parent. */
  function Adopted(c: Chain, p: Menu): (r: Chain)
    ensures Size(r) == Size(c)
  {
    match c
    case Nil => Nil
    case Node(_, _, _, n) => c.(par := p, next := Adopted(n, p))
  }

  /** Children of nodes without a prompt text move behind their parent. */
  function Flattened(c: Chain, p: Menu): (r: Chain)
    ensures Size(r) == Size(c)
    decreases Size(c)
  {
    match c
    case Nil => Nil
    case Node(id, _, l, n) =>
      if l.Node? && !id.hasText then c.(list := Nil, next := Flattened(Append(Adopted(l, p), n), p))
      else c.(next := Flattened(n, p))
  }

  /** What becomes of a node and what follows it in its chain. */
  function Finalized(c: Chain, t: Test): (r: Chain)
    requires c.Node?
    ensures r.Node? && r.id == c.id && r.par == c.par && Size(r) == Size(c)
    decreases Size(c), 0
  {
    if c.list.Node? then c.(list := Flattened(AllFinalized(c.list, t), c.id))
    else if c.id.hasSym then
      var (taken, rest) := Taken(c.id, c.next, t);
      Node(c.id, c.par, Flattened(taken, c.id), rest)
    else c
  }

  function AllFinalized(c: Chain, t: Test): (r: Chain)
    ensures Size(r) == Size(c)
    decreases Size(c), 1
  {
    if c.Nil? then Nil
    else
      var f := Finalized(c, t);
      f.(next := AllFinalized(f.next, t))
  }

  /** The nodes that follow p and go into its submenu, and the others. */
  function Taken(p: Menu, c: Chain, t: Test): (r: (Chain, Chain))
    ensures Size(r.0) + Size(r.1) == Size(c)
    decreases Size(c), 1
  {
    if c.Nil? || !t(p, c.id) then (Nil, c)
    else
      var f := Finalized(c, t);
      var (taken, rest) := Taken(p, f.next, t);
      (f.(par := p, next := taken), rest)
  }

  // ----- The order is kept -----

  lemma Glue(a: seq<Menu>, b: seq<Menu>, x: seq<Menu>, y: seq<Menu>)
    ensures a + (b + (x + y)) == a + (b + x) + y
  {
  }

  lemma Associate(a: seq<Menu>, b: seq<Menu>, x: seq<Menu>)
    ensures a + b + x == a + (b + x)
  {
  }

  lemma Nothing(a: seq<Menu>)
    ensures [] + a == a
  {
  }

  lemma {:induction false} PreorderAppend(c: Chain, d: Chain)
    ensures Preorder(Append(c, d)) == Preorder(c) + Preorder(d)
  {
    if c.Node? {
      PreorderAppend(c.next, d);
      Glue([c.id], Preorder(c.list), Preorder(c.next), Preorder(d));
    } else {
      Nothing(Preorder(d));
    }
  }

  lemma {:induction false} PreorderAdopted(c: Chain, p: Menu)
    ensures Preorder(Adopted(c, p)) == Preorder(c)
  {
    if c.Node? { PreorderAdopted(c.next, p); }
  }

  lemma {:induction false} PreorderFlattened(c: Chain, p: Menu)
    ensures Preorder(Flattened(c, p)) == Preorder(c)
    decreases Size(c)
  {
    if c.Node? {
      if c.list.Node? && !c.id.hasText {
        var d := Append(Adopted(c.list, p), c.next);
        PreorderFlattened(d, p);
        PreorderAppend(Adopted(c.list, p), c.next);
        PreorderAdopted(c.list, p);
        Nothing(Preorder(c.list) + Preorder(c.next));
      } else {
        PreorderFlattened(c.next, p);
      }
    }
  }

  /** Finalizing a node leaves the display order as it was. */
  lemma {:induction false} FinalizedKeepsOrder(c: Chain, t: Test)
    requires c.Node?
    ensures Preorder(Finalized(c, t)) == Preorder(c)
    decreases Size(c), 0
  {
    if c.list.Node? {
      AllFinalizedKeepsOrder(c.list, t);
      PreorderFlattened(AllFinalized(c.list, t), c.id);
    } else if c.id.hasSym {
      var taken, rest := Taken(c.id, c.next, t).0, Taken(c.id, c.next, t).1;
      TakenKeepsOrder(c.id, c.next, t);
      PreorderFlattened(taken, c.id);
      Nothing(Preorder(taken) + Preorder(rest));
    }
  }

  lemma {:induction false} AllFinalizedKeepsOrder(c: Chain, t: Test)
    ensures Preorder(AllFinalized(c, t)) == Preorder(c)
    decreases Size(c), 1
  {
    if c.Node? {
      FinalizedKeepsOrder(c, t);
      AllFinalizedKeepsOrder(Finalized(c, t).next, t);
    }
  }

  lemma {:induction false} TakenKeepsOrder(p: Menu, c: Chain, t: Test)
    ensures Preorder(Taken(p, c, t).0) + Preorder(Taken(p, c, t).1) == Preorder(c)
    decreases Size(c), 1
  {
    if c.Node? && t(p, c.id) {
      var f := Finalized(c, t);
      FinalizedKeepsOrder(c, t);
      TakenKeepsOrder(p, f.next, t);
      var a, b := Preorder(Taken(p, f.next, t).0), Preorder(Taken(p, f.next, t).1);
      Glue([f.id], Preorder(f.list), a, b);
    } else {
      Nothing(Preorder(c));
    }
  }

  // ----- Parent links -----

  /** Every node's parent is the node whose children it is among. */
  predicate WellParented(c: Chain, p: Menu?) {
    match c
    case Nil => true
    case Node(id, par, l, n) => par == p && WellParented(l, id) && WellParented(n, p)
  }

  lemma {:induction false} AppendWellParented(c: Chain, d: Chain, p: Menu?)
    requires WellParented(c, p) && WellParented(d, p)
    ensures WellParented(Append(c, d), p)
  {
    if c.Node? { AppendWellParented(c.next, d, p); }
  }

  lemma {:induction false} AdoptedWellParented(c: Chain, q: Menu?, p: Menu)
    requires WellParented(c, q)
    ensures WellParented(Adopted(c, p), p)
  {
    if c.Node? { AdoptedWellParented(c.next, q, p); }
  }

  lemma {:induction false} FlattenedWellParented(c: Chain, p: Menu)
    requires WellParented(c, p)
    ensures WellParented(Flattened(c, p), p)
    decreases Size(c)
  {
    if c.Node? {
      if c.list.Node? && !c.id.hasText {
        AdoptedWellParented(c.list, c.id, p);
        AppendWellParented(Adopted(c.list, p), c.next, p);
        FlattenedWellParented(Append(Adopted(c.list, p), c.next), p);
      } else {
        FlattenedWellParented(c.next, p);
      }
    }
  }

  /** Finalizing keeps every parent link right. */
  lemma {:induction false} FinalizedWellParented(c: Chain, t: Test, p: Menu?)
    requires c.Node? && WellParented(c, p)
    ensures WellParented(Finalized(c, t), p)
    decreases Size(c), 0
  {
    if c.list.Node? {
      AllFinalizedWellParented(c.list, t, c.id);
      FlattenedWellParented(AllFinalized(c.list, t), c.id);
    } else if c.id.hasSym {
      TakenWellParented(c.id, c.next, t, p);
      FlattenedWellParented(Taken(c.id, c.next, t).0, c.id);
    }
  }

  lemma {:induction false} AllFinalizedWellParented(c: Chain, t: Test, p: Menu?)
    requires WellParented(c, p)
    ensures WellParented(AllFinalized(c, t), p)
    decreases Size(c), 1
  {
    if c.Node? {
      FinalizedWellParented(c, t, p);
      AllFinalizedWellParented(Finalized(c, t).next, t, p);
    }
  }

  lemma {:induction false} TakenWellParented(q: Menu, c: Chain, t: Test, p: Menu?)
    requires WellParented(c, p)
    ensures WellParented(Taken(q, c, t).0, q) && WellParented(Taken(q, c, t).1, p)
    decreases Size(c), 1
  {
    if c.Node? && t(q, c.id) {
      FinalizedWellParented(c, t, p);
      TakenWellParented(q, Finalized(c, t).next, t, p);
    }
  }

  // ----- The shape that results -----

  /** Below the nodes only those with a prompt text have children. */
  predicate Flat(c: Chain) {
    match c
    case Nil => true
    case Node(id, _, l, n) => (l.Node? ==> id.hasText) && Flat(l) && Flat(n)
  }

  /** The chains below the nodes are flat. */
  predicate FlatBelow(c: Chain) {
    match c
    case Nil => true
    case Node(_, _, l, n) => Flat(l) && FlatBelow(n)
  }

  lemma {:induction false} FlatIsFlatBelow(c: Chain)
    requires Flat(c)
    ensures FlatBelow(c)
  {
    if c.Node? { FlatIsFlatBelow(c.next); }
  }

  lemma {:induction false} AdoptedFlatBelow(c: Chain, p: Menu)
    requires FlatBelow(c)
    ensures FlatBelow(Adopted(c, p))
  {
    if c.Node? { AdoptedFlatBelow(c.next, p); }
  }

  lemma {:induction false} AppendFlatBelow(c: Chain, d: Chain)
    requires FlatBelow(c) && FlatBelow(d)
    ensures FlatBelow(Append(c, d))
  {
    if c.Node? { AppendFlatBelow(c.next, d); }
  }

  lemma {:induction false} FlattenedFlat(c: Chain, p: Menu)
    requires FlatBelow(c)
    ensures Flat(Flattened(c, p))
    decreases Size(c)
  {
    if c.Node? {
      if c.list.Node? && !c.id.hasText {
        FlatIsFlatBelow(c.list);
        AdoptedFlatBelow(c.list, p);
        AppendFlatBelow(Adopted(c.list, p), c.next);
        FlattenedFlat(Append(Adopted(c.list, p), c.next), p);
      } else {
        FlattenedFlat(c.next, p);
      }
    }
  }

  /** Below a finalized node everything is flat: a node without a prompt text has no children. */
  lemma {:induction false} FinalizedFlat(c: Chain, t: Test)
    requires c.Node?
    ensures Flat(Finalized(c, t).list)
    decreases Size(c), 0
  {
    if c.list.Node? {
      AllFinalizedFlatBelow(c.list, t);
      FlattenedFlat(AllFinalized(c.list, t), c.id);
    } else if c.id.hasSym {
      TakenFlatBelow(c.id, c.next, t);
      FlattenedFlat(Taken(c.id, c.next, t).0, c.id);
    }
  }

  lemma {:induction false} AllFinalizedFlatBelow(c: Chain, t: Test)
    ensures FlatBelow(AllFinalized(c, t))
    decreases Size(c), 1
  {
    if c.Node? {
      FinalizedFlat(c, t);
      AllFinalizedFlatBelow(Finalized(c, t).next, t);
    }
  }

  lemma {:induction false} TakenFlatBelow(p: Menu, c: Chain, t: Test)
    ensures FlatBelow(Taken(p, c, t).0)
    decreases Size(c), 1
  {
    if c.Node? && t(p, c.id) {
      FinalizedFlat(c, t);
      TakenFlatBelow(p, Finalized(c, t).next, t);
    }
  }

  // ----- Every node once -----

  /** The nodes for which menu_finalize is called, in order. */
  function Calls(c: Chain, t: Test): seq<Menu>
    requires c.Node?
    decreases Size(c), 0
  {
    [c.id] + (if c.list.Node? then AllCalls(c.list, t) else if c.id.hasSym then TakenCalls(c.id, c.next, t) else [])
  }

  function AllCalls(c: Chain, t: Test): seq<Menu>
    decreases Size(c), 1
  {
    if c.Nil? then [] else Calls(c, t) + AllCalls(Finalized(c, t).next, t)
  }

  function TakenCalls(p: Menu, c: Chain, t: Test): seq<Menu>
    decreases Size(c), 1
  {
    if c.Nil? || !t(p, c.id) then [] else Calls(c, t) + TakenCalls(p, Finalized(c, t).next, t)
  }

  /** The calls are for the node and everything that ends up below it, each once and in display
      order. */
  lemma {:induction false} CallsOnce(c: Chain, t: Test)
    requires c.Node?
    ensures Calls(c, t) == [c.id] + Preorder(Finalized(c, t).list)
    decreases Size(c), 0
  {
    if c.list.Node? {
      AllCallsOnce(c.list, t);
      AllFinalizedKeepsOrder(c.list, t);
      PreorderFlattened(AllFinalized(c.list, t), c.id);
    } else if c.id.hasSym {
      TakenCallsOnce(c.id, c.next, t);
      PreorderFlattened(Taken(c.id, c.next, t).0, c.id);
    }
  }

  lemma {:induction false} AllCallsOnce(c: Chain, t: Test)
    ensures AllCalls(c, t) == Preorder(c)
    decreases Size(c), 1
  {
    if c.Node? {
      var f := Finalized(c, t);
      CallsOnce(c, t);
      FinalizedKeepsOrder(c, t);
      AllCallsOnce(f.next, t);
      Associate([c.id], Preorder(f.list), Preorder(f.next));
    }
  }

  lemma {:induction false} TakenCallsOnce(p: Menu, c: Chain, t: Test)
    ensures TakenCalls(p, c, t) == Preorder(Taken(p, c, t).0)
    decreases Size(c), 1
  {
    if c.Node? && t(p, c.id) {
      var f := Finalized(c, t);
      CallsOnce(c, t);
      TakenCallsOnce(p, f.next, t);
      Associate([c.id], Preorder(f.list), Preorder(Taken(p, f.next, t).0));
    }
  }

  /** From the root, menu_finalize is called for every node exactly once. */
  lemma RootCallsOnce(c: Chain, t: Test)
    requires c.Node? && c.next.Nil?
    ensures Calls(c, t) == Preorder(c)
  {
    CallsOnce(c, t);
    FinalizedKeepsOrder(c, t);
    if c.list.Nil? && c.id.hasSym {
      assert Taken(c.id, Nil, t) == (Nil, Nil);
    }
  }
}
