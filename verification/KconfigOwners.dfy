/** Below which node each node of a menu ends up. */
module KconfigOwners {
  import opened KconfigMenu

  /** In display order every node with the nearest node around it that has a prompt text, or with
      the owner of the chain. */
  function Owners(c: Chain, owner: Menu): seq<(Menu, Menu)> {
    match c
    case Nil => []
    case Node(id, _, l, n) => [(id, owner)] + (Owners(l, if id.hasText then id else owner) + Owners(n, owner))
  }

  /** In display order every node with the node whose children it is among. */
  function Parents(c: Chain, parent: Menu): seq<(Menu, Menu)> {
    match c
    case Nil => []
    case Node(id, _, l, n) => [(id, parent)] + (Parents(l, id) + Parents(n, parent))
  }

  // ----- Flattening -----

  lemma {:induction false} OwnersAppend(c: Chain, d: Chain, o: Menu)
    ensures Owners(Append(c, d), o) == Owners(c, o) + Owners(d, o)
  {
    if c.Node? { OwnersAppend(c.next, d, o); }
  }

  lemma {:induction false} OwnersAdopted(c: Chain, p: Menu, o: Menu)
    ensures Owners(Adopted(c, p), o) == Owners(c, o)
  {
    if c.Node? { OwnersAdopted(c.next, p, o); }
  }

  /** Flattening takes no node out of the nearest node with a prompt text. */
  lemma {:induction false} FlattenedOwners(c: Chain, p: Menu, o: Menu)
    ensures Owners(Flattened(c, p), o) == Owners(c, o)
    decreases Size(c)
  {
    if c.Node? {
      if c.list.Node? && !c.id.hasText {
        FlattenedOwners(Append(Adopted(c.list, p), c.next), p, o);
        OwnersAppend(Adopted(c.list, p), c.next, o);
        OwnersAdopted(c.list, p, o);
      } else {
        FlattenedOwners(c.next, p, o);
      }
    }
  }

  /** Where only nodes with a prompt text have children, the owner is the parent. */
  lemma {:induction false} FlatParents(c: Chain, p: Menu)
    requires Flat(c)
    ensures Parents(c, p) == Owners(c, p)
  {
    if c.Node? {
      FlatParents(c.list, c.id);
      FlatParents(c.next, p);
    }
  }

  // ----- The whole tree -----

  /** The tree with its automatic submenus, nothing flattened. */
  function Grouped(c: Chain, t: Test): (r: Chain)
    requires c.Node?
    ensures r.Node? && r.id == c.id && Size(r) == Size(c)
    decreases Size(c), 0
  {
    if c.list.Node? then c.(list := AllGrouped(c.list, t))
    else if c.id.hasSym then
      var (taken, rest) := TakenGrouped(c.id, c.next, t);
      c.(list := taken, next := rest)
    else c
  }

  function AllGrouped(c: Chain, t: Test): (r: Chain)
    ensures Size(r) == Size(c)
    decreases Size(c), 1
  {
    if c.Nil? then Nil
    else
      var g := Grouped(c, t);
      g.(next := AllGrouped(g.next, t))
  }

  function TakenGrouped(p: Menu, c: Chain, t: Test): (r: (Chain, Chain))
    ensures Size(r.0) + Size(r.1) == Size(c)
    decreases Size(c), 1
  {
    if c.Nil? || !t(p, c.id) then (Nil, c)
    else
      var g := Grouped(c, t);
      var (taken, rest) := TakenGrouped(p, g.next, t);
      (g.(next := taken), rest)
  }

  lemma {:induction false} SameOwners(c: Chain, t: Test, o: Menu)
    requires c.Node?
    ensures Finalized(c, t).next == Grouped(c, t).next
    ensures Owners(Finalized(c, t).list, o) == Owners(Grouped(c, t).list, o)
    decreases Size(c), 0
  {
    if c.list.Node? {
      AllSameOwners(c.list, t, o);
      FlattenedOwners(AllFinalized(c.list, t), c.id, o);
    } else if c.id.hasSym {
      TakenSameOwners(c.id, c.next, t, o);
      FlattenedOwners(Taken(c.id, c.next, t).0, c.id, o);
    }
  }

  lemma {:induction false} AllSameOwners(c: Chain, t: Test, o: Menu)
    ensures Owners(AllFinalized(c, t), o) == Owners(AllGrouped(c, t), o)
    decreases Size(c), 1
  {
    if c.Node? {
      SameOwners(c, t, if c.id.hasText then c.id else o);
      AllSameOwners(Finalized(c, t).next, t, o);
    }
  }

  lemma {:induction false} TakenSameOwners(p: Menu, c: Chain, t: Test, o: Menu)
    ensures Taken(p, c, t).1 == TakenGrouped(p, c, t).1
    ensures Owners(Taken(p, c, t).0, o) == Owners(TakenGrouped(p, c, t).0, o)
    decreases Size(c), 1
  {
    if c.Node? && t(p, c.id) {
      SameOwners(c, t, if c.id.hasText then c.id else o);
      TakenSameOwners(p, Finalized(c, t).next, t, o);
    }
  }

  /** Every node below a finalized one ends up below the nearest node around it that has a prompt
      text, in the tree with its automatic submenus, or else below the finalized one. */
  lemma FinalParents(c: Chain, t: Test)
    requires c.Node?
    ensures Parents(Finalized(c, t).list, c.id) == Owners(Grouped(c, t).list, c.id)
  {
    SameOwners(c, t, c.id);
    FinalizedFlat(c, t);
    FlatParents(Finalized(c, t).list, c.id);
  }

  /** Without automatic submenus, in the tree as it was. */
  lemma ParentsWithoutSubmenus(c: Chain, t: Test)
    requires c.Node? && forall p, m :: !t(p, m)
    ensures Parents(Finalized(c, t).list, c.id) == Owners(c.list, c.id)
  {
    FinalParents(c, t);
    GroupedNothing(c, t);
  }

  lemma {:induction false} GroupedNothing(c: Chain, t: Test)
    requires c.Node? && forall p, m :: !t(p, m)
    ensures Grouped(c, t) == c
    decreases Size(c), 0
  {
    if c.list.Node? { AllGroupedNothing(c.list, t); }
  }

  lemma {:induction false} AllGroupedNothing(c: Chain, t: Test)
    requires forall p, m :: !t(p, m)
    ensures AllGrouped(c, t) == c
    decreases Size(c), 1
  {
    if c.Node? {
      GroupedNothing(c, t);
      AllGroupedNothing(c.next, t);
    }
  }

  // ----- What the submenus are -----

  /** In the tree with its submenus a node has the parent it had, or one that takes it. */
  ghost predicate Accounted(pairs: seq<(Menu, Menu)>, before: seq<(Menu, Menu)>, t: Test) {
    forall x :: x in pairs ==> x in before || t(x.1, x.0)
  }

  lemma {:induction false} GroupedParents(c: Chain, t: Test, p: Menu)
    requires c.Node?
    ensures Accounted(Parents(Grouped(c, t), p), Parents(c, p), t)
    ensures forall x :: x in Parents(Grouped(c, t).next, p) ==> x in Parents(c, p)
    decreases Size(c), 0
  {
    if c.list.Node? {
      AllGroupedParents(c.list, t, c.id);
    } else if c.id.hasSym {
      TakenParents(c.id, c.next, t, p);
    }
  }

  lemma {:induction false} AllGroupedParents(c: Chain, t: Test, p: Menu)
    ensures Accounted(Parents(AllGrouped(c, t), p), Parents(c, p), t)
    decreases Size(c), 1
  {
    if c.Node? {
      GroupedParents(c, t, p);
      AllGroupedParents(Grouped(c, t).next, t, p);
    }
  }

  lemma {:induction false} TakenParents(q: Menu, c: Chain, t: Test, p: Menu)
    ensures Accounted(Parents(TakenGrouped(q, c, t).0, q), Parents(c, p), t)
    ensures forall x :: x in Parents(TakenGrouped(q, c, t).1, p) ==> x in Parents(c, p)
    decreases Size(c), 1
  {
    if c.Node? && t(q, c.id) {
      GroupedParents(c, t, p);
      TakenParents(q, Grouped(c, t).next, t, p);
    }
  }

  /** A node without children that has a symbol takes the node behind it if that passes the test,
      and is followed by one that fails it. */
  lemma FollowerTaken(c: Chain, t: Test)
    requires c.Node? && c.list.Nil? && c.id.hasSym
    ensures c.next.Node? && t(c.id, c.next.id) ==>
              Finalized(c, t).list.Node? && Parents(Finalized(c, t).list, c.id)[0] == (c.next.id, c.id)
    ensures Finalized(c, t).next.Node? ==> !t(c.id, Finalized(c, t).next.id)
  {
    RestFails(c.id, c.next, t);
    if c.next.Node? && t(c.id, c.next.id) {
      FinalParents(c, t);
      var g := Grouped(c.next, t);
      assert Owners(Grouped(c, t).list, c.id)[0] == (g.id, c.id);
    }
  }

  lemma {:induction false} RestFails(p: Menu, c: Chain, t: Test)
    ensures Taken(p, c, t).1.Node? ==> !t(p, Taken(p, c, t).1.id)
    decreases Size(c), 1
  {
    if c.Node? && t(p, c.id) { RestFails(p, Finalized(c, t).next, t); }
  }
}
