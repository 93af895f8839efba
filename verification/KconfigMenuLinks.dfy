/** menu_finalize on linked nodes: every step relinks next, list and parent in place. */
module KconfigMenuLinks {
  import opened KconfigMenu

  function Nodes(c: Chain): set<Menu> {
    match c
    case Nil => {}
    case Node(id, _, l, n) => {id} + Nodes(l) + Nodes(n)
  }

  /** No node occurs twice. */
  predicate Distinct(c: Chain) {
    |Nodes(c)| == Size(c)
  }

  /** The links from p on form the segment c, which ends before end. */
  ghost predicate Seg(p: Menu?, c: Chain, end: Menu?)
    reads Nodes(c)
  {
    match c
    case Nil => p == end
    case Node(id, par, l, n) => p == id && id.parent == par && Seg(id.list, l, null) && Seg(id.next, n, end)
  }

  /** The links from p on form the chain c. */
  ghost predicate Linked(p: Menu?, c: Chain)
    reads Nodes(c)
  {
    Seg(p, c, null)
  }

  // ----- Sets of nodes -----

  lemma {:induction false} AtMost(c: Chain)
    ensures |Nodes(c)| <= Size(c)
  {
    if c.Node? {
      AtMost(c.list);
      AtMost(c.next);
      Union({c.id} + Nodes(c.list), Nodes(c.next));
      Union({c.id}, Nodes(c.list));
    }
  }

  lemma Union(a: set<Menu>, b: set<Menu>)
    ensures |a + b| <= |a| + |b|
    ensures |a + b| == |a| + |b| ==> a !! b
  {
    assert a + b == a + (b - a);
    assert |b - a| <= |b| by { assert b == (b - a) + (b * a); }
    assert |a + b| == |a| + |b - a|;
    if a * b != {} {
      var x :| x in a && x in b;
      assert b - a <= b - {x};
      assert |b - a| <= |b - {x}| by { Smaller(b - a, b - {x}); }
    }
  }

  lemma Smaller(a: set<Menu>, b: set<Menu>)
    requires a <= b
    ensures |a| <= |b|
  {
    assert b == a + (b - a);
  }

  /** In a chain without repetition the parts have none and share none. */
  lemma DistinctParts(c: Chain)
    requires c.Node? && Distinct(c)
    ensures Distinct(c.list) && Distinct(c.next) && c.id !in Nodes(c.list) && c.id !in Nodes(c.next)
    ensures Nodes(c.list) !! Nodes(c.next)
  {
    AtMost(c.list);
    AtMost(c.next);
    Union({c.id} + Nodes(c.list), Nodes(c.next));
    Union({c.id}, Nodes(c.list));
  }

  lemma {:induction false} NodesAppend(c: Chain, d: Chain)
    ensures Nodes(Append(c, d)) == Nodes(c) + Nodes(d)
  {
    if c.Node? { NodesAppend(c.next, d); }
  }

  lemma DistinctAppend(c: Chain, d: Chain)
    requires Distinct(Append(c, d))
    ensures Distinct(c) && Distinct(d) && Nodes(c) !! Nodes(d)
  {
    NodesAppend(c, d);
    AtMost(c);
    AtMost(d);
    Union(Nodes(c), Nodes(d));
  }

  function Ids(s: seq<Menu>): set<Menu> {
    set x | x in s
  }

  lemma IdsJoin(a: seq<Menu>, b: seq<Menu>)
    ensures Ids(a + b) == Ids(a) + Ids(b)
  {
  }

  lemma IdsOne(x: Menu)
    ensures Ids([x]) == {x}
  {
  }

  lemma {:induction false} NodesPreorder(c: Chain)
    ensures Nodes(c) == Ids(Preorder(c))
  {
    if c.Node? {
      NodesPreorder(c.list);
      NodesPreorder(c.next);
      IdsJoin([c.id], Preorder(c.list) + Preorder(c.next));
      IdsJoin(Preorder(c.list), Preorder(c.next));
      IdsOne(c.id);
    }
  }

  /** What keeps the order keeps the nodes. */
  lemma SameNodes(c: Chain, d: Chain)
    requires Preorder(c) == Preorder(d)
    ensures Nodes(c) == Nodes(d) && Size(c) == Size(d) && (Distinct(c) <==> Distinct(d))
  {
    NodesPreorder(c);
    NodesPreorder(d);
    assert |Preorder(c)| == |Preorder(d)|;
  }

  lemma FinalizedNodes(c: Chain, t: Test)
    requires c.Node? && Distinct(c)
    ensures Nodes(Finalized(c, t)) == Nodes(c) && Distinct(Finalized(c, t))
  {
    FinalizedKeepsOrder(c, t);
    SameNodes(c, Finalized(c, t));
  }

  // ----- Segments -----

  lemma {:induction false} SegAppend(p: Menu?, c: Chain, mid: Menu?, d: Chain, end: Menu?)
    requires Seg(p, c, mid) && Seg(mid, d, end)
    ensures Seg(p, Append(c, d), end)
  {
    NodesAppend(c, d);
    if c.Node? { SegAppend(c.id.next, c.next, mid, d, end); }
  }

  lemma {:induction false} AppendNil(c: Chain)
    ensures Append(c, Nil) == c
  {
    if c.Node? { AppendNil(c.next); }
  }

  lemma {:induction false} AppendAssociates(c: Chain, d: Chain, e: Chain)
    ensures Append(Append(c, d), e) == Append(c, Append(d, e))
  {
    if c.Node? { AppendAssociates(c.next, d, e); }
  }

  /** One node by itself. */
  function Alone(c: Chain): Chain
    requires c.Node?
  {
    c.(next := Nil)
  }

  lemma NullIsNil(p: Menu?, c: Chain)
    requires Linked(p, c)
    ensures p == null <==> c == Nil
  {
  }

  /** Moving one node on. */
  lemma SegAdvance(h: Menu?, done: Chain, m: Menu, rest: Chain, end: Menu?)
    requires rest.Node? && Seg(h, done, m) && Seg(m, rest, end)
    ensures Seg(h, Append(done, Alone(rest)), m.next) && Seg(m.next, rest.next, end)
  {
    SegAppend(h, done, m, Alone(rest), m.next);
  }

  lemma AdvanceAppend(done: Chain, rest: Chain, tail: Chain)
    requires rest.Node?
    ensures Append(Append(done, Alone(rest)), tail) == Append(done, rest.(next := tail))
  {
    AppendAssociates(done, Alone(rest), tail);
    assert Append(Nil, tail) == tail;
    assert Append(Alone(rest), tail) == rest.(next := Append(Nil, tail));
  }

  // ----- The walk over the children -----

  /** The chain from head on is done up to menu, where rest goes on. */
  ghost predicate Walked(head: Menu?, done: Chain, menu: Menu?, rest: Chain, all: set<Menu>)
    reads Nodes(done), Nodes(rest)
  {
    Seg(head, done, menu) && Linked(menu, rest) && Distinct(rest) &&
    Nodes(done) !! Nodes(rest) && Nodes(done) + Nodes(rest) == all
  }

  lemma WalkOn(head: Menu?, done: Chain, menu: Menu, rest: Chain, all: set<Menu>)
    requires rest.Node? && Walked(head, done, menu, rest, all)
    ensures Walked(head, Append(done, Alone(rest)), menu.next, rest.next, all)
  {
    SetsAdvance(done, rest, all);
    SegAdvance(head, done, menu, rest, null);
  }

  lemma SetsAdvance(done: Chain, rest: Chain, all: set<Menu>)
    requires rest.Node? && Distinct(rest) && Nodes(done) !! Nodes(rest) && Nodes(done) + Nodes(rest) == all
    ensures
      var d := Append(done, Alone(rest));
      Distinct(rest.next) && Nodes(d) !! Nodes(rest.next) && Nodes(d) + Nodes(rest.next) == all
  {
    DistinctParts(rest);
    NodesAppend(done, Alone(rest));
    AloneNodes(rest);
  }

  lemma AloneNodes(c: Chain)
    requires c.Node? && c.id !in Nodes(c.next) && Nodes(c.list) !! Nodes(c.next)
    ensures Nodes(c) == Nodes(Alone(c)) + Nodes(c.next) && Nodes(Alone(c)) !! Nodes(c.next)
  {
  }

  lemma Arrived(head: Menu?, done: Chain, rest: Chain, all: set<Menu>)
    requires Walked(head, done, null, rest, all)
    ensures rest == Nil && Linked(head, done) && Nodes(done) == all && Append(done, Nil) == done
  {
    AppendNil(done);
  }

  method FinalizeOne(ghost head: Menu?, ghost done: Chain, menu: Menu, ghost rest: Chain, t: Test, ghost all: set<Menu>)
    returns (ghost calls: seq<Menu>)
    requires rest.Node? && Walked(head, done, menu, rest, all)
    modifies Nodes(rest)
    ensures Walked(head, done, menu, Finalized(rest, t), all) && calls == Calls(rest, t)
    decreases Size(rest), 1
  {
    FinalizedNodes(rest, t);
    calls := MenuFinalize(menu, t, rest);
  }

  method FinalizeChildren(p: Menu, t: Test, ghost l: Chain) returns (ghost calls: seq<Menu>)
    requires Linked(p.list, l) && Distinct(l) && p !in Nodes(l)
    modifies Nodes(l)
    ensures Linked(p.list, AllFinalized(l, t)) && calls == AllCalls(l, t)
    decreases Size(l), 2
  {
    var menu := p.list;
    ghost var done, rest := Nil, l;
    calls := [];
    Nothing(AllCalls(l, t));
    while menu != null
      invariant Walked(p.list, done, menu, rest, Nodes(l)) && Size(rest) <= Size(l)
      invariant AllFinalized(l, t) == Append(done, AllFinalized(rest, t)) && AllCalls(l, t) == calls + AllCalls(rest, t)
      decreases Size(rest)
    {
      ghost var f := Finalized(rest, t);
      ghost var more := FinalizeOne(p.list, done, menu, rest, t, Nodes(l));
      Associate(calls, more, AllCalls(f.next, t));
      calls := calls + more;
      AdvanceAppend(done, f, AllFinalized(f.next, t));
      WalkOn(p.list, done, menu, f, Nodes(l));
      done, rest := Append(done, Alone(f)), f.next;
      menu := menu.next;
    }
    Arrived(p.list, done, rest, Nodes(l));
  }

  /** The links of one node, with its children l and its followers n. */
  ghost predicate Headed(m: Menu, par: Menu?, l: Chain, n: Chain)
    reads m, Nodes(l), Nodes(n)
  {
    m.parent == par && Linked(m.list, l) && Linked(m.next, n)
  }

  /** The node and the two chains share no node; all is the set of all of them. */
  predicate Apart(m: Menu, l: Chain, n: Chain, all: set<Menu>) {
    m !in Nodes(l) && m !in Nodes(n) && Nodes(l) !! Nodes(n) && Distinct(l) && Distinct(n) &&
    all == {m} + Nodes(l) + Nodes(n)
  }

  /** The children of m are finalized. */
  method FinalizeList(m: Menu, t: Test, ghost par: Menu?, ghost l: Chain, ghost n: Chain, ghost all: set<Menu>)
    returns (ghost calls: seq<Menu>)
    requires Headed(m, par, l, n) && Apart(m, l, n, all)
    modifies Nodes(l)
    ensures Headed(m, par, AllFinalized(l, t), n) && Apart(m, AllFinalized(l, t), n, all)
    ensures calls == AllCalls(l, t)
    decreases Size(l), 3
  {
    AllFinalizedKeepsOrder(l, t);
    SameNodes(l, AllFinalized(l, t));
    calls := FinalizeChildren(m, t, l);
  }

  // ----- Flattening -----

  lemma {:induction false} AdoptedNodes(c: Chain, p: Menu)
    ensures Nodes(Adopted(c, p)) == Nodes(c)
  {
    if c.Node? { AdoptedNodes(c.next, p); }
  }

  /** A chain with the same nodes in it is as distinct. */
  lemma DistinctSame(c: Chain, d: Chain)
    requires Distinct(c) && Nodes(d) == Nodes(c) && Size(d) == Size(c)
    ensures Distinct(d)
  {
  }

  method AdoptOne(p: Menu, ghost head: Menu?, ghost done: Chain, m: Menu, ghost rest: Chain, ghost all: set<Menu>)
    requires rest.Node? && Walked(head, done, m, rest, all)
    modifies m`parent
    ensures Walked(head, done, m, rest.(par := p), all)
  {
    DistinctParts(rest);
    m.parent := p;
    DistinctSame(rest, rest.(par := p));
  }

  /** The last node of a chain is linked to another chain. */
  method LinkTail(last: Menu, q: Menu?, ghost head: Menu?, ghost done: Chain, ghost l: Chain, ghost n: Chain, ghost all: set<Menu>)
    requires l.Node? && l.next == Nil && Walked(head, done, last, l, all) && Linked(q, n) && all !! Nodes(n)
    modifies last`next
    ensures Linked(head, Append(Append(done, l), n))
  {
    DistinctParts(l);
    last.next := q;
    SegAppend(last, l, q, n, null);
    SegAppend(head, done, last, Append(l, n), null);
    AppendAssociates(done, l, n);
  }

  /** Every child of menu becomes one of p; the last one comes out. */
  method AdoptAll(p: Menu, first: Menu, ghost l: Chain) returns (last: Menu, ghost done: Chain, ghost rest: Chain)
    requires Linked(first, l) && Distinct(l) && p !in Nodes(l)
    modifies Nodes(l)
    ensures rest.Node? && rest.next == Nil && Walked(first, done, last, rest, Nodes(l)) && Append(done, rest) == Adopted(l, p)
  {
    last := first;
    done, rest := Nil, l;
    while true
      invariant rest.Node? && last in Nodes(l) && Walked(first, done, last, rest, Nodes(l))
      invariant Append(done, Adopted(rest, p)) == Adopted(l, p)
      decreases Size(rest)
    {
      ghost var was := rest;
      AdoptOne(p, first, done, last, rest, Nodes(l));
      rest := rest.(par := p);
      NullIsNil(last.next, rest.next);
      if last.next == null { break; }
      AdvanceAppend(done, rest, Adopted(rest.next, p));
      assert Adopted(was, p) == rest.(next := Adopted(rest.next, p));
      WalkOn(first, done, last, rest, Nodes(l));
      done, rest, last := Append(done, Alone(rest)), rest.next, last.next;
    }
  }

  function Spliced(c: Chain, p: Menu): Chain
    requires c.Node?
  {
    c.(list := Nil, next := Append(Adopted(c.list, p), c.next))
  }

  lemma SplicedNodes(c: Chain, p: Menu)
    requires c.Node? && Distinct(c)
    ensures Nodes(Spliced(c, p)) == Nodes(c) && Distinct(Spliced(c, p))
  {
    NodesAppend(Adopted(c.list, p), c.next);
    AdoptedNodes(c.list, p);
    DistinctSame(c, Spliced(c, p));
  }

  /** The chain from first on is adopted by p and continued by the one from after on. */
  method Graft(p: Menu, first: Menu, after: Menu?, ghost l: Chain, ghost n: Chain, ghost all: set<Menu>)
    requires Linked(first, l) && Linked(after, n) && Distinct(l) && p !in Nodes(l)
    requires Nodes(l) !! Nodes(n) && Nodes(l) + Nodes(n) == all
    modifies Nodes(l)
    ensures Linked(first, Append(Adopted(l, p), n)) && Nodes(Append(Adopted(l, p), n)) == all
  {
    NodesAppend(Adopted(l, p), n);
    AdoptedNodes(l, p);
    var last;
    ghost var done, rest;
    last, done, rest := AdoptAll(p, first, l);
    LinkTail(last, after, first, done, rest, n, Nodes(l));
  }

  method Relink(m: Menu, ghost c: Chain, ghost all: set<Menu>)
    requires Linked(m.list, c) && Nodes(c) == all && m !in all
    modifies m`next, m`list
    ensures m.list == null && Linked(m.next, c)
  {
    m.next := m.list;
    m.list := null;
  }

  /** The children of menu move behind it. */
  method SpliceUp(menu: Menu, p: Menu, ghost par: Menu?, ghost l: Chain, ghost n: Chain, ghost all: set<Menu>)
    requires Headed(menu, par, l, n) && Apart(menu, l, n, all) && l.Node? && p !in Nodes(l)
    modifies menu, Nodes(l)
    ensures Headed(menu, par, Nil, Append(Adopted(l, p), n))
  {
    NullIsNil(menu.list, l);
    ghost var both, c := Nodes(l) + Nodes(n), Append(Adopted(l, p), n);
    Graft(p, menu.list, menu.next, l, n, both);
    Relink(menu, c, both);
    assert Nodes(Nil) == {} && Linked(null, Nil);
  }

  lemma ApartParts(c: Chain)
    requires c.Node? && Distinct(c)
    ensures Apart(c.id, c.list, c.next, Nodes(c))
  {
    DistinctParts(c);
  }

  method FlattenOne(menu: Menu, p: Menu, ghost head: Menu?, ghost done: Chain, ghost rest: Chain, ghost all: set<Menu>)
    requires rest.Node? && rest.list.Node? && Walked(head, done, menu, rest, all) && p !in all
    modifies Nodes(rest)
    ensures Walked(head, done, menu, Spliced(rest, p), all)
  {
    SplicedNodes(rest, p);
    ApartParts(rest);
    SpliceUp(menu, p, rest.par, rest.list, rest.next, Nodes(rest));
  }

  method FlattenChildren(p: Menu, ghost l: Chain)
    requires Linked(p.list, l) && Distinct(l) && p !in Nodes(l)
    modifies Nodes(l)
    ensures Linked(p.list, Flattened(l, p))
  {
    var menu := p.list;
    ghost var done, rest := Nil, l;
    while menu != null
      invariant Walked(p.list, done, menu, rest, Nodes(l))
      invariant Flattened(l, p) == Append(done, Flattened(rest, p))
      decreases Size(rest)
    {
      ghost var f := rest;
      NullIsNil(menu, rest);
      NullIsNil(menu.list, rest.list);
      if menu.list != null && !menu.hasText {
        f := Spliced(rest, p);
        FlattenOne(menu, p, p.list, done, rest, Nodes(l));
      }
      AdvanceAppend(done, f, Flattened(f.next, p));
      WalkOn(p.list, done, menu, f, Nodes(l));
      done, rest := Append(done, Alone(f)), f.next;
      menu := menu.next;
    }
    Arrived(p.list, done, rest, Nodes(l));
  }

  method FlattenList(m: Menu, ghost par: Menu?, ghost l: Chain, ghost n: Chain, ghost all: set<Menu>)
    requires Headed(m, par, l, n) && Apart(m, l, n, all)
    modifies Nodes(l)
    ensures Headed(m, par, Flattened(l, m), n)
  {
    PreorderFlattened(l, m);
    SameNodes(l, Flattened(l, m));
    FlattenChildren(m, l);
  }

  // ----- Automatic submenus -----

  method TakeOne(p: Menu, ghost head: Menu?, ghost done: Chain, menu: Menu, ghost rest: Chain, t: Test, ghost all: set<Menu>)
    returns (ghost calls: seq<Menu>)
    requires rest.Node? && Walked(head, done, menu, rest, all)
    modifies Nodes(rest)
    ensures Finalized(rest, t).Node? && Walked(head, done, menu, Finalized(rest, t).(par := p), all)
    ensures calls == Calls(rest, t)
    decreases Size(rest), 2
  {
    calls := FinalizeOne(head, done, menu, rest, t, all);
    FinalizedNodes(rest, t);
    AdoptOne(p, head, done, menu, Finalized(rest, t), all);
  }

  /** A walk that ended behind last, the only node of l. */
  ghost predicate Cuttable(head: Menu?, pre: Chain, l: Chain, last: Menu, menu: Menu?, rest: Chain, all: set<Menu>)
    reads Nodes(pre), Nodes(l), Nodes(rest)
  {
    l.Node? && l.next == Nil && l.id == last && Seg(head, pre, last) && Seg(last, l, menu) && last.next == menu &&
    Linked(menu, rest) &&
    Nodes(pre) !! Nodes(l) && last !in Nodes(l.list) && last !in Nodes(rest) && Nodes(pre) + Nodes(l) + Nodes(rest) == all
  }

  lemma WalkCuttable(head: Menu?, pre: Chain, l: Chain, last: Menu, menu: Menu?, rest: Chain, all: set<Menu>)
    requires l.Node? && l.next == Nil && l.id == last && Walked(head, Append(pre, l), menu, rest, all) && Distinct(Append(pre, l))
    ensures Cuttable(head, pre, l, last, menu, rest, all)
  {
    SegSplit(head, pre, l, menu);
    DistinctAppend(pre, l);
    DistinctParts(l);
    NodesAppend(pre, l);
    assert Seg(last.next, Nil, menu);
  }

  /** The last node taken ends its chain. */
  method CutOff(last: Menu, ghost head: Menu?, ghost pre: Chain, ghost l: Chain, ghost menu: Menu?, ghost rest: Chain, ghost all: set<Menu>)
    requires Cuttable(head, pre, l, last, menu, rest, all)
    modifies last`next
    ensures Linked(head, Append(pre, l)) && Linked(menu, rest)
  {
    last.next := null;
    SegAppend(head, pre, last, l, null);
  }

  lemma {:induction false} SegSplit(p: Menu?, c: Chain, d: Chain, end: Menu?)
    requires d.Node? && Seg(p, Append(c, d), end)
    ensures Seg(p, c, d.id) && Seg(d.id, d, end)
  {
    NodesAppend(c, d);
    if c.Node? { SegSplit(c.id.next, c.next, d, end); }
  }

  /** How far the walk behind p has come: l ends with the last node taken. */
  ghost predicate Taking(p: Menu, t: Test, n: Chain, head: Menu?, pre: Chain, l: Chain, menu: Menu?, rest: Chain, last: Menu?)
    reads Nodes(Append(pre, l)), Nodes(rest)
  {
    Walked(head, Append(pre, l), menu, rest, Nodes(n)) &&
    Taken(p, n, t) == (Append(Append(pre, l), Taken(p, rest, t).0), Taken(p, rest, t).1) &&
    if last == null then pre == l == Nil else l.Node? && l.next == Nil && l.id == last
  }

  lemma TakenOn(p: Menu, t: Test, n: Chain, head: Menu?, pre: Chain, l: Chain, menu: Menu, rest: Chain, f: Chain)
    requires rest.Node? && rest.id == menu && t(p, menu) && Finalized(rest, t).Node? && f == Finalized(rest, t).(par := p)
    requires Taken(p, n, t) == (Append(Append(pre, l), Taken(p, rest, t).0), Taken(p, rest, t).1)
    requires Walked(head, Append(pre, l), menu, f, Nodes(n))
    ensures Taking(p, t, n, head, Append(pre, l), Alone(f), menu.next, f.next, menu)
  {
    AdvanceAppend(Append(pre, l), f, Taken(p, f.next, t).0);
    WalkOn(head, Append(pre, l), menu, f, Nodes(n));
  }

  method TakeWhile(p: Menu, t: Test, ghost n: Chain)
    returns (last: Menu?, menu: Menu?, ghost pre: Chain, ghost l: Chain, ghost rest: Chain, ghost calls: seq<Menu>)
    requires Linked(p.next, n) && Distinct(n) && p !in Nodes(n)
    modifies Nodes(n)
    ensures Taking(p, t, n, p.next, pre, l, menu, rest, last) && (menu == null || !t(p, menu))
    ensures TakenCalls(p, n, t) == calls
    decreases Size(n), 3
  {
    last, menu := null, p.next;
    pre, l, rest := Nil, Nil, n;
    calls := [];
    Nothing(TakenCalls(p, n, t));
    while menu != null && t(p, menu)
      invariant Taking(p, t, n, p.next, pre, l, menu, rest, last) && Size(rest) <= Size(n)
      invariant TakenCalls(p, n, t) == calls + TakenCalls(p, rest, t)
      decreases Size(rest)
    {
      NullIsNil(menu, rest);
      ghost var more := TakeOne(p, p.next, Append(pre, l), menu, rest, t, Nodes(n));
      ghost var f := Finalized(rest, t).(par := p);
      Associate(calls, more, TakenCalls(p, f.next, t));
      calls := calls + more;
      TakenOn(p, t, n, p.next, pre, l, menu, rest, f);
      pre, l, rest := Append(pre, l), Alone(f), f.next;
      last, menu := menu, menu.next;
    }
    NullIsNil(menu, rest);
  }

  /** What the walk comes to when it ends. */
  lemma TakenAtEnd(p: Menu, t: Test, n: Chain, head: Menu?, pre: Chain, l: Chain, menu: Menu?, rest: Chain, last: Menu?)
    requires Taking(p, t, n, head, pre, l, menu, rest, last) && (menu == null || !t(p, menu)) && Distinct(n)
    ensures Taken(p, n, t) == (Append(pre, l), rest)
    ensures last != null ==> last in Nodes(n) && Cuttable(head, pre, l, last, menu, rest, Nodes(n))
  {
    NullIsNil(menu, rest);
    AppendNil(Append(pre, l));
    if last != null {
      TakenKeepsOrder(p, n, t);
      PreorderAppend(Append(pre, l), rest);
      SameNodes(n, Append(Append(pre, l), rest));
      DistinctAppend(Append(pre, l), rest);
      WalkCuttable(head, pre, l, last, menu, rest, Nodes(n));
    }
  }

  /** The nodes taken become the children of p; the others follow it. */
  method CutTaken(p: Menu, last: Menu, ghost par: Menu?, ghost pre: Chain, ghost l: Chain, ghost menu: Menu?, ghost rest: Chain, ghost all: set<Menu>)
    requires Cuttable(p.next, pre, l, last, menu, rest, all) && last in all && p !in all && p.parent == par
    modifies p, last
    ensures Headed(p, par, Append(pre, l), rest)
  {
    NodesAppend(pre, l);
    p.list := p.next;
    p.next := last.next;
    CutOff(last, p.list, pre, l, menu, rest, all);
  }

  /** Those that follow p and pass the test become its children. */
  method TakeFollowers(p: Menu, t: Test, ghost par: Menu?, ghost n: Chain, ghost all: set<Menu>) returns (ghost calls: seq<Menu>)
    requires Headed(p, par, Nil, n) && Apart(p, Nil, n, all)
    modifies p, Nodes(n)
    ensures Headed(p, par, Taken(p, n, t).0, Taken(p, n, t).1) && calls == TakenCalls(p, n, t)
    decreases Size(n), 4
  {
    var last, menu;
    ghost var pre, l, rest;
    last, menu, pre, l, rest, calls := TakeWhile(p, t, n);
    TakenAtEnd(p, t, n, p.next, pre, l, menu, rest, last);
    if last != null { CutTaken(p, last, par, pre, l, menu, rest, Nodes(n)); }
  }

  lemma TakenApart(p: Menu, n: Chain, t: Test, all: set<Menu>)
    requires Apart(p, Nil, n, all)
    ensures Apart(p, Taken(p, n, t).0, Taken(p, n, t).1, all)
  {
    var a, b := Taken(p, n, t).0, Taken(p, n, t).1;
    TakenKeepsOrder(p, n, t);
    PreorderAppend(a, b);
    SameNodes(n, Append(a, b));
    NodesAppend(a, b);
    DistinctAppend(a, b);
  }

  /** The node with everything below it and what follows it in its chain. */
  method MenuFinalize(m: Menu, t: Test, ghost c: Chain) returns (ghost calls: seq<Menu>)
    requires c.Node? && Linked(m, c) && Distinct(c)
    modifies Nodes(c)
    ensures Linked(m, Finalized(c, t)) && calls == Calls(c, t)
    decreases Size(c), 0
  {
    ApartParts(c);
    NullIsNil(m.list, c.list);
    ghost var l, n := c.list, c.next;
    calls := [];
    if m.list != null {
      calls := FinalizeList(m, t, c.par, l, n, Nodes(c));
      l := AllFinalized(l, t);
    } else if m.hasSym {
      calls := TakeFollowers(m, t, c.par, n, Nodes(c));
      TakenApart(m, n, t, Nodes(c));
      l, n := Taken(m, n, t).0, Taken(m, n, t).1;
    }
    calls := [m] + calls;
    FlattenList(m, c.par, l, n, Nodes(c));
  }
}
