/** Overlaying one live tree on another: definitions override, tombstones delete. */
module DtcMerge {
  import opened DtcTree
  import opened Wrappers

  // ----- Deleting -----

  function DeleteProps(ps: seq<Property>): (r: seq<Property>)
    ensures |r| == |ps|
  {
    seq(|ps|, i requires 0 <= i < |ps| => ps[i].(deleted := true))
  }

  /** A node goes with everything below it; what is already deleted is left alone. */
  function DeleteNode(n: Node): Node {
    Node(n.name, true, DeleteProps(n.props), DeleteNodes(n.children))
  }

  function DeleteNodes(ns: seq<Node>): seq<Node> {
    if ns == [] then [] else [if ns[0].deleted then ns[0] else DeleteNode(ns[0])] + DeleteNodes(ns[1..])
  }

  // ----- Merging -----

  /** One property of the overlay: the first property of that name, deleted or not, is deleted
      or takes the new value; a definition without one goes to the end. */
  function MergeProp(ps: seq<Property>, q: Property): seq<Property> {
    if ps == [] then if q.deleted then [] else [q]
    else if ps[0].name != q.name then [ps[0]] + MergeProp(ps[1..], q)
    else [if q.deleted then ps[0].(deleted := true) else Property(q.name, false, q.value)] + ps[1..]
  }

  function MergeProps(ps: seq<Property>, qs: seq<Property>): seq<Property>
    decreases |qs|
  {
    if qs == [] then ps else MergeProps(MergeProp(ps, qs[0]), qs[1..])
  }

  function Merge(old_: Node, new_: Node): Node
    decreases new_, 0, 0
  {
    Node(old_.name, false, MergeProps(old_.props, new_.props), MergeChildren(old_.children, new_.children))
  }

  function MergeChild(cs: seq<Node>, d: Node): seq<Node>
    decreases d, 1, |cs|
  {
    if cs == [] then if d.deleted then [] else [d]
    else if cs[0].name != d.name then [cs[0]] + MergeChild(cs[1..], d)
    else [if d.deleted then DeleteNode(cs[0]) else Merge(cs[0], d)] + cs[1..]
  }

  function MergeChildren(cs: seq<Node>, ds: seq<Node>): seq<Node>
    decreases ds, 0, |ds|
  {
    if ds == [] then cs else MergeChildren(MergeChild(cs, ds[0]), ds[1..])
  }

  // ----- Looking things up -----

  /** The first live property of a name. */
  function LiveProp(ps: seq<Property>, name: Bytes): (r: Option<Property>)
    ensures r.Some? ==> !r.value.deleted
  {
    if ps == [] then None
    else if !ps[0].deleted && ps[0].name == name then Some(ps[0]) else LiveProp(ps[1..], name)
  }

  /** The first live child of a name. */
  function Subnode(cs: seq<Node>, name: Bytes): (r: Option<Node>)
    ensures r.Some? ==> !r.value.deleted && r.value in cs
  {
    if cs == [] then None
    else if !cs[0].deleted && cs[0].name == name then Some(cs[0]) else Subnode(cs[1..], name)
  }

  /** What a live tree says at a path of node names: the value of a property, or for no property
      the empty value if the node is there. */
  function Lookup(n: Node, path: seq<Bytes>, prop: Option<Bytes>): Option<Bytes>
    decreases |path|
  {
    if n.deleted then None
    else if path == [] then
      match prop
      case None => Some([])
      case Some(name) =>
        var p := LiveProp(n.props, name);
        if p.None? then None else Some(p.value.value)
    else
      var c := Subnode(n.children, path[0]);
      if c.None? then None else Lookup(c.value, path[1..], prop)
  }

  function FirstProp(ps: seq<Property>, name: Bytes): Option<Property> {
    if ps == [] then None else if ps[0].name == name then Some(ps[0]) else FirstProp(ps[1..], name)
  }

  function FirstChild(cs: seq<Node>, name: Bytes): (r: Option<Node>)
    ensures r.Some? ==> r.value in cs && r.value.name == name
  {
    if cs == [] then None else if cs[0].name == name then Some(cs[0]) else FirstChild(cs[1..], name)
  }

  /** What an overlay says about an item: nothing, that it is gone, or its value. */
  datatype Verdict = Silent | Gone | Defined(value: Bytes)

  function VerdictOf(n: Node, path: seq<Bytes>, prop: Option<Bytes>): Verdict
    decreases |path|
  {
    if path == [] then
      match prop
      case None => Defined([])
      case Some(name) =>
        var p := FirstProp(n.props, name);
        if p.None? then Silent else if p.value.deleted then Gone else Defined(p.value.value)
    else
      var c := FirstChild(n.children, path[0]);
      if c.None? then Silent else if c.value.deleted then Gone else VerdictOf(c.value, path[1..], prop)
  }

  // ----- Well-formed trees -----

  predicate UniqueProps(ps: seq<Property>) {
    ps == [] || (FirstProp(ps[1..], ps[0].name).None? && UniqueProps(ps[1..]))
  }

  predicate UniqueChildren(cs: seq<Node>) {
    cs == [] || (FirstChild(cs[1..], cs[0].name).None? && UniqueChildren(cs[1..]))
  }

  /** Names are unique, counting tombstones. */
  predicate Unique(n: Node) {
    UniqueProps(n.props) && UniqueChildren(n.children) && AllUnique(n.children)
  }

  predicate AllUnique(cs: seq<Node>) {
    cs == [] || (Unique(cs[0]) && AllUnique(cs[1..]))
  }

  predicate AllPropsDeleted(ps: seq<Property>) {
    forall p :: p in ps ==> p.deleted
  }

  predicate AllDeleted(cs: seq<Node>) {
    forall c :: c in cs ==> c.deleted
  }

  /** A deleted node has nothing alive below it. */
  predicate Buried(n: Node) {
    (n.deleted ==> AllPropsDeleted(n.props) && AllDeleted(n.children)) && AllBuried(n.children)
  }

  predicate AllBuried(cs: seq<Node>) {
    cs == [] || (Buried(cs[0]) && AllBuried(cs[1..]))
  }

  // ----- Single lists -----

  lemma {:induction false} LivePropIsFirst(ps: seq<Property>, name: Bytes)
    requires UniqueProps(ps)
    ensures LiveProp(ps, name) == if FirstProp(ps, name).Some? && !FirstProp(ps, name).value.deleted then FirstProp(ps, name) else None
  {
    if ps != [] { LivePropIsFirst(ps[1..], name); }
  }

  lemma {:induction false} SubnodeIsFirst(cs: seq<Node>, name: Bytes)
    requires UniqueChildren(cs)
    ensures Subnode(cs, name) == if FirstChild(cs, name).Some? && !FirstChild(cs, name).value.deleted then FirstChild(cs, name) else None
  {
    if cs != [] { SubnodeIsFirst(cs[1..], name); }
  }

  /** What one property of the overlay does to the first property of each name. */
  function MergedProp(p: Option<Property>, q: Property): Option<Property> {
    if !q.deleted then Some(Property(q.name, false, q.value))
    else if p.None? then None else Some(p.value.(deleted := true))
  }

  function MergedChild(c: Option<Node>, d: Node): Option<Node> {
    if c.None? then if d.deleted then None else Some(d)
    else Some(if d.deleted then DeleteNode(c.value) else Merge(c.value, d))
  }

  lemma {:induction false} MergePropFirst(ps: seq<Property>, q: Property, name: Bytes)
    ensures FirstProp(MergeProp(ps, q), name) == if name == q.name then MergedProp(FirstProp(ps, name), q) else FirstProp(ps, name)
  {
    if ps != [] {
      if ps[0].name != q.name { MergePropFirst(ps[1..], q, name); }
      var r := MergeProp(ps, q);
      assert r[1..] == if ps[0].name != q.name then MergeProp(ps[1..], q) else ps[1..];
    }
  }

  lemma {:induction false} MergePropsFirst(ps: seq<Property>, qs: seq<Property>, name: Bytes)
    requires UniqueProps(qs)
    ensures FirstProp(MergeProps(ps, qs), name) ==
            if FirstProp(qs, name).None? then FirstProp(ps, name) else MergedProp(FirstProp(ps, name), FirstProp(qs, name).value)
    decreases |qs|
  {
    if qs != [] {
      MergePropFirst(ps, qs[0], name);
      MergePropsFirst(MergeProp(ps, qs[0]), qs[1..], name);
    }
  }

  lemma NameOfMerged(c: Node, d: Node)
    ensures (if d.deleted then DeleteNode(c) else Merge(c, d)).name == c.name
  {
  }

  lemma {:induction false} MergeChildFirst(cs: seq<Node>, d: Node, name: Bytes)
    ensures FirstChild(MergeChild(cs, d), name) == if name == d.name then MergedChild(FirstChild(cs, name), d) else FirstChild(cs, name)
  {
    if cs != [] {
      if cs[0].name != d.name { MergeChildFirst(cs[1..], d, name); } else { NameOfMerged(cs[0], d); }
      var r := MergeChild(cs, d);
      assert r[1..] == if cs[0].name != d.name then MergeChild(cs[1..], d) else cs[1..];
    }
  }

  lemma {:induction false} MergeChildrenFirst(cs: seq<Node>, ds: seq<Node>, name: Bytes)
    requires UniqueChildren(ds)
    ensures FirstChild(MergeChildren(cs, ds), name) ==
            if FirstChild(ds, name).None? then FirstChild(cs, name) else MergedChild(FirstChild(cs, name), FirstChild(ds, name).value)
    decreases |ds|
  {
    if ds != [] {
      MergeChildFirst(cs, ds[0], name);
      MergeChildrenFirst(MergeChild(cs, ds[0]), ds[1..], name);
    }
  }

  // ----- Uniqueness is kept -----

  lemma {:induction false} MergePropUnique(ps: seq<Property>, q: Property)
    requires UniqueProps(ps)
    ensures UniqueProps(MergeProp(ps, q))
  {
    if ps != [] {
      var r := MergeProp(ps, q);
      if ps[0].name != q.name {
        MergePropUnique(ps[1..], q);
        MergePropFirst(ps[1..], q, ps[0].name);
        assert r[1..] == MergeProp(ps[1..], q);
      } else {
        assert r[1..] == ps[1..];
      }
    }
  }

  lemma {:induction false} MergePropsUnique(ps: seq<Property>, qs: seq<Property>)
    requires UniqueProps(ps)
    ensures UniqueProps(MergeProps(ps, qs))
    decreases |qs|
  {
    if qs != [] {
      MergePropUnique(ps, qs[0]);
      MergePropsUnique(MergeProp(ps, qs[0]), qs[1..]);
    }
  }

  lemma {:induction false} DeletePropsUnique(ps: seq<Property>)
    requires UniqueProps(ps)
    ensures UniqueProps(DeleteProps(ps))
  {
    if ps != [] {
      DeletePropsUnique(ps[1..]);
      assert DeleteProps(ps)[1..] == DeleteProps(ps[1..]);
      DeletePropsFirst(ps[1..], ps[0].name);
    }
  }

  lemma {:induction false} DeletePropsFirst(ps: seq<Property>, name: Bytes)
    ensures FirstProp(DeleteProps(ps), name).None? <==> FirstProp(ps, name).None?
  {
    if ps != [] {
      DeletePropsFirst(ps[1..], name);
      assert DeleteProps(ps)[1..] == DeleteProps(ps[1..]);
    }
  }

  lemma {:induction false} DeleteNodesFirst(cs: seq<Node>, name: Bytes)
    ensures FirstChild(DeleteNodes(cs), name).None? <==> FirstChild(cs, name).None?
  {
    if cs != [] {
      DeleteNodesFirst(cs[1..], name);
      assert DeleteNodes(cs)[1..] == DeleteNodes(cs[1..]);
    }
  }

  lemma {:induction false} DeleteUnique(n: Node)
    requires Unique(n)
    ensures Unique(DeleteNode(n))
    decreases n
  {
    DeletePropsUnique(n.props);
    DeleteNodesUnique(n.children);
  }

  lemma {:induction false} DeleteNodesUnique(cs: seq<Node>)
    requires UniqueChildren(cs) && AllUnique(cs)
    ensures UniqueChildren(DeleteNodes(cs)) && AllUnique(DeleteNodes(cs))
    decreases cs
  {
    if cs != [] {
      DeleteNodesUnique(cs[1..]);
      DeleteNodesFirst(cs[1..], cs[0].name);
      if !cs[0].deleted { DeleteUnique(cs[0]); }
      assert DeleteNodes(cs)[1..] == DeleteNodes(cs[1..]);
    }
  }

  lemma {:induction false} MergeUnique(o: Node, n: Node)
    requires Unique(o) && Unique(n)
    ensures Unique(Merge(o, n))
    decreases n, 0, 0
  {
    MergePropsUnique(o.props, n.props);
    MergeChildrenUnique(o.children, n.children);
  }

  lemma {:induction false} MergeChildUnique(cs: seq<Node>, d: Node)
    requires UniqueChildren(cs) && AllUnique(cs) && Unique(d)
    ensures UniqueChildren(MergeChild(cs, d)) && AllUnique(MergeChild(cs, d))
    decreases d, 1, |cs|
  {
    if cs != [] {
      var r := MergeChild(cs, d);
      if cs[0].name != d.name {
        MergeChildUnique(cs[1..], d);
        MergeChildFirst(cs[1..], d, cs[0].name);
        assert r[1..] == MergeChild(cs[1..], d);
      } else {
        if d.deleted { DeleteUnique(cs[0]); } else { MergeUnique(cs[0], d); }
        NameOfMerged(cs[0], d);
        assert r[1..] == cs[1..];
      }
    }
  }

  lemma {:induction false} MergeChildrenUnique(cs: seq<Node>, ds: seq<Node>)
    requires UniqueChildren(cs) && AllUnique(cs) && AllUnique(ds)
    ensures UniqueChildren(MergeChildren(cs, ds)) && AllUnique(MergeChildren(cs, ds))
    decreases ds, 0, |ds|
  {
    if ds != [] {
      MergeChildUnique(cs, ds[0]);
      MergeChildrenUnique(MergeChild(cs, ds[0]), ds[1..]);
    }
  }

  // ----- The deleted stays buried -----

  lemma {:induction false} DeleteBuried(n: Node)
    requires Buried(n)
    ensures Buried(DeleteNode(n))
    decreases n
  {
    DeleteNodesBuried(n.children);
  }

  lemma {:induction false} DeleteNodesBuried(cs: seq<Node>)
    requires AllBuried(cs)
    ensures AllBuried(DeleteNodes(cs)) && AllDeleted(DeleteNodes(cs))
    decreases cs
  {
    if cs != [] {
      DeleteNodesBuried(cs[1..]);
      if !cs[0].deleted { DeleteBuried(cs[0]); }
      assert DeleteNodes(cs)[1..] == DeleteNodes(cs[1..]);
    }
  }

  lemma {:induction false} MergeBuried(o: Node, n: Node)
    requires Buried(o) && Buried(n)
    ensures Buried(Merge(o, n))
    decreases n, 0, 0
  {
    MergeChildrenBuried(o.children, n.children);
  }

  lemma {:induction false} MergeChildBuried(cs: seq<Node>, d: Node)
    requires AllBuried(cs) && Buried(d)
    ensures AllBuried(MergeChild(cs, d))
    decreases d, 1, |cs|
  {
    if cs != [] {
      var r := MergeChild(cs, d);
      if cs[0].name != d.name {
        MergeChildBuried(cs[1..], d);
        assert r[1..] == MergeChild(cs[1..], d);
      } else {
        if d.deleted { DeleteBuried(cs[0]); } else { MergeBuried(cs[0], d); }
        assert r[1..] == cs[1..];
      }
    }
  }

  lemma {:induction false} MergeChildrenBuried(cs: seq<Node>, ds: seq<Node>)
    requires AllBuried(cs) && AllBuried(ds)
    ensures AllBuried(MergeChildren(cs, ds))
    decreases ds, 0, |ds|
  {
    if ds != [] {
      MergeChildBuried(cs, ds[0]);
      MergeChildrenBuried(MergeChild(cs, ds[0]), ds[1..]);
    }
  }

  // ----- Override -----

  lemma {:induction false} MemberUnique(cs: seq<Node>, c: Node)
    requires AllUnique(cs) && c in cs
    ensures Unique(c)
  {
    if c != cs[0] { MemberUnique(cs[1..], c); }
  }

  lemma {:induction false} MemberBuried(cs: seq<Node>, c: Node)
    requires AllBuried(cs) && c in cs
    ensures Buried(c)
  {
    if c != cs[0] { MemberBuried(cs[1..], c); }
  }

  /** In a tree by itself, exactly what it defines is there. */
  lemma {:induction false} LookupIsVerdict(n: Node, path: seq<Bytes>, prop: Option<Bytes>)
    requires Unique(n) && !n.deleted
    ensures Lookup(n, path, prop) == if VerdictOf(n, path, prop).Defined? then Some(VerdictOf(n, path, prop).value) else None
    decreases |path|
  {
    if path == [] {
      if prop.Some? { LivePropIsFirst(n.props, prop.value); }
    } else {
      SubnodeIsFirst(n.children, path[0]);
      var c := Subnode(n.children, path[0]);
      if c.Some? {
        MemberUnique(n.children, c.value);
        LookupIsVerdict(c.value, path[1..], prop);
      }
    }
  }

  function Overridden(v: Verdict, below: Option<Bytes>): Option<Bytes> {
    match v
    case Defined(x) => Some(x)
    case Gone => None
    case Silent => below
  }

  /** The properties of the merged node itself. */
  lemma PropOverride(o: Node, n: Node, name: Bytes)
    requires Unique(o) && Unique(n) && Buried(o)
    ensures Lookup(Merge(o, n), [], Some(name)) == Overridden(VerdictOf(n, [], Some(name)), Lookup(o, [], Some(name)))
  {
    MergePropsUnique(o.props, n.props);
    MergePropsFirst(o.props, n.props, name);
    LivePropIsFirst(MergeProps(o.props, n.props), name);
    LivePropIsFirst(o.props, name);
    if o.deleted && FirstProp(o.props, name).Some? { FirstInDeleted(o.props, name); }
  }

  lemma {:induction false} FirstInDeleted(ps: seq<Property>, name: Bytes)
    requires AllPropsDeleted(ps) && FirstProp(ps, name).Some?
    ensures FirstProp(ps, name).value.deleted
  {
    if ps[0].name != name { FirstInDeleted(ps[1..], name); }
  }

  /** Looking up a live path in the merge: a definition of the overlay wins, a tombstone hides,
      and where the overlay is silent the old tree answers. */
  lemma {:induction false} MergeOverrides(o: Node, n: Node, path: seq<Bytes>, prop: Option<Bytes>)
    requires Unique(o) && Unique(n) && Buried(o)
    ensures Lookup(Merge(o, n), path, prop) == Overridden(VerdictOf(n, path, prop), Lookup(o, path, prop))
    decreases |path|
  {
    if path == [] {
      if prop.Some? { PropOverride(o, n, prop.value); }
    } else {
      ChildOverride(o, n, path[0]);
      var c, d := FirstChild(o.children, path[0]), FirstChild(n.children, path[0]);
      SubnodeIsFirst(o.children, path[0]);
      if d.Some? && !d.value.deleted {
        MemberUnique(n.children, d.value);
        if c.None? {
          LookupIsVerdict(d.value, path[1..], prop);
        } else {
          MemberUnique(o.children, c.value);
          MemberBuried(o.children, c.value);
          MergeOverrides(c.value, d.value, path[1..], prop);
        }
      }
    }
  }

  /** The child of the merged node. */
  lemma ChildOverride(o: Node, n: Node, name: Bytes)
    requires Unique(o) && Unique(n) && Buried(o)
    ensures
      var c, d := FirstChild(o.children, name), FirstChild(n.children, name);
      Subnode(Merge(o, n).children, name) ==
      (if d.None? then if o.deleted then None else Subnode(o.children, name)
       else if d.value.deleted then None
       else if c.None? then d else Some(Merge(c.value, d.value)))
  {
    MergeChildrenUnique(o.children, n.children);
    MergeChildrenFirst(o.children, n.children, name);
    SubnodeIsFirst(MergeChildren(o.children, n.children), name);
    SubnodeIsFirst(o.children, name);
  }

  /** A node that was deleted and is defined again shows nothing of its old content. */
  lemma RedefinedStartsEmpty(o: Node, n: Node, path: seq<Bytes>, prop: Option<Bytes>)
    requires Unique(o) && Unique(n) && Buried(o) && !n.deleted
    ensures Lookup(Merge(DeleteNode(o), n), path, prop) == Lookup(n, path, prop)
  {
    DeleteUnique(o);
    DeleteBuried(o);
    MergeOverrides(DeleteNode(o), n, path, prop);
    LookupIsVerdict(n, path, prop);
  }

  // ----- The program -----

  /** The place of the first property of a name, the end if there is none. */
  method FindPropWithDel(ps: seq<Property>, name: Bytes) returns (i: nat)
    ensures i <= |ps| && (i < |ps| ==> ps[i].name == name)
    ensures forall j :: 0 <= j < i ==> ps[j].name != name
  {
    i := 0;
    while i < |ps| && ps[i].name != name
      invariant i <= |ps| && forall j :: 0 <= j < i ==> ps[j].name != name
    {
      i := i + 1;
    }
  }

  method FindChildWithDel(cs: seq<Node>, name: Bytes) returns (i: nat)
    ensures i <= |cs| && (i < |cs| ==> cs[i].name == name)
    ensures forall j :: 0 <= j < i ==> cs[j].name != name
  {
    i := 0;
    while i < |cs| && cs[i].name != name
      invariant i <= |cs| && forall j :: 0 <= j < i ==> cs[j].name != name
    {
      i := i + 1;
    }
  }

  lemma {:induction false} MergePropAt(ps: seq<Property>, q: Property, i: nat)
    requires i <= |ps| && (i < |ps| ==> ps[i].name == q.name)
    requires forall j :: 0 <= j < i ==> ps[j].name != q.name
    ensures MergeProp(ps, q) ==
            if i < |ps| then ps[i := if q.deleted then ps[i].(deleted := true) else Property(q.name, false, q.value)]
            else if q.deleted then ps else ps + [q]
  {
    if i > 0 {
      MergePropAt(ps[1..], q, i - 1);
      assert ps == [ps[0]] + ps[1..];
    }
  }

  lemma {:induction false} MergeChildAt(cs: seq<Node>, d: Node, i: nat)
    requires i <= |cs| && (i < |cs| ==> cs[i].name == d.name)
    requires forall j :: 0 <= j < i ==> cs[j].name != d.name
    ensures MergeChild(cs, d) ==
            if i < |cs| then cs[i := if d.deleted then DeleteNode(cs[i]) else Merge(cs[i], d)]
            else if d.deleted then cs else cs + [d]
  {
    if i > 0 {
      MergeChildAt(cs[1..], d, i - 1);
      assert cs == [cs[0]] + cs[1..];
    }
  }

  method DeletePropertyByName(ps: seq<Property>, name: Bytes) returns (r: seq<Property>)
    ensures forall v :: r == MergeProp(ps, Property(name, true, v))
  {
    var i := FindPropWithDel(ps, name);
    forall v ensures MergeProp(ps, Property(name, true, v)) == if i < |ps| then ps[i := ps[i].(deleted := true)] else ps {
      MergePropAt(ps, Property(name, true, v), i);
    }
    r := if i < |ps| then ps[i := ps[i].(deleted := true)] else ps;
  }

  method MergeNodes(oldNode: Node, newNode: Node) returns (merged: Node)
    ensures merged == Merge(oldNode, newNode)
    decreases newNode
  {
    var props, newProps := oldNode.props, newNode.props;
    while newProps != []
      invariant MergeProps(props, newProps) == MergeProps(oldNode.props, newNode.props)
      decreases |newProps|
    {
      var newProp := newProps[0];
      newProps := newProps[1..];
      if newProp.deleted {
        props := DeletePropertyByName(props, newProp.name);
        assert newProp == Property(newProp.name, true, newProp.value);
      } else {
        var i := FindPropWithDel(props, newProp.name);
        MergePropAt(props, newProp, i);
        props := if i < |props| then props[i := Property(newProp.name, false, newProp.value)] else props + [newProp];
      }
    }
    var children := MergeSubnodes(oldNode.children, newNode.children);
    merged := Node(oldNode.name, false, props, children);
  }

  method MergeSubnodes(oldChildren: seq<Node>, newChildren: seq<Node>) returns (children: seq<Node>)
    ensures children == MergeChildren(oldChildren, newChildren)
    decreases newChildren
  {
    children := oldChildren;
    assert newChildren[0..] == newChildren;
    for k := 0 to |newChildren|
      invariant MergeChildren(children, newChildren[k..]) == MergeChildren(oldChildren, newChildren)
    {
      var newChild := newChildren[k];
      assert newChildren[k..][1..] == newChildren[k + 1..];
      var i := FindChildWithDel(children, newChild.name);
      MergeChildAt(children, newChild, i);
      if newChild.deleted {
        if i < |children| { children := children[i := DeleteNode(children[i])]; }
      } else if i < |children| {
        var both := MergeNodes(children[i], newChild);
        children := children[i := both];
      } else {
        children := children + [newChild];
      }
    }
  }
}
