/** The blob format byte by byte, as the format itself has it and without the names the writer and
    the reader use: what is written has this form, and what has this form is read. */
module DtcFormat {
  import opened Wrappers
  import opened DtcTree
  import opened DtcWrite
  import opened DtcRead

  // ----- The structure block -----

  /** Four bytes as a number, most significant byte first. */
  function Number(b: Bytes, pos: nat): nat
    requires pos + 4 <= |b|
  {
    b[pos] as nat * 0x100_0000 + b[pos + 1] as nat * 0x1_0000 + b[pos + 2] as nat * 0x100 + b[pos + 3] as nat
  }

  predicate TagAt(b: Bytes, pos: nat, tag: Byte) {
    pos % 4 == 0 && pos + 4 <= |b| && b[pos..pos + 4] == [0, 0, 0, tag]
  }

  predicate BytesAt(b: Bytes, pos: nat, s: Bytes) {
    pos + |s| <= |b| && b[pos..pos + |s|] == s
  }

  predicate ZeroAt(b: Bytes, i: nat) {
    i < |b| && b[i] == 0
  }

  predicate ZeroesAt(b: Bytes, pos: nat, end: nat) {
    end <= |b| && forall i :: pos <= i < end ==> ZeroAt(b, i)
  }

  /** A string, its NUL and zeroes up to a multiple of 4. */
  predicate StringPadded(b: Bytes, pos: nat, s: Bytes) {
    BytesAt(b, pos, s) && ZeroesAt(b, pos + |s|, Four(pos + |s| + 1))
  }

  function Four(x: nat): (r: nat)
    ensures x <= r < x + 4 && r % 4 == 0
  {
    if x % 4 == 0 then x else x + (4 - x % 4)
  }

  function Eight(x: nat): (r: nat)
    ensures x <= r < x + 8 && r % 8 == 0
  {
    if x % 8 == 0 then x else x + (8 - x % 8)
  }

  /** Before version 16 values of 8 bytes or more start at a multiple of 8. */
  function ValueStart(pos: nat, len: nat, old_: bool): nat {
    if old_ && len >= 8 then Eight(pos) else pos
  }

  function PropEnd(pos: nat, p: Property, old_: bool): (end: nat)
    ensures pos + 12 <= end && end % 4 == 0
  {
    Four(ValueStart(pos + 12, |p.value|, old_) + |p.value|)
  }

  /** 3, the length, the offset of the name, the value. */
  predicate PropAt(b: Bytes, pos: nat, strs: Bytes, p: Property, old_: bool) {
    TagAt(b, pos, 3) && pos + 12 <= |b| && Number(b, pos + 4) == |p.value| &&
    BytesAt(strs, Number(b, pos + 8), p.name + [0]) &&
    var start := ValueStart(pos + 12, |p.value|, old_);
    ZeroesAt(b, pos + 12, start) && BytesAt(b, start, p.value) && ZeroesAt(b, start + |p.value|, PropEnd(pos, p, old_))
  }

  function PropsEnd(pos: nat, ps: seq<Property>, old_: bool): (end: nat)
    ensures pos <= end && (pos % 4 == 0 ==> end % 4 == 0)
    decreases |ps|
  {
    if ps == [] then pos else PropsEnd(PropEnd(pos, ps[0], old_), ps[1..], old_)
  }

  /** One property behind the other, each where it is wanted. */
  predicate InTurn(at: (nat, Property) -> bool, pos: nat, ps: seq<Property>, old_: bool)
    decreases |ps|
  {
    ps == [] || (at(pos, ps[0]) && InTurn(at, PropEnd(pos, ps[0], old_), ps[1..], old_))
  }

  /** What stands where: a tag, a string, a property. */
  datatype Form = Form(tag: (nat, Byte) -> bool, text: (nat, Bytes) -> bool, prop: (nat, Property) -> bool)

  function FormOf(b: Bytes, strs: Bytes, old_: bool): Form {
    Form((pos: nat, t: Byte) => TagAt(b, pos, t),
         (pos: nat, s: Bytes) => StringPadded(b, pos, s),
         (pos: nat, p: Property) => PropAt(b, pos, strs, p, old_))
  }

  /** Before version 16 a node is written with its whole path. */
  function Path(parent: Bytes, name: Bytes): Bytes {
    if parent != [] && parent[|parent| - 1] == 47 then parent + name else parent + [47] + name
  }

  function Written(parent: Bytes, name: Bytes, old_: bool): Bytes {
    if old_ then Path(parent, name) else name
  }

  function NodeEnd(pos: nat, n: Node, parent: Bytes, old_: bool): (end: nat)
    ensures pos + 8 <= end
    decreases n
  {
    var name := Written(parent, n.name, old_);
    NodesEnd(PropsEnd(Four(pos + 4 + |name| + 1), n.props, old_), n.children, name, old_) + 4
  }

  function NodesEnd(pos: nat, ns: seq<Node>, parent: Bytes, old_: bool): (end: nat)
    ensures pos <= end
    decreases ns
  {
    if ns == [] then pos else NodesEnd(NodeEnd(pos, ns[0], parent, old_), ns[1..], parent, old_)
  }

  /** 1, the name, the properties, the children, 2. */
  predicate NodeAt(f: Form, pos: nat, n: Node, parent: Bytes, old_: bool)
    decreases n, 1
  {
    var name := Written(parent, n.name, old_);
    var props := Four(pos + 4 + |name| + 1);
    var children := PropsEnd(props, n.props, old_);
    PartsAt(f, pos, n, name, old_, props, children, NodesEnd(children, n.children, name, old_))
  }

  predicate PartsAt(f: Form, pos: nat, n: Node, name: Bytes, old_: bool, props: nat, children: nat, end: nat)
    decreases n, 0
  {
    f.tag(pos, 1) && f.text(pos + 4, name) && InTurn(f.prop, props, n.props, old_) &&
    NodesAt(f, children, n.children, name, old_) && f.tag(end, 2)
  }

  predicate NodesAt(f: Form, pos: nat, ns: seq<Node>, parent: Bytes, old_: bool)
    decreases ns
  {
    ns == [] || (NodeAt(f, pos, ns[0], parent, old_) && NodesAt(f, NodeEnd(pos, ns[0], parent, old_), ns[1..], parent, old_))
  }

  // ----- What is written -----

  lemma EmittedCell(b: Bytes, dt: Bytes, v: nat)
    requires EmitCell(dt, v) <= b && v < 0x1_0000_0000
    ensures Number(b, |dt|) == v
    ensures v < 256 && |dt| % 4 == 0 ==> TagAt(b, |dt|, v)
  {
    assert b[|dt|..|dt| + 4] == EmitCell(dt, v)[|dt|..] == Cell(v);
    CellNumber(v);
    assert b[|dt|] == Cell(v)[0] && b[|dt| + 1] == Cell(v)[1] && b[|dt| + 2] == Cell(v)[2] && b[|dt| + 3] == Cell(v)[3];
  }

  lemma CellNumber(v: nat)
    requires v < 0x1_0000_0000
    ensures var c := Cell(v); c[0] as nat * 0x100_0000 + c[1] as nat * 0x1_0000 + c[2] as nat * 0x100 + c[3] as nat == v
    ensures v < 256 ==> Cell(v) == [0, 0, 0, v]
  {
    CellRoundTrip(v);
  }

  lemma EmittedString(b: Bytes, dt: Bytes, s: Bytes)
    requires EmitAlign(EmitString(dt, s, 0), 4) <= b
    ensures StringPadded(b, |dt|, s)
    ensures |EmitAlign(EmitString(dt, s, 0), 4)| == Four(|dt| + |s| + 1)
  {
    var all := EmitAlign(EmitString(dt, s, 0), 4);
    assert b[|dt|..|dt| + |s|] == all[|dt|..|dt| + |s|] == s;
    forall i | |dt| + |s| <= i < |all| ensures ZeroAt(b, i) {
      assert b[i] == all[i];
    }
  }

  lemma EmittedValue(b: Bytes, dt: Bytes, value: Bytes, v: Version, old_: bool)
    requires EmitValue(dt, value, v) <= b && v.varAlign == old_
    ensures
      var start := ValueStart(|dt|, |value|, old_);
      |EmitValue(dt, value, v)| == Four(start + |value|) &&
      ZeroesAt(b, |dt|, start) && BytesAt(b, start, value) && ZeroesAt(b, start + |value|, Four(start + |value|))
  {
    var all, start := EmitValue(dt, value, v), ValueStart(|dt|, |value|, old_);
    assert |AlignForValue(dt, |value|, v)| == start;
    assert b[start..start + |value|] == all[start..start + |value|] == value;
    forall i | |dt| <= i < start || start + |value| <= i < |all| ensures ZeroAt(b, i) {
      assert b[i] == all[i];
    }
  }

  lemma PropOfParts(b: Bytes, pos: nat, strs: Bytes, p: Property, old_: bool, off: nat, start: nat)
    requires TagAt(b, pos, 3) && pos + 12 <= |b| && Number(b, pos + 4) == |p.value| && Number(b, pos + 8) == off
    requires StringAt(strs, off, p.name) && start == ValueStart(pos + 12, |p.value|, old_)
    requires ZeroesAt(b, pos + 12, start) && BytesAt(b, start, p.value) && ZeroesAt(b, start + |p.value|, Four(start + |p.value|))
    ensures PropAt(b, pos, strs, p, old_) && PropEnd(pos, p, old_) == Four(start + |p.value|)
  {
    assert strs[off..off + |p.name| + 1] == p.name + [0];
  }

  lemma EmittedProperty(b: Bytes, strs: Bytes, c: Bufs, p: Property, v: Version, old_: bool)
    requires |c.dt| % 4 == 0 && v.varAlign == old_ && Fits(EmitProperty(c, p.name, p.value, v)) && |p.value| < CELLS
    requires Within(EmitProperty(c, p.name, p.value, v), b, strs)
    ensures PropAt(b, |c.dt|, strs, p, old_) && |EmitProperty(c, p.name, p.value, v).dt| == PropEnd(|c.dt|, p, old_)
  {
    var off := StringTableOffset(c.str, p.name);
    var header := EmitPropHeader(c.dt, |p.value|, off);
    PrefixTransitive(header, EmitValue(header, p.value, v), b);
    EmittedHeader(b, c.dt, |p.value|, off);
    EmittedValue(b, header, p.value, v, old_);
    StringStays(StringTableInsert(c.str, p.name), strs, off, p.name);
    PropOfParts(b, |c.dt|, strs, p, old_, off, ValueStart(|header|, |p.value|, old_));
  }

  lemma EmittedHeader(b: Bytes, dt: Bytes, len: nat, off: nat)
    requires |dt| % 4 == 0 && EmitPropHeader(dt, len, off) <= b && len < CELLS && off < CELLS
    ensures TagAt(b, |dt|, 3) && |dt| + 12 <= |b| && Number(b, |dt| + 4) == len && Number(b, |dt| + 8) == off
  {
    var d1, d2 := EmitCell(dt, PROP), EmitCell(EmitCell(dt, PROP), len);
    PrefixTransitive(d2, EmitCell(d2, off), b);
    PrefixTransitive(d1, d2, b);
    EmittedCell(b, dt, PROP);
    EmittedCell(b, d1, len);
    EmittedCell(b, d2, off);
  }

  lemma {:induction false} EmittedProps(b: Bytes, strs: Bytes, c: Bufs, ps: seq<Property>, v: Version, old_: bool)
    requires |c.dt| % 4 == 0 && v.varAlign == old_ && Fits(EmitProps(c, ps, v)) && (forall p :: p in ps ==> GoodProp(p))
    requires Within(EmitProps(c, ps, v), b, strs)
    ensures InTurn(FormOf(b, strs, old_).prop, |c.dt|, LiveProps(ps), old_) && |EmitProps(c, ps, v).dt| == PropsEnd(|c.dt|, LiveProps(ps), old_)
    decreases |ps|
  {
    if ps != [] {
      var d := if ps[0].deleted then c else EmitProperty(c, ps[0].name, ps[0].value, v);
      WithinTransitive(d, EmitProps(d, ps[1..], v), b, strs);
      if !ps[0].deleted { EmittedProperty(b, strs, c, ps[0], v, old_); }
      EmittedProps(b, strs, d, ps[1..], v, old_);
      if !ps[0].deleted {
        assert LiveProps(ps)[0] == ps[0] && LiveProps(ps)[1..] == LiveProps(ps[1..]);
      } else {
        assert LiveProps(ps) == LiveProps(ps[1..]);
      }
    }
  }

  lemma {:induction false} InTurnJoin(at: (nat, Property) -> bool, pos: nat, ps: seq<Property>, qs: seq<Property>, old_: bool)
    requires InTurn(at, pos, ps, old_) && InTurn(at, PropsEnd(pos, ps, old_), qs, old_)
    ensures InTurn(at, pos, ps + qs, old_) && PropsEnd(pos, ps + qs, old_) == PropsEnd(PropsEnd(pos, ps, old_), qs, old_)
    decreases |ps|
  {
    if ps == [] {
      assert ps + qs == qs;
    } else {
      InTurnJoin(at, PropEnd(pos, ps[0], old_), ps[1..], qs, old_);
      assert (ps + qs)[0] == ps[0] && (ps + qs)[1..] == ps[1..] + qs;
    }
  }

  lemma EmittedNameProp(b: Bytes, strs: Bytes, c: Bufs, n: Node, root: bool, v: Version, old_: bool)
    requires |c.dt| % 4 == 0 && Consistent(v) && v.varAlign == old_ && GoodName(n.name, root, v) && |n.name| + 1 < CELLS
    requires Fits(EmitNameProp(c, n, v)) && Within(EmitNameProp(c, n, v), b, strs)
    ensures InTurn(FormOf(b, strs, old_).prop, |c.dt|, AddedName(n, v), old_) && |EmitNameProp(c, n, v).dt| == PropsEnd(|c.dt|, AddedName(n, v), old_)
  {
    if v.nameProps && !HasLiveName(n.props) {
      NamePropIsProperty(c, n, v);
      EmittedProperty(b, strs, c, NameProp(n.name), v, old_);
      assert [NameProp(n.name)][1..] == [];
    }
  }

  lemma EmittedHead(b: Bytes, dt: Bytes, name: Bytes)
    requires |dt| % 4 == 0 && Head(dt, name) <= b
    ensures TagAt(b, |dt|, 1) && StringPadded(b, |dt| + 4, name) && |Head(dt, name)| == Four(|dt| + 4 + |name| + 1)
  {
    PrefixTransitive(EmitCell(dt, BEGIN_NODE), Head(dt, name), b);
    EmittedCell(b, dt, BEGIN_NODE);
    EmittedString(b, EmitCell(dt, BEGIN_NODE), name);
  }

  lemma SamePath(parent: Bytes, name: Bytes)
    ensures Path(parent, name) == JoinPath(parent, name)
  {
  }

  /** The stages of writing one node, up to its closing tag. */
  ghost predicate Staged(b: Bytes, strs: Bytes, c: Bufs, s: Stages, n: Node, parent: Bytes, v: Version) {
    Consistent(v) && |c.dt| % 4 == 0 && s == StagesOf(c, n, parent, v) &&
    Fits(s.children) && Within(Bufs(EmitCell(s.children.dt, END_NODE), s.children.str), b, strs)
  }

  lemma StagesWithin(b: Bytes, strs: Bytes, c: Bufs, s: Stages, n: Node, parent: Bytes, v: Version)
    requires Staged(b, strs, c, s, n, parent, v)
    ensures Within(s.children, b, strs) && Within(s.name, b, strs) && Within(s.head, b, strs) && Within(s.props, b, strs)
    ensures Fits(s.name) && Fits(s.props) && |s.head.dt| % 4 == 0
  {
  }

  lemma HeadInFormat(b: Bytes, strs: Bytes, c: Bufs, s: Stages, n: Node, parent: Bytes, v: Version, name: Bytes)
    requires Staged(b, strs, c, s, n, parent, v) && name == Written(parent, n.name, v.fullPath)
    ensures TagAt(b, |c.dt|, 1) && StringPadded(b, |c.dt| + 4, name) && |s.head.dt| == Four(|c.dt| + 4 + |name| + 1)
  {
    SamePath(parent, n.name);
    StagesWithin(b, strs, c, s, n, parent, v);
    EmittedHead(b, c.dt, name);
  }

  /** The properties, with the one for the name. */
  lemma EntriesInFormat(b: Bytes, strs: Bytes, c: Bufs, s: Stages, n: Node, parent: Bytes, v: Version, root: bool)
    requires Staged(b, strs, c, s, n, parent, v) && GoodNode(n, root, v)
    ensures InTurn(FormOf(b, strs, v.fullPath).prop, |s.head.dt|, LiveNode(n, v).props, v.fullPath)
    ensures |s.name.dt| == PropsEnd(|s.head.dt|, LiveNode(n, v).props, v.fullPath) && |s.name.dt| % 4 == 0
  {
    StagesWithin(b, strs, c, s, n, parent, v);
    EmittedProps(b, strs, s.head, n.props, v, v.fullPath);
    EmittedNameProp(b, strs, s.props, n, root, v, v.fullPath);
    InTurnJoin(FormOf(b, strs, v.fullPath).prop, |s.head.dt|, LiveProps(n.props), AddedName(n, v), v.fullPath);
    assert LiveNode(n, v).props == LiveProps(n.props) + AddedName(n, v);
  }

  lemma {:induction false} ChildrenInFormat(b: Bytes, strs: Bytes, c: Bufs, s: Stages, n: Node, parent: Bytes, v: Version, name: Bytes)
    requires Staged(b, strs, c, s, n, parent, v) && |s.name.dt| % 4 == 0 && name == Written(parent, n.name, v.fullPath)
    requires forall x :: x in n.children ==> x.deleted || GoodNode(x, false, v)
    ensures NodesAt(FormOf(b, strs, v.fullPath), |s.name.dt|, LiveNodes(n.children, v), name, v.fullPath)
    ensures |s.children.dt| == NodesEnd(|s.name.dt|, LiveNodes(n.children, v), name, v.fullPath) && |s.children.dt| % 4 == 0
    decreases n, 0
  {
    SamePath(parent, n.name);
    StagesWithin(b, strs, c, s, n, parent, v);
    TreesInFormat(b, strs, s.name, n.children, JoinPath(parent, n.name), v, name);
    NodesEndFour(|s.name.dt|, LiveNodes(n.children, v), name, v.fullPath);
  }

  lemma EndInFormat(b: Bytes, strs: Bytes, c: Bufs, s: Stages, n: Node, parent: Bytes, v: Version)
    requires Staged(b, strs, c, s, n, parent, v) && |s.children.dt| % 4 == 0
    ensures TagAt(b, |s.children.dt|, 2)
  {
    EmittedCell(b, s.children.dt, END_NODE);
  }

  lemma {:induction false} StagesInFormat(b: Bytes, strs: Bytes, c: Bufs, s: Stages, n: Node, parent: Bytes, v: Version, root: bool, name: Bytes)
    requires Staged(b, strs, c, s, n, parent, v) && GoodNode(n, root, v) && name == Written(parent, n.name, v.fullPath)
    ensures Described(FormOf(b, strs, v.fullPath), |c.dt|, LiveNode(n, v), name, v.fullPath, |s.head.dt|, |s.name.dt|, |s.children.dt|)
    decreases n, 1
  {
    HeadInFormat(b, strs, c, s, n, parent, v, name);
    EntriesInFormat(b, strs, c, s, n, parent, v, root);
    ChildrenInFormat(b, strs, c, s, n, parent, v, name);
    EndInFormat(b, strs, c, s, n, parent, v);
  }

  lemma {:induction false} StagedNode(b: Bytes, strs: Bytes, c: Bufs, s: Stages, n: Node, parent: Bytes, v: Version, root: bool, name: Bytes)
    requires Staged(b, strs, c, s, n, parent, v) && GoodNode(n, root, v) && name == Written(parent, n.name, v.fullPath)
    ensures NodeAt(FormOf(b, strs, v.fullPath), |c.dt|, LiveNode(n, v), parent, v.fullPath)
    ensures |s.children.dt| + 4 == NodeEnd(|c.dt|, LiveNode(n, v), parent, v.fullPath)
    decreases n, 2
  {
    StagesInFormat(b, strs, c, s, n, parent, v, root, name);
    NodeOfParts(FormOf(b, strs, v.fullPath), |c.dt|, LiveNode(n, v), parent, v.fullPath, name, |s.head.dt|, |s.name.dt|, |s.children.dt|);
  }

  /** A node as it is written: of its live properties and children, in the form above. */
  lemma {:induction false} TreeInFormat(b: Bytes, strs: Bytes, c: Bufs, n: Node, parent: Bytes, v: Version, root: bool)
    requires Consistent(v) && |c.dt| % 4 == 0 && Fits(FlattenTree(c, n, parent, v)) && !n.deleted && GoodNode(n, root, v)
    requires Within(FlattenTree(c, n, parent, v), b, strs)
    ensures NodeAt(FormOf(b, strs, v.fullPath), |c.dt|, LiveNode(n, v), parent, v.fullPath)
    ensures |FlattenTree(c, n, parent, v).dt| == NodeEnd(|c.dt|, LiveNode(n, v), parent, v.fullPath)
    decreases n, 3
  {
    var s := StagesOf(c, n, parent, v);
    assert Staged(b, strs, c, s, n, parent, v);
    StagedNode(b, strs, c, s, n, parent, v, root, Written(parent, n.name, v.fullPath));
  }

  /** The parts of a node, each behind the one before. */
  ghost predicate Described(f: Form, pos: nat, n: Node, name: Bytes, old_: bool, props: nat, children: nat, end: nat) {
    PartsAt(f, pos, n, name, old_, props, children, end) && props == Four(pos + 4 + |name| + 1) &&
    children == PropsEnd(props, n.props, old_) && end == NodesEnd(children, n.children, name, old_)
  }

  lemma NodeOfParts(f: Form, pos: nat, n: Node, parent: Bytes, old_: bool, name: Bytes, props: nat, children: nat, end: nat)
    requires name == Written(parent, n.name, old_) && Described(f, pos, n, name, old_, props, children, end)
    ensures NodeAt(f, pos, n, parent, old_) && NodeEnd(pos, n, parent, old_) == end + 4
  {
  }

  /** Children; without full paths it does not matter what is handed down. */
  lemma {:induction false} TreesInFormat(b: Bytes, strs: Bytes, c: Bufs, ns: seq<Node>, parent: Bytes, v: Version, above: Bytes)
    requires Consistent(v) && |c.dt| % 4 == 0 && Fits(FlattenTrees(c, ns, parent, v)) && (v.fullPath ==> above == parent)
    requires (forall n :: n in ns ==> n.deleted || GoodNode(n, false, v)) && Within(FlattenTrees(c, ns, parent, v), b, strs)
    ensures NodesAt(FormOf(b, strs, v.fullPath), |c.dt|, LiveNodes(ns, v), above, v.fullPath)
    ensures |FlattenTrees(c, ns, parent, v).dt| == NodesEnd(|c.dt|, LiveNodes(ns, v), above, v.fullPath)
    decreases ns, 0
  {
    if ns != [] {
      var d := FlattenTree(c, ns[0], parent, v);
      PathIrrelevant(c, ns[0], parent, above, v);
      PathsIrrelevant(c, ns, parent, above, v);
      WithinTransitive(d, FlattenTrees(d, ns[1..], parent, v), b, strs);
      if ns[0].deleted {
        assert LiveNodes(ns, v) == LiveNodes(ns[1..], v);
      } else {
        TreeInFormat(b, strs, c, ns[0], above, v, false);
        NodeEndFour(|c.dt|, LiveNode(ns[0], v), above, v.fullPath);
        assert LiveNodes(ns, v)[0] == LiveNode(ns[0], v) && LiveNodes(ns, v)[1..] == LiveNodes(ns[1..], v);
      }
      TreesInFormat(b, strs, d, ns[1..], parent, v, above);
    }
  }

  lemma {:induction false} NodeEndFour(pos: nat, n: Node, parent: Bytes, old_: bool)
    requires pos % 4 == 0
    ensures NodeEnd(pos, n, parent, old_) % 4 == 0
    decreases n
  {
    var name := Written(parent, n.name, old_);
    NodesEndFour(PropsEnd(Four(pos + 4 + |name| + 1), n.props, old_), n.children, name, old_);
  }

  lemma {:induction false} NodesEndFour(pos: nat, ns: seq<Node>, parent: Bytes, old_: bool)
    requires pos % 4 == 0
    ensures NodesEnd(pos, ns, parent, old_) % 4 == 0
    decreases ns
  {
    if ns != [] {
      NodeEndFour(pos, ns[0], parent, old_);
      NodesEndFour(NodeEnd(pos, ns[0], parent, old_), ns[1..], parent, old_);
    }
  }

  // ----- The added name -----

  lemma {:induction false} BaseNameIs(name: Bytes, k: nat)
    requires k <= |name| && (forall i :: 0 <= i < k ==> name[i] != 64) && (k < |name| ==> name[k] == 64)
    ensures BaseNameLen(name) == k
  {
    if k > 0 { BaseNameIs(name[1..], k - 1); }
  }

  lemma {:induction false} HasNameExactly(ps: seq<Property>)
    ensures HasLiveName(ps) <==> exists p :: p in ps && !p.deleted && p.name == [110, 97, 109, 101]
  {
    if ps != [] {
      HasNameExactly(ps[1..]);
      assert ps == [ps[0]] + ps[1..];
    }
  }

  /** Before version 16 a node without a live property called name gets one: its name up to the
      first at-sign, and a NUL. */
  lemma AddedNameIs(n: Node, v: Version, k: nat)
    requires v in VERSIONS
    requires k <= |n.name| && (forall i :: 0 <= i < k ==> n.name[i] != 64) && (k < |n.name| ==> n.name[k] == 64)
    ensures
      LiveNode(n, v).props == LiveProps(n.props) +
        if v.version < 16 && !exists p :: p in n.props && !p.deleted && p.name == [110, 97, 109, 101]
        then [Property([110, 97, 109, 101], false, n.name[..k] + [0])] else []
  {
    VersionsConsistent(v);
    BaseNameIs(n.name, k);
    HasNameExactly(n.props);
  }

  // ----- What is read -----

  lemma NumberReads(b: Bytes, pos: nat)
    requires pos % 4 == 0 && pos + 4 <= |b|
    ensures ReadWord(b, pos) == Some((Number(b, pos), pos + 4))
  {
    var c := b[pos..pos + 4];
    assert c[0] == b[pos] && c[1] == b[pos + 1] && c[2] == b[pos + 2] && c[3] == b[pos + 3];
  }

  lemma TagReads(b: Bytes, pos: nat, tag: Byte)
    requires TagAt(b, pos, tag)
    ensures ReadWord(b, pos) == Some((tag as nat, pos + 4))
  {
    NumberReads(b, pos);
    var c := b[pos..pos + 4];
    assert c[0] == b[pos] && c[1] == b[pos + 1] && c[2] == b[pos + 2] && c[3] == b[pos + 3];
  }

  lemma StringReads(b: Bytes, pos: nat, s: Bytes)
    requires StringPadded(b, pos, s) && NulFree(s)
    ensures ReadString(b, pos) == Some((s, Four(pos + |s| + 1)))
  {
    forall i | pos <= i < pos + |s| ensures b[i] != 0 {
      assert b[i] == b[pos..pos + |s|][i - pos];
    }
    assert ZeroAt(b, pos + |s|);
    NulAfter(b, pos, pos + |s|);
  }

  lemma NameReads(strs: Bytes, off: nat, name: Bytes)
    requires BytesAt(strs, off, name + [0]) && NulFree(name)
    ensures ReadStringTable(strs, off) == Some(name)
  {
    var all := strs[off..off + |name| + 1];
    assert all[|name|] == 0;
    forall i | off <= i < off + |name| ensures strs[i] != 0 {
      assert strs[i] == all[i - off] == name[i - off];
    }
    NulAfter(strs, off, off + |name|);
    assert strs[off..off + |name|] == all[..|name|] == name;
  }

  lemma ValueReads(b: Bytes, start: nat, value: Bytes)
    requires BytesAt(b, start, value) && (value == [] ==> start % 4 == 0) && Four(start + |value|) <= |b|
    ensures ReadData(b, start, |value|) == Some((value, Four(start + |value|)))
  {
  }

  lemma PropHead(b: Bytes, pos: nat, strs: Bytes, p: Property, old_: bool) returns (off: nat)
    requires PropAt(b, pos, strs, p, old_)
    ensures ReadWord(b, pos) == Some((PROP, pos + 4)) && ReadWord(b, pos + 4) == Some((|p.value|, pos + 8))
    ensures ReadWord(b, pos + 8) == Some((off, pos + 12)) && BytesAt(strs, off, p.name + [0])
  {
    off := Number(b, pos + 8);
    TagReads(b, pos, 3);
    NumberReads(b, pos + 4);
    NumberReads(b, pos + 8);
  }

  lemma PropValue(b: Bytes, pos: nat, strs: Bytes, p: Property, old_: bool) returns (start: nat)
    requires PropAt(b, pos, strs, p, old_)
    ensures start == ValueStart(pos + 12, |p.value|, old_) <= |b| && PropEnd(pos, p, old_) <= |b|
    ensures ReadData(b, start, |p.value|) == Some((p.value, PropEnd(pos, p, old_)))
  {
    start := ValueStart(pos + 12, |p.value|, old_);
    ValueReads(b, start, p.value);
  }

  lemma ReadFrom(b: Bytes, pos: nat, strs: Bytes, p: Property, v: Version, off: nat, start: nat, end: nat)
    requires ReadWord(b, pos) == Some((|p.value|, pos + 4)) && ReadWord(b, pos + 4) == Some((off, pos + 8))
    requires ReadStringTable(strs, off) == Some(p.name) && start <= |b| && ReadData(b, start, |p.value|) == Some((p.value, end))
    requires start == ValueStart(pos + 8, |p.value|, v.varAlign) && !p.deleted
    ensures ReadProperty(b, pos, strs, v) == Some((p, end))
  {
    ReadPropertyParts(b, pos, strs, v, |p.value|, off, p.name, p.value, end);
  }

  lemma PropReads(b: Bytes, pos: nat, strs: Bytes, p: Property, v: Version, old_: bool)
    requires PropAt(b, pos, strs, p, old_) && !p.deleted && NulFree(p.name) && v.varAlign == old_
    ensures ReadWord(b, pos) == Some((PROP, pos + 4)) && ReadProperty(b, pos + 4, strs, v) == Some((p, PropEnd(pos, p, old_)))
    ensures PropEnd(pos, p, old_) <= |b|
  {
    var off := PropHead(b, pos, strs, p, old_);
    var start := PropValue(b, pos, strs, p, old_);
    NameReads(strs, off, p.name);
    ReadFrom(b, pos + 4, strs, p, v, off, start, PropEnd(pos, p, old_));
  }

  /** What stands in the form is read. */
  ghost predicate ReadsAs(f: Form, b: Bytes, strs: Bytes, v: Version) {
    (forall pos: nat, t: Byte {:trigger f.tag(pos, t), ReadWord(b, pos)} :: f.tag(pos, t) ==> ReadWord(b, pos) == Some((t as nat, pos + 4))) &&
    (forall pos: nat, s: Bytes {:trigger f.text(pos, s), ReadString(b, pos)} :: f.text(pos, s) && NulFree(s) ==> ReadString(b, pos) == Some((s, Four(pos + |s| + 1)))) &&
    (forall pos: nat, p: Property :: f.prop(pos, p) && !p.deleted && NulFree(p.name) ==>
       ReadWord(b, pos) == Some((PROP, pos + 4)) && PropEnd(pos, p, v.fullPath) <= |b| &&
       ReadProperty(b, pos + 4, strs, v) == Some((p, PropEnd(pos, p, v.fullPath))))
  }

  lemma FormReads(b: Bytes, strs: Bytes, v: Version)
    requires Consistent(v)
    ensures ReadsAs(FormOf(b, strs, v.fullPath), b, strs, v)
  {
    forall pos: nat, t: Byte | TagAt(b, pos, t) ensures ReadWord(b, pos) == Some((t as nat, pos + 4)) {
      TagReads(b, pos, t);
    }
    forall pos: nat, s: Bytes | StringPadded(b, pos, s) && NulFree(s) ensures ReadString(b, pos) == Some((s, Four(pos + |s| + 1))) {
      StringReads(b, pos, s);
    }
    forall pos: nat, p: Property | PropAt(b, pos, strs, p, v.fullPath) && !p.deleted && NulFree(p.name)
      ensures ReadWord(b, pos) == Some((PROP, pos + 4)) && PropEnd(pos, p, v.fullPath) <= |b|
      ensures ReadProperty(b, pos + 4, strs, v) == Some((p, PropEnd(pos, p, v.fullPath)))
    {
      PropReads(b, pos, strs, p, v, v.fullPath);
    }
  }

  /** Nothing is deleted, and names are as the format wants them. */
  predicate Plain(n: Node, root: bool, v: Version) {
    !n.deleted && GoodName(n.name, root, v) && PlainProps(n.props) && forall c :: c in n.children ==> Plain(c, false, v)
  }

  predicate PlainProps(ps: seq<Property>) {
    forall p :: p in ps ==> !p.deleted && NulFree(p.name)
  }

  /** Reading the tags from pos on is reading them from next on with more of the node known. */
  ghost predicate Goes(b: Bytes, strs: Bytes, flat: Bytes, v: Version, pos: nat, node: Node, next: nat, node': Node) {
    UnflattenBody(b, pos, strs, flat, v, node) == UnflattenBody(b, next, strs, flat, v, node')
  }

  /** A 4 is passed over, wherever a tag may stand. */
  lemma NothingRead(b: Bytes, pos: nat, strs: Bytes, flat: Bytes, v: Version, node: Node)
    requires TagAt(b, pos, 4)
    ensures Goes(b, strs, flat, v, pos, node, pos + 4, node)
  {
    TagReads(b, pos, 4);
  }

  lemma GoesOn(b: Bytes, strs: Bytes, flat: Bytes, v: Version, x: nat, l: Node, y: nat, m: Node, z: nat, n: Node)
    requires Goes(b, strs, flat, v, x, l, y, m) && Goes(b, strs, flat, v, y, m, z, n)
    ensures Goes(b, strs, flat, v, x, l, z, n)
  {
  }

  lemma PropGoes(f: Form, b: Bytes, pos: nat, strs: Bytes, p: Property, v: Version, flat: Bytes, node: Node)
    requires ReadsAs(f, b, strs, v) && f.prop(pos, p) && !p.deleted && NulFree(p.name)
    ensures Goes(b, strs, flat, v, pos, node, PropEnd(pos, p, v.fullPath), node.(props := node.props + [p]))
  {
    BodyReadsProperty(b, pos, strs, flat, v, node, p, PropEnd(pos, p, v.fullPath));
  }

  lemma FirstMoves<T>(a: seq<T>, b: seq<T>)
    requires b != []
    ensures a + [b[0]] + b[1..] == a + b
  {
  }

  lemma {:induction false} PropsRead(f: Form, b: Bytes, pos: nat, strs: Bytes, ps: seq<Property>, v: Version, flat: Bytes, node: Node)
    requires ReadsAs(f, b, strs, v) && InTurn(f.prop, pos, ps, v.fullPath) && PlainProps(ps)
    ensures Goes(b, strs, flat, v, pos, node, PropsEnd(pos, ps, v.fullPath), node.(props := node.props + ps))
    decreases |ps|
  {
    if ps == [] {
      assert node.props + ps == node.props;
    } else {
      var next, more := PropEnd(pos, ps[0], v.fullPath), node.(props := node.props + [ps[0]]);
      PropGoes(f, b, pos, strs, ps[0], v, flat, node);
      PropsRead(f, b, next, strs, ps[1..], v, flat, more);
      FirstMoves(node.props, ps);
      GoesOn(b, strs, flat, v, pos, node, next, more, PropsEnd(pos, ps, v.fullPath), node.(props := node.props + ps));
    }
  }

  lemma HeadReads(f: Form, b: Bytes, pos: nat, strs: Bytes, parent: Bytes, name: Bytes, v: Version, written: Bytes)
    requires ReadsAs(f, b, strs, v) && f.tag(pos, 1) && f.text(pos + 4, written) && NulFree(written)
    requires written == Written(parent, name, v.fullPath) && (v.fullPath ==> GoodParent(parent))
    ensures ReadWord(b, pos) == Some((BEGIN_NODE, pos + 4))
    ensures UnflattenTree(b, pos + 4, strs, parent, v) ==
            UnflattenBody(b, Four(pos + 4 + |written| + 1), strs, written, v, Node(name, false, [], []))
  {
    NameFromPath(parent, name, v);
    TreeReadsHead(b, pos + 4, strs, parent, v, written, name, Four(pos + 4 + |written| + 1));
  }

  lemma NameFromPath(parent: Bytes, name: Bytes, v: Version)
    requires v.fullPath ==> GoodParent(parent)
    ensures if v.fullPath then NodeNameFromPath(parent, Path(parent, name)) == Some(name) else Written(parent, name, false) == name
  {
    SamePath(parent, name);
    if v.fullPath { NameFromJoinedPath(parent, name); }
  }

  lemma WrittenGood(parent: Bytes, name: Bytes, v: Version, root: bool)
    requires GoodName(name, root, v) && (v.fullPath ==> GoodParent(parent) && (root <==> parent == []))
    ensures NulFree(Written(parent, name, v.fullPath))
    ensures v.fullPath ==> GoodParent(Written(parent, name, true)) && Written(parent, name, true) != []
  {
    SamePath(parent, name);
    if v.fullPath { PathIsGoodParent(parent, name, v); }
  }

  /** A node is read from its tag at pos on, and ends at end. */
  ghost predicate NodeRead(b: Bytes, pos: nat, strs: Bytes, parent: Bytes, v: Version, n: Node, end: nat) {
    ReadWord(b, pos) == Some((BEGIN_NODE, pos + 4)) && UnflattenTree(b, pos + 4, strs, parent, v) == Some((n, end))
  }

  /** What a plain node's parts are like, its written name included. */
  lemma PlainHolds(n: Node, parent: Bytes, v: Version, root: bool, name: Bytes)
    requires Plain(n, root, v) && name == Written(parent, n.name, v.fullPath)
    requires v.fullPath ==> GoodParent(parent) && (root <==> parent == [])
    ensures !n.deleted && PlainProps(n.props) && NulFree(name) && forall c :: c in n.children ==> Plain(c, false, v)
    ensures v.fullPath ==> GoodParent(name) && name != []
  {
    WrittenGood(parent, n.name, v, root);
  }

  /** What has the form of a node is read as that node. */
  lemma {:induction false} NodeReads(f: Form, b: Bytes, pos: nat, strs: Bytes, n: Node, parent: Bytes, v: Version, root: bool)
    requires ReadsAs(f, b, strs, v) && NodeAt(f, pos, n, parent, v.fullPath) && Plain(n, root, v)
    requires v.fullPath ==> GoodParent(parent) && (root <==> parent == [])
    ensures NodeRead(b, pos, strs, parent, v, n, NodeEnd(pos, n, parent, v.fullPath))
    decreases n, 3
  {
    var name, props, children, end := PartsOf(f, pos, n, parent, v.fullPath);
    PlainReads(f, b, pos, strs, n, parent, v, root, name, props, children, end);
  }

  lemma PartsOf(f: Form, pos: nat, n: Node, parent: Bytes, old_: bool) returns (name: Bytes, props: nat, children: nat, end: nat)
    requires NodeAt(f, pos, n, parent, old_)
    ensures Described(f, pos, n, name, old_, props, children, end) && NodeEnd(pos, n, parent, old_) == end + 4
    ensures name == Written(parent, n.name, old_)
  {
    name := Written(parent, n.name, old_);
    props := Four(pos + 4 + |name| + 1);
    children := PropsEnd(props, n.props, old_);
    end := NodesEnd(children, n.children, name, old_);
    NodeParts(f, pos, n, parent, old_, name, props, children, end);
  }

  lemma {:induction false} PlainReads(f: Form, b: Bytes, pos: nat, strs: Bytes, n: Node, parent: Bytes, v: Version, root: bool,
                                      name: Bytes, props: nat, children: nat, end: nat)
    requires ReadsAs(f, b, strs, v) && Described(f, pos, n, name, v.fullPath, props, children, end) && Plain(n, root, v)
    requires name == Written(parent, n.name, v.fullPath) && (v.fullPath ==> GoodParent(parent) && (root <==> parent == []))
    ensures NodeRead(b, pos, strs, parent, v, n, end + 4)
    decreases n, 2, 1
  {
    PlainHolds(n, parent, v, root, name);
    DescribedReads(f, b, pos, strs, n, parent, v, name, props, children, end);
  }

  lemma {:induction false} DescribedReads(f: Form, b: Bytes, pos: nat, strs: Bytes, n: Node, parent: Bytes, v: Version,
                                          name: Bytes, props: nat, children: nat, end: nat)
    requires ReadsAs(f, b, strs, v) && Described(f, pos, n, name, v.fullPath, props, children, end)
    requires !n.deleted && PlainProps(n.props) && (forall c :: c in n.children ==> Plain(c, false, v)) && NulFree(name)
    requires name == Written(parent, n.name, v.fullPath) && (v.fullPath ==> GoodParent(parent) && GoodParent(name) && name != [])
    ensures NodeRead(b, pos, strs, parent, v, n, end + 4)
    decreases n, 2, 0
  {
    HeadReads(f, b, pos, strs, parent, n.name, v, name);
    PartsRead(f, b, pos, strs, n, v, name, props, children, end);
  }

  lemma NodeParts(f: Form, pos: nat, n: Node, parent: Bytes, old_: bool, name: Bytes, props: nat, children: nat, end: nat)
    requires NodeAt(f, pos, n, parent, old_) && name == Written(parent, n.name, old_) && props == Four(pos + 4 + |name| + 1)
    requires children == PropsEnd(props, n.props, old_) && end == NodesEnd(children, n.children, name, old_)
    ensures Described(f, pos, n, name, old_, props, children, end) && NodeEnd(pos, n, parent, old_) == end + 4
  {
  }

  /** The rest of a node is read from pos on. */
  ghost predicate BodyRead(b: Bytes, pos: nat, strs: Bytes, flat: Bytes, v: Version, node: Node, n: Node, end: nat) {
    UnflattenBody(b, pos, strs, flat, v, node) == Some((n, end))
  }

  lemma DescribedParts(f: Form, pos: nat, n: Node, name: Bytes, old_: bool, props: nat, children: nat, end: nat)
    requires Described(f, pos, n, name, old_, props, children, end)
    ensures InTurn(f.prop, props, n.props, old_) && children == PropsEnd(props, n.props, old_)
    ensures NodesAt(f, children, n.children, name, old_) && end == NodesEnd(children, n.children, name, old_) && f.tag(end, 2)
  {
  }

  lemma {:induction false} PartsRead(f: Form, b: Bytes, pos: nat, strs: Bytes, n: Node, v: Version, name: Bytes, props: nat, children: nat, end: nat)
    requires ReadsAs(f, b, strs, v) && Described(f, pos, n, name, v.fullPath, props, children, end)
    requires !n.deleted && PlainProps(n.props) && (forall c :: c in n.children ==> Plain(c, false, v))
    requires v.fullPath ==> GoodParent(name) && name != []
    ensures BodyRead(b, props, strs, name, v, Node(n.name, false, [], []), n, end + 4)
    decreases n, 1
  {
    DescribedParts(f, pos, n, name, v.fullPath, props, children, end);
    EntriesRead(f, b, props, strs, n, v, name);
    ChildrenRead(f, b, children, strs, n, name, v);
    EndRead(f, b, strs, v, end);
    ContentsRead(b, strs, name, v, props, Node(n.name, false, [], []), children, Node(n.name, false, n.props, []), end, n);
  }

  lemma EndRead(f: Form, b: Bytes, strs: Bytes, v: Version, z: nat)
    requires ReadsAs(f, b, strs, v) && f.tag(z, 2)
    ensures ReadWord(b, z) == Some((END_NODE, z + 4))
  {
  }

  /** Properties, children and the end. */
  lemma ContentsRead(b: Bytes, strs: Bytes, flat: Bytes, v: Version, x: nat, l: Node, y: nat, m: Node, z: nat, n: Node)
    requires Goes(b, strs, flat, v, x, l, y, m) && Goes(b, strs, flat, v, y, m, z, n) && ReadWord(b, z) == Some((END_NODE, z + 4))
    ensures BodyRead(b, x, strs, flat, v, l, n, z + 4)
  {
    BodyEnds(b, z, strs, flat, v, n);
  }

  lemma EntriesRead(f: Form, b: Bytes, pos: nat, strs: Bytes, n: Node, v: Version, flat: Bytes)
    requires ReadsAs(f, b, strs, v) && InTurn(f.prop, pos, n.props, v.fullPath) && PlainProps(n.props)
    ensures Goes(b, strs, flat, v, pos, Node(n.name, false, [], []), PropsEnd(pos, n.props, v.fullPath), Node(n.name, false, n.props, []))
  {
    PropsRead(f, b, pos, strs, n.props, v, flat, Node(n.name, false, [], []));
    assert [] + n.props == n.props;
  }

  lemma {:induction false} ChildrenRead(f: Form, b: Bytes, pos: nat, strs: Bytes, n: Node, flat: Bytes, v: Version)
    requires ReadsAs(f, b, strs, v) && NodesAt(f, pos, n.children, flat, v.fullPath) && !n.deleted
    requires (forall c :: c in n.children ==> Plain(c, false, v)) && (v.fullPath ==> GoodParent(flat) && flat != [])
    ensures Goes(b, strs, flat, v, pos, Node(n.name, false, n.props, []), NodesEnd(pos, n.children, flat, v.fullPath), n)
    decreases n, 0
  {
    NodesRead(f, b, pos, strs, n.children, flat, v, Node(n.name, false, n.props, []));
    assert [] + n.children == n.children;
  }

  lemma ChildGoes(b: Bytes, pos: nat, strs: Bytes, flat: Bytes, v: Version, node: Node, c: Node, next: nat)
    requires NodeRead(b, pos, strs, flat, v, c, next)
    ensures Goes(b, strs, flat, v, pos, node, next, node.(children := node.children + [c]))
  {
    BodyReadsChild(b, pos, strs, flat, v, node, c, next);
  }

  lemma {:induction false} NodesRead(f: Form, b: Bytes, pos: nat, strs: Bytes, ns: seq<Node>, parent: Bytes, v: Version, node: Node)
    requires ReadsAs(f, b, strs, v) && NodesAt(f, pos, ns, parent, v.fullPath) && forall n :: n in ns ==> Plain(n, false, v)
    requires v.fullPath ==> GoodParent(parent) && parent != []
    ensures Goes(b, strs, parent, v, pos, node, NodesEnd(pos, ns, parent, v.fullPath), node.(children := node.children + ns))
    decreases ns, 0
  {
    if ns == [] {
      assert node.children + ns == node.children;
    } else {
      var next, more := NodeEnd(pos, ns[0], parent, v.fullPath), node.(children := node.children + [ns[0]]);
      NodeReads(f, b, pos, strs, ns[0], parent, v, false);
      ChildGoes(b, pos, strs, parent, v, node, ns[0], next);
      NodesRead(f, b, next, strs, ns[1..], parent, v, more);
      FirstMoves(node.children, ns);
      GoesOn(b, strs, parent, v, pos, node, next, more, NodesEnd(pos, ns, parent, v.fullPath), node.(children := node.children + ns));
    }
  }

  /** What has the form of a tree, byte by byte, is read as that tree. */
  lemma TreeReads(b: Bytes, pos: nat, strs: Bytes, n: Node, v: Version)
    requires Consistent(v) && NodeAt(FormOf(b, strs, v.fullPath), pos, n, [], v.fullPath) && Plain(n, true, v)
    ensures ReadWord(b, pos) == Some((BEGIN_NODE, pos + 4))
    ensures UnflattenTree(b, pos + 4, strs, [], v) == Some((n, NodeEnd(pos, n, [], v.fullPath)))
  {
    FormReads(b, strs, v);
    NodeReads(FormOf(b, strs, v.fullPath), b, pos, strs, n, [], v, true);
  }
}
