/** Reading a tree back from the structure block and the strings block.  None stands for the
    error exit of the reader. */
module DtcRead {
  import opened DtcTree
  import opened DtcWrite
  import opened Wrappers

  function ReadWord(base: Bytes, pos: nat): (r: Option<(nat, nat)>)
    ensures r.Some? ==> r.value.1 == pos + 4 <= |base|
  {
    if pos % 4 != 0 || pos + 4 > |base| then None
    else Some((CellValue(base[pos..pos + 4]), pos + 4))
  }

  function Realign(base: Bytes, pos: nat, a: nat): (r: Option<nat>)
    requires a > 0
    ensures r.Some? ==> pos <= r.value <= |base|
  {
    if Align(pos, a) > |base| then None else Some(Align(pos, a))
  }

  /** The first NUL at or behind pos. */
  function FindNul(s: Bytes, pos: nat): (r: Option<nat>)
    ensures r.Some? ==> pos <= r.value < |s| && s[r.value] == 0
    decreases |s| - pos
  {
    if pos >= |s| then None else if s[pos] == 0 then Some(pos) else FindNul(s, pos + 1)
  }

  function ReadString(base: Bytes, pos: nat): (r: Option<(Bytes, nat)>)
    ensures r.Some? ==> pos < r.value.1 <= |base|
  {
    var nul := FindNul(base, pos);
    if nul.None? then None
    else
      var next := Realign(base, nul.value + 1, 4);
      if next.None? then None else Some((base[pos..nul.value], next.value))
  }

  function ReadData(base: Bytes, pos: nat, len: nat): (r: Option<(Bytes, nat)>)
    ensures r.Some? && pos <= |base| ==> pos <= r.value.1 <= |base|
  {
    if len == 0 then Some(([], pos))
    else if pos + len > |base| then None
    else
      var next := Realign(base, pos + len, 4);
      if next.None? then None else Some((base[pos..pos + len], next.value))
  }

  function ReadStringTable(strs: Bytes, offset: nat): Option<Bytes> {
    var nul := FindNul(strs, offset);
    if nul.None? then None else Some(strs[offset..nul.value])
  }

  function ReadProperty(base: Bytes, pos: nat, strs: Bytes, v: Version): (r: Option<(Property, nat)>)
    ensures r.Some? ==> pos < r.value.1 <= |base|
  {
    var len := ReadWord(base, pos);
    if len.None? then None
    else
      var off := ReadWord(base, len.value.1);
      if off.None? then None
      else
        var name := ReadStringTable(strs, off.value.0);
        if name.None? then None
        else
          var start := if v.varAlign && len.value.0 >= 8 then Realign(base, off.value.1, 8) else Some(off.value.1);
          if start.None? then None
          else
            var value := ReadData(base, start.value, len.value.0);
            if value.None? then None
            else Some((Property(name.value, false, value.value.0), value.value.1))
  }

  /** A node whose opening tag has been read. */
  function UnflattenTree(base: Bytes, pos: nat, strs: Bytes, parent: Bytes, v: Version): (r: Option<(Node, nat)>)
    ensures r.Some? ==> pos < r.value.1 <= |base|
    decreases |base| - pos, 1
  {
    var flat := ReadString(base, pos);
    if flat.None? then None
    else
      var name := if v.fullPath then NodeNameFromPath(parent, flat.value.0) else Some(flat.value.0);
      if name.None? then None
      else UnflattenBody(base, flat.value.1, strs, flat.value.0, v, Node(name.value, false, [], []))
  }

  /** The tags up to the end of the node. */
  function UnflattenBody(base: Bytes, pos: nat, strs: Bytes, flat: Bytes, v: Version, node: Node): (r: Option<(Node, nat)>)
    ensures r.Some? ==> pos < r.value.1 <= |base|
    decreases |base| - pos, 0
  {
    var tag := ReadWord(base, pos);
    if tag.None? then None
    else if tag.value.0 == PROP then
      var p := ReadProperty(base, tag.value.1, strs, v);
      if p.None? then None
      else UnflattenBody(base, p.value.1, strs, flat, v, node.(props := node.props + [p.value.0]))
    else if tag.value.0 == BEGIN_NODE then
      var c := UnflattenTree(base, tag.value.1, strs, flat, v);
      if c.None? then None
      else UnflattenBody(base, c.value.1, strs, flat, v, node.(children := node.children + [c.value.0]))
    else if tag.value.0 == END_NODE then Some((node, tag.value.1))
    else if tag.value.0 == NOP then UnflattenBody(base, tag.value.1, strs, flat, v, node)
    else None
  }

  // ----- What was written is read -----

  lemma PrefixTransitive(a: Bytes, b: Bytes, c: Bytes)
    requires a <= b <= c
    ensures a <= c
  {
  }

  lemma SliceOfPrefix(a: Bytes, b: Bytes, i: nat, j: nat)
    requires a <= b && i <= j <= |a|
    ensures a[i..j] == b[i..j]
  {
  }

  lemma ReadCell(base: Bytes, dt: Bytes, n: nat)
    requires EmitCell(dt, n) <= base && |dt| % 4 == 0 && n < CELLS
    ensures ReadWord(base, |dt|) == Some((n, |dt| + 4))
  {
    SliceOfPrefix(EmitCell(dt, n), base, |dt|, |dt| + 4);
    assert EmitCell(dt, n)[|dt|..|dt| + 4] == Cell(n);
    CellRoundTrip(n);
  }

  lemma {:induction false} NulAfter(s: Bytes, pos: nat, end: nat)
    requires pos <= end < |s| && s[end] == 0 && forall i :: pos <= i < end ==> s[i] != 0
    ensures FindNul(s, pos) == Some(end)
    decreases end - pos
  {
    if pos < end { NulAfter(s, pos + 1, end); }
  }

  lemma ReadWrittenString(base: Bytes, dt: Bytes, s: Bytes)
    requires NulFree(s) && EmitAlign(EmitString(dt, s, 0), 4) <= base
    ensures ReadString(base, |dt|) == Some((s, |EmitAlign(EmitString(dt, s, 0), 4)|))
  {
    var w := EmitString(dt, s, 0);
    var all := EmitAlign(w, 4);
    SliceOfPrefix(all, base, |dt|, |dt| + |s|);
    assert all[|dt|..|dt| + |s|] == s;
    assert base[|dt| + |s|] == all[|dt| + |s|] == 0;
    forall i | |dt| <= i < |dt| + |s| ensures base[i] != 0 {
      assert base[i] == all[i] == s[i - |dt|];
    }
    NulAfter(base, |dt|, |dt| + |s|);
  }

  lemma ReadNameAt(strs: Bytes, i: nat, s: Bytes)
    requires NulFree(s) && StringAt(strs, i, s)
    ensures ReadStringTable(strs, i) == Some(s)
  {
    forall j | i <= j < i + |s| ensures strs[j] != 0 {
      assert strs[j] == strs[i..i + |s|][j - i];
    }
    NulAfter(strs, i, i + |s|);
  }

  lemma ReadWrittenValue(base: Bytes, dt: Bytes, value: Bytes, v: Version)
    requires |dt| % 4 == 0 && EmitValue(dt, value, v) <= base
    ensures |EmitValue(dt, value, v)| % 4 == 0
    ensures
      var start := if v.varAlign && |value| >= 8 then Align(|dt|, 8) else |dt|;
      start <= |base| && ReadData(base, start, |value|) == Some((value, |EmitValue(dt, value, v)|))
  {
    var aligned := AlignForValue(dt, |value|, v);
    var all := EmitAlign(aligned + value, 4);
    SliceOfPrefix(all, base, |aligned|, |aligned| + |value|);
    assert all[|aligned|..|aligned| + |value|] == value;
  }

  lemma ReadThreeCells(base: Bytes, dt: Bytes, x: nat, y: nat, z: nat)
    requires |dt| % 4 == 0 && x < CELLS && y < CELLS && z < CELLS
    requires EmitCell(EmitCell(EmitCell(dt, x), y), z) <= base
    ensures ReadWord(base, |dt|) == Some((x, |dt| + 4))
    ensures ReadWord(base, |dt| + 4) == Some((y, |dt| + 8))
    ensures ReadWord(base, |dt| + 8) == Some((z, |dt| + 12))
  {
    var d1, d2 := EmitCell(dt, x), EmitCell(EmitCell(dt, x), y);
    var d3 := EmitCell(d2, z);
    PrefixTransitive(d2, d3, base);
    PrefixTransitive(d1, d2, base);
    ReadCell(base, dt, x);
    ReadCell(base, d1, y);
    ReadCell(base, d2, z);
  }

  lemma ReadPropertyParts(base: Bytes, pos: nat, strs: Bytes, v: Version, len: nat, off: nat, name: Bytes, value: Bytes, next: nat)
    requires ReadWord(base, pos) == Some((len, pos + 4)) && ReadWord(base, pos + 4) == Some((off, pos + 8))
    requires ReadStringTable(strs, off) == Some(name)
    requires
      var start := if v.varAlign && len >= 8 then Align(pos + 8, 8) else pos + 8;
      start <= |base| && ReadData(base, start, len) == Some((value, next))
    ensures ReadProperty(base, pos, strs, v) == Some((Property(name, false, value), next))
  {
  }

  /** A property as it was written, for any name and value. */
  lemma ReadWrittenProperty(base: Bytes, strs: Bytes, dt: Bytes, off: nat, name: Bytes, value: Bytes, v: Version)
    requires |dt| % 4 == 0 && NulFree(name) && |value| < CELLS && off < CELLS
    requires EmitValue(EmitPropHeader(dt, |value|, off), value, v) <= base && StringAt(strs, off, name)
    ensures
      var r := EmitValue(EmitPropHeader(dt, |value|, off), value, v);
      |r| % 4 == 0 && ReadWord(base, |dt|) == Some((PROP, |dt| + 4)) &&
      ReadProperty(base, |dt| + 4, strs, v) == Some((Property(name, false, value), |r|))
  {
    var header := EmitPropHeader(dt, |value|, off);
    var r := EmitValue(header, value, v);
    PrefixTransitive(header, r, base);
    ReadThreeCells(base, dt, PROP, |value|, off);
    ReadNameAt(strs, off, name);
    ReadWrittenValue(base, header, value, v);
    ReadPropertyParts(base, |dt| + 4, strs, v, |value|, off, name, value, |r|);
  }

  lemma NameString(dt: Bytes, name: Bytes)
    requires name == [] || name[0] != AT
    ensures EmitString(dt, name, BaseNameLen(name)) == dt + NameProp(name).value
    ensures |NameProp(name).value| == BaseNameLen(name) + 1
  {
  }

  lemma NameValue(dt: Bytes, name: Bytes, v: Version)
    requires name == [] || name[0] != AT
    ensures EmitNameValue(dt, name, v) == EmitValue(dt, NameProp(name).value, v)
  {
    NameString(AlignForValue(dt, BaseNameLen(name) + 1, v), name);
  }

  lemma PropertyParts(b: Bufs, name: Bytes, value: Bytes, v: Version, dt: Bytes, off: nat)
    requires off == StringTableOffset(b.str, name) && dt == EmitValue(EmitPropHeader(b.dt, |value|, off), value, v)
    ensures EmitProperty(b, name, value, v) == Bufs(dt, StringTableInsert(b.str, name))
  {
  }

  /** The name property is an ordinary property once its length is right. */
  lemma NamePropIsProperty(b: Bufs, n: Node, v: Version)
    requires v.nameProps && !HasLiveName(n.props) && (n.name == [] || n.name[0] != AT)
    ensures EmitNameProp(b, n, v) == EmitProperty(b, NAME, NameProp(n.name).value, v)
  {
    var off := StringTableOffset(b.str, NAME);
    var dt := EmitNameValue(EmitPropHeader(b.dt, BaseNameLen(n.name) + 1, off), n.name, v);
    NameString([], n.name);
    NameValue(EmitPropHeader(b.dt, BaseNameLen(n.name) + 1, off), n.name, v);
    PropertyParts(b, NAME, NameProp(n.name).value, v, dt, off);
  }

  // ----- The round trip -----

  /** Everything fits 32-bit offsets. */
  predicate Fits(b: Bufs) {
    |b.dt| < CELLS && |b.str| < CELLS
  }

  lemma BodyReadsProperty(base: Bytes, pos: nat, strs: Bytes, flat: Bytes, v: Version, node: Node, p: Property, next: nat)
    requires ReadWord(base, pos) == Some((PROP, pos + 4)) && next <= |base|
    requires ReadProperty(base, pos + 4, strs, v) == Some((p, next))
    ensures UnflattenBody(base, pos, strs, flat, v, node) ==
            UnflattenBody(base, next, strs, flat, v, node.(props := node.props + [p]))
  {
  }

  lemma BodyReadsChild(base: Bytes, pos: nat, strs: Bytes, flat: Bytes, v: Version, node: Node, c: Node, next: nat)
    requires ReadWord(base, pos) == Some((BEGIN_NODE, pos + 4))
    requires UnflattenTree(base, pos + 4, strs, flat, v) == Some((c, next))
    ensures UnflattenBody(base, pos, strs, flat, v, node) ==
            UnflattenBody(base, next, strs, flat, v, node.(children := node.children + [c]))
  {
  }

  lemma BodyEnds(base: Bytes, pos: nat, strs: Bytes, flat: Bytes, v: Version, node: Node)
    requires ReadWord(base, pos) == Some((END_NODE, pos + 4))
    ensures UnflattenBody(base, pos, strs, flat, v, node) == Some((node, pos + 4))
  {
  }

  lemma TreeReadsHead(base: Bytes, pos: nat, strs: Bytes, parent: Bytes, v: Version, flat: Bytes, name: Bytes, next: nat)
    requires ReadString(base, pos) == Some((flat, next))
    requires if v.fullPath then NodeNameFromPath(parent, flat) == Some(name) else name == flat
    ensures UnflattenTree(base, pos, strs, parent, v) == UnflattenBody(base, next, strs, flat, v, Node(name, false, [], []))
  {
  }

  /** Reading the tags from position |b.dt| on continues at |r.dt| with the node extended. */
  ghost predicate Continues(base: Bytes, strs: Bytes, flat: Bytes, v: Version, b: Bufs, node: Node, r: Bufs, node': Node) {
    |r.dt| % 4 == 0 &&
    UnflattenBody(base, |b.dt|, strs, flat, v, node) == UnflattenBody(base, |r.dt|, strs, flat, v, node')
  }

  /** The buffers are the beginnings of the finished blocks. */
  ghost predicate Within(b: Bufs, base: Bytes, strs: Bytes) {
    b.dt <= base && b.str <= strs
  }

  lemma WithinTransitive(b: Bufs, c: Bufs, base: Bytes, strs: Bytes)
    requires b.dt <= c.dt && b.str <= c.str && Within(c, base, strs)
    ensures Within(b, base, strs)
  {
  }

  lemma PropRoundTrip(base: Bytes, strs: Bytes, b: Bufs, p: Property, v: Version, flat: Bytes, node: Node)
    requires |b.dt| % 4 == 0 && Fits(EmitProperty(b, p.name, p.value, v))
    requires GoodProp(p) && !p.deleted
    requires Within(EmitProperty(b, p.name, p.value, v), base, strs)
    ensures Continues(base, strs, flat, v, b, node, EmitProperty(b, p.name, p.value, v), node.(props := node.props + [p]))
  {
    var off := StringTableOffset(b.str, p.name);
    StringStays(StringTableInsert(b.str, p.name), strs, off, p.name);
    ReadWrittenProperty(base, strs, b.dt, off, p.name, p.value, v);
    BodyReadsProperty(base, |b.dt|, strs, flat, v, node, p, |EmitProperty(b, p.name, p.value, v).dt|);
  }

  lemma {:induction false} PropsRoundTrip(base: Bytes, strs: Bytes, b: Bufs, props: seq<Property>, v: Version, flat: Bytes, node: Node)
    requires |b.dt| % 4 == 0 && Fits(EmitProps(b, props, v))
    requires forall p :: p in props ==> GoodProp(p)
    requires Within(EmitProps(b, props, v), base, strs)
    ensures Continues(base, strs, flat, v, b, node, EmitProps(b, props, v), node.(props := node.props + LiveProps(props)))
    decreases |props|
  {
    if props == [] {
      assert node.props + LiveProps(props) == node.props;
    } else {
      var p := props[0];
      var c := if p.deleted then b else EmitProperty(b, p.name, p.value, v);
      var node' := if p.deleted then node else node.(props := node.props + [p]);
      WithinTransitive(c, EmitProps(c, props[1..], v), base, strs);
      if !p.deleted { PropRoundTrip(base, strs, b, p, v, flat, node); }
      PropsRoundTrip(base, strs, c, props[1..], v, flat, node');
      LivePropsStep(node.props, props);
    }
  }

  lemma LivePropsStep(done: seq<Property>, props: seq<Property>)
    requires props != []
    ensures (if props[0].deleted then done else done + [props[0]]) + LiveProps(props[1..]) == done + LiveProps(props)
  {
  }

  function AddedName(n: Node, v: Version): seq<Property> {
    if v.nameProps && !HasLiveName(n.props) then [NameProp(n.name)] else []
  }

  lemma NamePropRoundTrip(base: Bytes, strs: Bytes, b: Bufs, n: Node, root: bool, v: Version, flat: Bytes, node: Node)
    requires |b.dt| % 4 == 0 && Fits(EmitNameProp(b, n, v)) && Consistent(v) && GoodName(n.name, root, v) && |n.name| + 1 < CELLS
    requires Within(EmitNameProp(b, n, v), base, strs)
    ensures Continues(base, strs, flat, v, b, node, EmitNameProp(b, n, v), node.(props := node.props + AddedName(n, v)))
  {
    if v.nameProps && !HasLiveName(n.props) {
      NamePropIsProperty(b, n, v);
      PropRoundTrip(base, strs, b, NameProp(n.name), v, flat, node);
    } else {
      assert node.props + [] == node.props;
    }
  }

  predicate GoodParent(parent: Bytes) {
    NulFree(parent) && (parent == [] || parent == [SLASH] || parent[|parent| - 1] != SLASH)
  }

  lemma PathIsGoodParent(parent: Bytes, name: Bytes, v: Version)
    requires v.fullPath && GoodParent(parent) && GoodName(name, parent == [], v)
    ensures GoodParent(JoinPath(parent, name)) && JoinPath(parent, name) != []
  {
    var path := JoinPath(parent, name);
    if name == [] {
      assert path == [SLASH];
    } else {
      assert path[|path| - 1] == name[|name| - 1];
    }
  }

  /** The opening tag and the name. */
  function Head(dt: Bytes, written: Bytes): (r: Bytes)
    ensures dt <= r && |r| % 4 == 0
  {
    EmitAlign(EmitString(EmitCell(dt, BEGIN_NODE), written, 0), 4)
  }

  lemma HeadRoundTrip(base: Bytes, strs: Bytes, dt: Bytes, parent: Bytes, name: Bytes, v: Version)
    requires |dt| % 4 == 0 && GoodParent(parent) && NulFree(name)
    requires
      var written := if v.fullPath then JoinPath(parent, name) else name;
      Head(dt, written) <= base
    ensures
      var written := if v.fullPath then JoinPath(parent, name) else name;
      ReadWord(base, |dt|) == Some((BEGIN_NODE, |dt| + 4)) &&
      UnflattenTree(base, |dt| + 4, strs, parent, v) ==
      UnflattenBody(base, |Head(dt, written)|, strs, written, v, Node(name, false, [], []))
  {
    var written := if v.fullPath then JoinPath(parent, name) else name;
    var d0 := EmitCell(dt, BEGIN_NODE);
    PrefixTransitive(d0, Head(dt, written), base);
    ReadCell(base, dt, BEGIN_NODE);
    ReadWrittenString(base, d0, written);
    NameFromJoinedPath(parent, name);
    TreeReadsHead(base, |dt| + 4, strs, parent, v, written, name, |Head(dt, written)|);
  }

  lemma EndRoundTrip(base: Bytes, strs: Bytes, dt: Bytes, flat: Bytes, v: Version, node: Node)
    requires |dt| % 4 == 0 && EmitCell(dt, END_NODE) <= base
    ensures |EmitCell(dt, END_NODE)| % 4 == 0
    ensures UnflattenBody(base, |dt|, strs, flat, v, node) == Some((node, |EmitCell(dt, END_NODE)|))
  {
    ReadCell(base, dt, END_NODE);
    BodyEnds(base, |dt|, strs, flat, v, node);
  }

  /** The buffers after the head, the properties, the name property and the children. */
  datatype Stages = Stages(head: Bufs, props: Bufs, name: Bufs, children: Bufs)

  function StagesOf(b: Bufs, n: Node, parent: Bytes, v: Version): (s: Stages)
    ensures s.head.dt <= s.props.dt <= s.name.dt <= s.children.dt
    ensures s.head.str <= s.props.str <= s.name.str <= s.children.str
    ensures !n.deleted ==> FlattenTree(b, n, parent, v) == Bufs(EmitCell(s.children.dt, END_NODE), s.children.str)
  {
    var path := JoinPath(parent, n.name);
    var head := Bufs(Head(b.dt, if v.fullPath then path else n.name), b.str);
    var props := EmitProps(head, n.props, v);
    var name := EmitNameProp(props, n, v);
    Stages(head, props, name, FlattenTrees(name, n.children, path, v))
  }

  /** Reading back one live node gives its live part. */
  lemma {:induction false} TreeRoundTrip(base: Bytes, strs: Bytes, b: Bufs, n: Node, parent: Bytes, v: Version)
    requires Consistent(v) && |b.dt| % 4 == 0 && Fits(FlattenTree(b, n, parent, v))
    requires !n.deleted && GoodNode(n, parent == [], v) && GoodParent(parent)
    requires Within(FlattenTree(b, n, parent, v), base, strs)
    ensures |FlattenTree(b, n, parent, v).dt| % 4 == 0
    ensures ReadWord(base, |b.dt|) == Some((BEGIN_NODE, |b.dt| + 4))
    ensures UnflattenTree(base, |b.dt| + 4, strs, parent, v) == Some((LiveNode(n, v), |FlattenTree(b, n, parent, v).dt|))
    decreases n, 1
  {
    var s := StagesOf(b, n, parent, v);
    WithinTransitive(s.children, FlattenTree(b, n, parent, v), base, strs);
    PrefixTransitive(s.head.dt, s.children.dt, base);
    HeadRoundTrip(base, strs, b.dt, parent, n.name, v);
    ContentsRoundTrip(base, strs, b, s, n, parent, v);
    EndRoundTrip(base, strs, s.children.dt, if v.fullPath then JoinPath(parent, n.name) else n.name, v, LiveNode(n, v));
  }

  lemma {:induction false} ContentsRoundTrip(base: Bytes, strs: Bytes, b: Bufs, s: Stages, n: Node, parent: Bytes, v: Version)
    requires Consistent(v) && s == StagesOf(b, n, parent, v) && Fits(s.children)
    requires !n.deleted && GoodNode(n, parent == [], v) && GoodParent(parent)
    requires Within(s.children, base, strs)
    ensures Continues(base, strs, if v.fullPath then JoinPath(parent, n.name) else n.name, v,
                      s.head, Node(n.name, false, [], []), s.children, LiveNode(n, v))
    decreases n, 0
  {
    var path := JoinPath(parent, n.name);
    var written := if v.fullPath then path else n.name;
    var node0 := Node(n.name, false, [], []);
    WithinTransitive(s.name, s.children, base, strs);
    WithinTransitive(s.props, s.name, base, strs);
    PropsRoundTrip(base, strs, s.head, n.props, v, written, node0);
    assert [] + LiveProps(n.props) == LiveProps(n.props);
    var node1 := node0.(props := LiveProps(n.props));
    NamePropRoundTrip(base, strs, s.props, n, parent == [], v, written, node1);
    if v.fullPath { PathIsGoodParent(parent, n.name, v); }
    var node2 := node1.(props := node1.props + AddedName(n, v));
    TreesRoundTrip(base, strs, s.name, n.children, path, v, written, node2);
    assert [] + LiveNodes(n.children, v) == LiveNodes(n.children, v);
  }

  /** One child.  Without full paths the reader hands down a name where the writer hands down a
      path, and neither looks at it. */
  lemma {:induction false} ChildRoundTrip(base: Bytes, strs: Bytes, b: Bufs, n: Node, parent: Bytes, v: Version, flat: Bytes, node: Node)
    requires Consistent(v) && |b.dt| % 4 == 0 && Fits(FlattenTree(b, n, parent, v))
    requires !n.deleted && GoodNode(n, false, v)
    requires v.fullPath ==> flat == parent && GoodParent(parent) && parent != []
    requires Within(FlattenTree(b, n, parent, v), base, strs)
    ensures Continues(base, strs, flat, v, b, node, FlattenTree(b, n, parent, v), node.(children := node.children + [LiveNode(n, v)]))
    decreases n, 2
  {
    var above := if v.fullPath then parent else [SLASH];
    PathIrrelevant(b, n, parent, above, v);
    ParentIrrelevant(base, |b.dt| + 4, strs, above, flat, v);
    TreeRoundTrip(base, strs, b, n, above, v);
    BodyReadsChild(base, |b.dt|, strs, flat, v, node, LiveNode(n, v), |FlattenTree(b, n, parent, v).dt|);
  }

  lemma {:induction false} TreesRoundTrip(base: Bytes, strs: Bytes, b: Bufs, ns: seq<Node>, parent: Bytes, v: Version, flat: Bytes, node: Node)
    requires Consistent(v) && |b.dt| % 4 == 0 && Fits(FlattenTrees(b, ns, parent, v))
    requires forall n :: n in ns ==> n.deleted || GoodNode(n, false, v)
    requires v.fullPath ==> flat == parent && GoodParent(parent) && parent != []
    requires Within(FlattenTrees(b, ns, parent, v), base, strs)
    ensures Continues(base, strs, flat, v, b, node, FlattenTrees(b, ns, parent, v), node.(children := node.children + LiveNodes(ns, v)))
    decreases ns, 0
  {
    if ns == [] {
      assert node.children + LiveNodes(ns, v) == node.children;
    } else {
      var n := ns[0];
      var c := FlattenTree(b, n, parent, v);
      var node' := if n.deleted then node else node.(children := node.children + [LiveNode(n, v)]);
      WithinTransitive(c, FlattenTrees(c, ns[1..], parent, v), base, strs);
      if !n.deleted { ChildRoundTrip(base, strs, b, n, parent, v, flat, node); }
      TreesRoundTrip(base, strs, c, ns[1..], parent, v, flat, node');
      LiveNodesStep(node.children, ns, v);
    }
  }

  lemma LiveNodesStep(done: seq<Node>, ns: seq<Node>, v: Version)
    requires ns != []
    ensures (if ns[0].deleted then done else done + [LiveNode(ns[0], v)]) + LiveNodes(ns[1..], v) == done + LiveNodes(ns, v)
  {
  }

  lemma {:induction false} PathIrrelevant(b: Bufs, n: Node, p: Bytes, q: Bytes, v: Version)
    requires v.fullPath ==> p == q
    ensures FlattenTree(b, n, p, v) == FlattenTree(b, n, q, v)
    decreases n
  {
    if !v.fullPath && !n.deleted {
      var head := Head(b.dt, n.name);
      var c := EmitNameProp(EmitProps(Bufs(head, b.str), n.props, v), n, v);
      PathsIrrelevant(c, n.children, JoinPath(p, n.name), JoinPath(q, n.name), v);
    }
  }

  lemma {:induction false} PathsIrrelevant(b: Bufs, ns: seq<Node>, p: Bytes, q: Bytes, v: Version)
    requires v.fullPath ==> p == q
    ensures FlattenTrees(b, ns, p, v) == FlattenTrees(b, ns, q, v)
    decreases ns
  {
    if ns != [] {
      PathIrrelevant(b, ns[0], p, q, v);
      PathsIrrelevant(FlattenTree(b, ns[0], p, v), ns[1..], p, q, v);
    }
  }

  lemma ParentIrrelevant(base: Bytes, pos: nat, strs: Bytes, p: Bytes, q: Bytes, v: Version)
    requires v.fullPath ==> p == q
    ensures UnflattenTree(base, pos, strs, p, v) == UnflattenTree(base, pos, strs, q, v)
  {
  }
}
