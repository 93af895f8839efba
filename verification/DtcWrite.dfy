/** Writing a tree: the structure block and the table of property names. */
module DtcWrite {
  import opened DtcTree

  const BEGIN_NODE: nat := 1
  const END_NODE: nat := 2
  const PROP: nat := 3
  const NOP: nat := 4
  const END: nat := 9

  /** The two buffers being filled. */
  datatype Bufs = Bufs(dt: Bytes, str: Bytes)

  function EmitCell(dt: Bytes, v: nat): Bytes {
    dt + Cell(v)
  }

  function EmitAlign(dt: Bytes, a: nat): (r: Bytes)
    requires a > 0
    ensures dt <= r && |r| == Align(|dt|, a)
  {
    dt + Zeroes(Align(|dt|, a) - |dt|)
  }

  /** The first len bytes of a string and a NUL; a length of 0 asks for all of it. */
  function EmitString(dt: Bytes, s: Bytes, len: nat): Bytes
    requires len <= |s|
  {
    dt + (if len == 0 then s else s[..len]) + [0]
  }

  // ----- The table of names -----

  /** The string at offset i of the table is s. */
  predicate StringAt(table: Bytes, i: int, s: Bytes) {
    0 <= i && i + |s| < |table| && table[i..i + |s|] == s && table[i + |s|] == 0
  }

  function FindString(table: Bytes, s: Bytes, from: nat): (i: nat)
    requires from <= |table|
    ensures from <= i <= |table|
    ensures i < |table| ==> StringAt(table, i, s)
    ensures forall j :: from <= j < i ==> !StringAt(table, j, s)
    decreases |table| - from
  {
    if from == |table| || StringAt(table, from, s) then from else FindString(table, s, from + 1)
  }

  /** The offset of a string, which may be the tail of another one, or its place at the end. */
  function StringTableOffset(table: Bytes, s: Bytes): (i: nat)
    ensures i <= |table|
  {
    FindString(table, s, 0)
  }

  function StringTableInsert(table: Bytes, s: Bytes): (r: Bytes)
    ensures table <= r
    ensures StringAt(r, StringTableOffset(table, s), s)
  {
    var i := StringTableOffset(table, s);
    if i < |table| then table
    else
      var r := table + s + [0];
      assert r[|table|..|table| + |s|] == s;
      r
  }

  /** What was found once stays found however the table grows. */
  lemma StringStays(table: Bytes, more: Bytes, i: nat, s: Bytes)
    requires StringAt(table, i, s) && table <= more
    ensures StringAt(more, i, s)
  {
    assert more[i..i + |s|] == table[i..i + |s|];
  }

  // ----- Nodes -----

  /** The tag, the length and the name offset of a property. */
  function EmitPropHeader(dt: Bytes, len: nat, off: nat): (r: Bytes)
    ensures dt <= r && |r| == |dt| + 12
  {
    EmitCell(EmitCell(EmitCell(dt, PROP), len), off)
  }

  /** Old versions align longer values to 8 bytes. */
  function AlignForValue(dt: Bytes, len: nat, v: Version): (r: Bytes)
    ensures dt <= r
  {
    if v.varAlign && len >= 8 then EmitAlign(dt, 8) else dt
  }

  function EmitValue(dt: Bytes, value: Bytes, v: Version): (r: Bytes)
    ensures dt <= r
  {
    EmitAlign(AlignForValue(dt, |value|, v) + value, 4)
  }

  function EmitProperty(b: Bufs, name: Bytes, value: Bytes, v: Version): (r: Bufs)
    ensures b.dt <= r.dt && b.str <= r.str
  {
    var dt := EmitPropHeader(b.dt, |value|, StringTableOffset(b.str, name));
    Bufs(EmitValue(dt, value, v), StringTableInsert(b.str, name))
  }

  function EmitProps(b: Bufs, props: seq<Property>, v: Version): (r: Bufs)
    ensures b.dt <= r.dt && b.str <= r.str
    decreases |props|
  {
    if props == [] then b
    else
      var c := if props[0].deleted then b else EmitProperty(b, props[0].name, props[0].value, v);
      EmitProps(c, props[1..], v)
  }

  /** The bytes of a name property: its length is that of the base name, its content is what
      EmitString makes of it. */
  function EmitNameValue(dt: Bytes, name: Bytes, v: Version): (r: Bytes)
    ensures dt <= r
  {
    var len := BaseNameLen(name);
    EmitAlign(EmitString(AlignForValue(dt, len + 1, v), name, len), 4)
  }

  /** Old versions get a name property where the tree has none. */
  function EmitNameProp(b: Bufs, n: Node, v: Version): (r: Bufs)
    ensures b.dt <= r.dt && b.str <= r.str
  {
    if !v.nameProps || HasLiveName(n.props) then b
    else
      var dt := EmitPropHeader(b.dt, BaseNameLen(n.name) + 1, StringTableOffset(b.str, NAME));
      Bufs(EmitNameValue(dt, n.name, v), StringTableInsert(b.str, NAME))
  }

  function FlattenTree(b: Bufs, n: Node, parent: Bytes, v: Version): (r: Bufs)
    ensures b.dt <= r.dt && b.str <= r.str
    decreases n
  {
    if n.deleted then b
    else
      var path := JoinPath(parent, n.name);
      var head := EmitAlign(EmitString(EmitCell(b.dt, BEGIN_NODE), if v.fullPath then path else n.name, 0), 4);
      var c := EmitNameProp(EmitProps(Bufs(head, b.str), n.props, v), n, v);
      var d := FlattenTrees(c, n.children, path, v);
      Bufs(EmitCell(d.dt, END_NODE), d.str)
  }

  function FlattenTrees(b: Bufs, ns: seq<Node>, parent: Bytes, v: Version): (r: Bufs)
    ensures b.dt <= r.dt && b.str <= r.str
    decreases ns
  {
    if ns == [] then b else FlattenTrees(FlattenTree(b, ns[0], parent, v), ns[1..], parent, v)
  }

  /** The bytes of the name property agree with its length exactly when the name has a base
      name or is empty. */
  lemma NamePropLength(name: Bytes)
    ensures |EmitString([], name, BaseNameLen(name))| == BaseNameLen(name) + 1 <==>
            name == [] || name[0] != AT
  {
  }
}
