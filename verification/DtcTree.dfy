/** Device trees as the compiler holds them, and the byte-level building blocks of a blob. */
module DtcTree {
  import opened Wrappers

  type Byte = x: int | 0 <= x < 256
  type Bytes = seq<Byte>

  // ----- Cells and alignment -----

  const CELLS: nat := 0x1_0000_0000

  /** A 32-bit word, most significant byte first. */
  function Cell(v: nat): (c: Bytes)
    ensures |c| == 4
  {
    var a := v / 256;
    var b := a / 256;
    [b / 256 % 256, b % 256, a % 256, v % 256]
  }

  function CellValue(c: Bytes): (v: nat)
    requires |c| == 4
    ensures v < CELLS
  {
    var a: int, b: int, d: int, e: int := c[0], c[1], c[2], c[3];
    ((a * 256 + b) * 256 + d) * 256 + e
  }

  lemma CellRoundTrip(v: nat)
    requires v < CELLS
    ensures CellValue(Cell(v)) == v
  {
  }

  function Zeroes(n: nat): (z: Bytes)
    ensures |z| == n
  {
    seq(n, _ => 0)
  }

  /** The next multiple of a, which is a power of two in every use. */
  function Align(x: nat, a: nat): (r: nat)
    requires a > 0
    ensures x <= r < x + a
    ensures (a == 4 ==> r % 4 == 0) && (a == 8 ==> r % 8 == 0)
  {
    if x % a == 0 then x else x + (a - x % a)
  }

  // ----- Trees -----

  datatype Property = Property(name: Bytes, deleted: bool, value: Bytes)

  datatype Node = Node(name: Bytes, deleted: bool, props: seq<Property>, children: seq<Node>)

  const SLASH: Byte := 47
  const AT: Byte := 64

  /** The number of bytes before the first at-sign. */
  function BaseNameLen(name: Bytes): (n: nat)
    ensures n <= |name|
  {
    if name == [] || name[0] == AT then 0 else 1 + BaseNameLen(name[1..])
  }

  function JoinPath(path: Bytes, name: Bytes): Bytes {
    if path != [] && path[|path| - 1] == SLASH then path + name else path + [SLASH] + name
  }

  /** The name of a node from its full path and its parent's; a path that does not go on
      behind the parent's is rejected. */
  function NodeNameFromPath(parent: Bytes, path: Bytes): Option<Bytes> {
    if !(parent <= path) then None
    else
      var n := if parent == [SLASH] then |parent| else |parent| + 1;
      if n <= |path| then Some(path[n..]) else None
  }

  /** Full paths give the name back unless the parent's path ends in a slash without being
      the root's. */
  lemma NameFromJoinedPath(parent: Bytes, name: Bytes)
    requires parent == [] || parent == [SLASH] || parent[|parent| - 1] != SLASH
    ensures NodeNameFromPath(parent, JoinPath(parent, name)) == Some(name)
  {
  }

  // ----- Versions -----

  /** One row of the version table. */
  datatype Version = Version(
    version: nat, lastComp: nat, headerSize: nat,
    fullPath: bool, varAlign: bool, nameProps: bool, bootCpuId: bool, strTabSize: bool, structSize: bool)

  const VERSIONS: seq<Version> := [
    Version(1, 1, 28, true, true, true, false, false, false),
    Version(2, 1, 32, true, true, true, true, false, false),
    Version(3, 1, 36, true, true, true, true, true, false),
    Version(16, 16, 36, false, false, false, true, true, false),
    Version(17, 16, 40, false, false, false, true, true, true)]

  /** Full paths, aligned values and name properties come and go together. */
  predicate Consistent(v: Version) {
    v.fullPath == v.varAlign == v.nameProps == (v.version < 16)
  }

  lemma VersionsConsistent(v: Version)
    requires v in VERSIONS
    ensures Consistent(v)
  {
  }

  // ----- What a blob keeps of a tree -----

  const NAME: Bytes := [110, 97, 109, 101]

  function LiveProps(props: seq<Property>): seq<Property> {
    if props == [] then []
    else (if props[0].deleted then [] else [props[0]]) + LiveProps(props[1..])
  }

  predicate HasLiveName(props: seq<Property>) {
    props != [] && ((!props[0].deleted && props[0].name == NAME) || HasLiveName(props[1..]))
  }

  /** Old versions add a property with the base name when there is none called name. */
  function NameProp(name: Bytes): Property {
    Property(NAME, false, name[..BaseNameLen(name)] + [0])
  }

  function LiveNode(n: Node, v: Version): Node {
    Node(n.name, false,
      LiveProps(n.props) + (if v.nameProps && !HasLiveName(n.props) then [NameProp(n.name)] else []),
      LiveNodes(n.children, v))
  }

  function LiveNodes(ns: seq<Node>, v: Version): seq<Node> {
    if ns == [] then []
    else (if ns[0].deleted then [] else [LiveNode(ns[0], v)]) + LiveNodes(ns[1..], v)
  }

  predicate NulFree(s: Bytes) {
    0 !in s
  }

  /** What the format asks of names: no NUL; and where full paths are written, an empty name
      only at the root, no slash at the end and no unit address without a base name. */
  predicate GoodName(name: Bytes, root: bool, v: Version) {
    NulFree(name) &&
    (v.fullPath ==> if name == [] then root else name[|name| - 1] != SLASH && name[0] != AT)
  }

  predicate GoodProp(p: Property) {
    NulFree(p.name) && |p.value| < CELLS
  }

  predicate GoodNode(n: Node, root: bool, v: Version) {
    GoodName(n.name, root, v) && |n.name| + 1 < CELLS &&
    (forall p :: p in n.props ==> GoodProp(p)) &&
    (forall c :: c in n.children ==> c.deleted || GoodNode(c, false, v))
  }
}
