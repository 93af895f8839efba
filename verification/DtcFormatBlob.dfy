/** The form of a whole blob, with its numbers written out: what the compiler writes has it, and
    what has it is read. */
module DtcFormatBlob {
  import opened Wrappers
  import opened DtcTree
  import opened DtcWrite
  import opened DtcRead
  import opened DtcFormat
  import opened DtcBlob

  /** Eight bytes as a number. */
  function Big(b: Bytes, pos: nat): nat
    requires pos + 8 <= |b|
  {
    Number(b, pos) * 0x1_0000_0000 + Number(b, pos + 4)
  }

  /** Reservations, each with its address and its size, and an empty one at the end. */
  predicate EntriesAt(b: Bytes, pos: nat, rs: seq<Reserve>)
    decreases |rs|
  {
    pos + 16 <= |b| &&
    if rs == [] then Big(b, pos) == 0 && Big(b, pos + 8) == 0
    else Big(b, pos) == rs[0].address && Big(b, pos + 8) == rs[0].size && EntriesAt(b, pos + 16, rs[1..])
  }

  /** Where the blocks lie; the table of names is strings bytes long. */
  datatype Place = Place(structure: nat, names: nat, strings: nat)

  /** The header word by word, for the version. */
  predicate HeaderAt(b: Bytes, version: nat, at: Place, boot: nat) {
    |b| >= 40 && b[0..4] == [0xd0, 0x0d, 0xfe, 0xed] && Number(b, 4) == |b| &&
    Number(b, 8) == at.structure && Number(b, 12) == at.names && Number(b, 16) == (if version < 3 then 32 else 40) &&
    Number(b, 20) == version && Number(b, 24) == (if version < 16 then 1 else 16) &&
    (version >= 2 ==> Number(b, 28) == boot) && (version >= 3 ==> Number(b, 32) == at.strings) &&
    (version >= 17 ==> Number(b, 36) == at.names - at.structure)
  }

  /** The structure block ends with 9. */
  predicate StructureAt(s: Bytes, strs: Bytes, n: Node, old_: bool) {
    NodeAt(FormOf(s, strs, old_), 0, n, [], old_) && TagAt(s, NodeEnd(0, n, [], old_), 9) && NodeEnd(0, n, [], old_) + 4 == |s|
  }

  /** Header, reservations, tree and names, one behind the other. */
  predicate BlobAt(b: Bytes, version: nat, at: Place, rs: seq<Reserve>, n: Node, boot: nat) {
    HeaderAt(b, version, at, boot) &&
    EntriesAt(b, if version < 3 then 32 else 40, rs) && at.structure == (if version < 3 then 32 else 40) + 16 * |rs| + 16 &&
    at.structure <= at.names && at.names + at.strings <= |b| &&
    StructureAt(b[at.structure..at.names], b[at.names..at.names + at.strings], n, version < 16)
  }

  // ----- What is written -----

  lemma WordNumber(b: Bytes, i: nat)
    requires 4 * i + 4 <= |b|
    ensures Word(b, i) == Number(b, 4 * i)
  {
    var c := b[4 * i..4 * i + 4];
    assert c[0] == b[4 * i] && c[1] == b[4 * i + 1] && c[2] == b[4 * i + 2] && c[3] == b[4 * i + 3];
  }

  lemma QuadNumber(b: Bytes, pos: nat)
    requires pos + 8 <= |b|
    ensures QuadValue(b[pos..pos + 8]) == Big(b, pos)
  {
    var q := b[pos..pos + 8];
    assert q[..4][0] == b[pos] && q[..4][1] == b[pos + 1] && q[..4][2] == b[pos + 2] && q[..4][3] == b[pos + 3];
    assert q[4..][0] == b[pos + 4] && q[4..][1] == b[pos + 5] && q[4..][2] == b[pos + 6] && q[4..][3] == b[pos + 7];
  }

  lemma {:induction false} EntriesWritten(base: Bytes, pos: nat, rs: seq<Reserve>)
    requires forall e :: e in rs ==> GoodReserve(e)
    requires
      var all := Entries(rs) + Zeroes(ENTRY_SIZE);
      pos + |all| <= |base| && base[pos..pos + |all|] == all
    ensures EntriesAt(base, pos, rs)
    decreases |rs|
  {
    ZeroEntry();
    if rs == [] {
      EntryAt(base, pos, Reserve(0, 0));
    } else {
      var more := Entries(rs[1..]) + Zeroes(ENTRY_SIZE);
      Associates(Entry(rs[0]), Entries(rs[1..]), Zeroes(ENTRY_SIZE));
      EntrySlice(base, pos, Entry(rs[0]), more);
      EntryAt(base, pos, rs[0]);
      EntriesWritten(base, pos + ENTRY_SIZE, rs[1..]);
    }
    QuadNumber(base, pos);
    QuadNumber(base, pos + 8);
  }

  function PlaceOf(p: Pieces): Place {
    Place(p.header.offStruct, p.header.offStrings, |p.str|)
  }

  lemma LastComp(v: Version)
    requires v in VERSIONS
    ensures v.lastComp == (if v.version < 16 then 1 else 16) && v.headerSize >= 28 && Align(v.headerSize, 8) == (if v.version < 3 then 32 else 40)
    ensures v.fullPath == (v.version < 16) && (v.bootCpuId <==> v.version >= 2)
  {
  }

  lemma HeaderWritten(p: Pieces, boot: nat)
    requires Fitting(p) && p.header.totalsize < CELLS && p.header.lastComp == p.v.lastComp
    requires p.v.bootCpuId ==> p.header.bootCpuId == boot
    requires p.header.bootCpuId < CELLS && |Assemble(p)| == p.header.totalsize && OffsetsAgree(p)
    ensures HeaderAt(Assemble(p), p.v.version, PlaceOf(p), boot)
  {
    var b := Assemble(p);
    HeaderReads(p);
    LastComp(p.v);
    VersionFlags(p.v);
    BlobWord(p, 6);
    forall i: nat | i < 10 ensures 4 * i + 4 <= |b| && Word(b, i) == Number(b, 4 * i) {
      WordNumber(b, i);
    }
    WordsNumbered(b);
    MagicBytes(b);
  }

  lemma WordsNumbered(b: Bytes)
    requires |b| >= 40 && forall i: nat :: i < 10 ==> Word(b, i) == Number(b, 4 * i)
    ensures Word(b, 0) == Number(b, 0) && Word(b, 1) == Number(b, 4) && Word(b, 2) == Number(b, 8) && Word(b, 3) == Number(b, 12)
    ensures Word(b, 4) == Number(b, 16) && Word(b, 5) == Number(b, 20) && Word(b, 6) == Number(b, 24) && Word(b, 7) == Number(b, 28)
    ensures Word(b, 8) == Number(b, 32) && Word(b, 9) == Number(b, 36)
  {
  }

  lemma MagicBytes(b: Bytes)
    requires |b| >= 4
    ensures Number(b, 0) == 0xd00dfeed <==> b[0..4] == [0xd0, 0x0d, 0xfe, 0xed]
  {
    assert |b[0..4]| == 4 && b[0..4][0] == b[0] && b[0..4][1] == b[1] && b[0..4][2] == b[2] && b[0..4][3] == b[3];
  }

  lemma StructureWritten(tree: Node, v: Version)
    requires v in VERSIONS && !tree.deleted && GoodNode(tree, true, v) && Fits(FlattenTree(Bufs([], []), tree, [], v))
    ensures
      var c := FlattenTree(Bufs([], []), tree, [], v);
      StructureAt(EmitCell(c.dt, END), c.str, LiveNode(tree, v), v.version < 16)
  {
    var c := FlattenTree(Bufs([], []), tree, [], v);
    VersionsConsistent(v);
    LastComp(v);
    TreeInFormat(EmitCell(c.dt, END), c.str, Bufs([], []), tree, [], v, true);
    NodeEndFour(0, LiveNode(tree, v), [], v.fullPath);
    EmittedCell(EmitCell(c.dt, END), c.dt, END);
  }

  lemma WrittenPieces(p: Pieces, info: Info, v: Version, n: nat)
    requires Fitting(p) && p.v == v && p.header.totalsize < CELLS && GoodInfo(info, v) && !info.tree.deleted
    requires p.header.lastComp == v.lastComp && p.reserves == Entries(info.reserves + Slots(n))
    requires p.header.bootCpuId < CELLS && (v.bootCpuId ==> p.header.bootCpuId == info.bootCpuId)
    requires
      var c := FlattenTree(Bufs([], []), info.tree, [], v);
      p.dt == EmitCell(c.dt, END) && p.str == c.str
    ensures BlobAt(Assemble(p), v.version, PlaceOf(p), info.reserves + Slots(n), LiveNode(info.tree, v), info.bootCpuId)
  {
    OffsetsFit(p);
    BlocksLieAtOffsets(p);
    HeaderWritten(p, info.bootCpuId);
    LastComp(v);
    StructureWritten(info.tree, v);
    ReservesWritten(p, info.reserves, n);
  }

  lemma ReservesWritten(p: Pieces, rs: seq<Reserve>, n: nat)
    requires OffsetsAgree(p) && p.reserves == Entries(rs + Slots(n)) && forall e :: e in rs ==> GoodReserve(e)
    ensures EntriesAt(Assemble(p), p.header.offReserve, rs + Slots(n))
  {
    BlocksLieAtOffsets(p);
    assert forall e :: e in rs + Slots(n) ==> e in rs || e == Reserve(0, 0);
    EntriesWritten(Assemble(p), p.header.offReserve, rs + Slots(n));
  }

  lemma MadeNumbers(info: Info, v: Version, o: Options)
    ensures PiecesOf(info, v, o).header.lastComp == v.lastComp
    ensures PiecesOf(info, v, o).header.bootCpuId == if v.bootCpuId then info.bootCpuId else UNSET
  {
  }

  /** A blob as it is written has this form, in every version: what the tree keeps of itself is
      there, and the reservations with the spare ones. */
  lemma BlobInFormat(info: Info, v: Version, o: Options)
    requires v in VERSIONS && GoodInfo(info, v) && !info.tree.deleted && |ToBlob(info, v, o)| < CELLS
    ensures
      var p := PiecesOf(info, v, o);
      BlobAt(ToBlob(info, v, o), v.version, PlaceOf(p), info.reserves + Slots(o.reservenum), LiveNode(info.tree, v), info.bootCpuId)
  {
    var p := PiecesOf(info, v, o);
    PiecesFit(info, v, o);
    OffsetsFit(p);
    BlocksLieAtOffsets(p);
    MadeNumbers(info, v, o);
    WrittenPieces(p, info, v, o.reservenum);
  }

  // ----- What is read -----

  lemma {:induction false} EntriesAreRead(b: Bytes, pos: nat, rs: seq<Reserve>)
    requires EntriesAt(b, pos, rs)
    ensures ReadReserves(b, pos) == Some(UpToEmpty(rs))
    decreases |rs|
  {
    QuadNumber(b, pos);
    QuadNumber(b, pos + 8);
    if rs != [] { EntriesAreRead(b, pos + 16, rs[1..]); }
  }

  /** Whatever holds in the one form holds in the other. */
  ghost predicate Extends(f: Form, g: Form) {
    (forall pos: nat, t: Byte :: f.tag(pos, t) ==> g.tag(pos, t)) && (forall pos: nat, s: Bytes :: f.text(pos, s) ==> g.text(pos, s)) &&
    forall pos: nat, p: Property :: f.prop(pos, p) ==> g.prop(pos, p)
  }

  lemma BytesExtend(b: Bytes, c: Bytes, pos: nat, s: Bytes)
    requires b <= c && BytesAt(b, pos, s)
    ensures BytesAt(c, pos, s)
  {
    assert c[pos..pos + |s|] == b[pos..pos + |s|];
  }

  lemma ZeroesExtend(b: Bytes, c: Bytes, pos: nat, end: nat)
    requires b <= c && ZeroesAt(b, pos, end)
    ensures ZeroesAt(c, pos, end)
  {
    forall i | pos <= i < end ensures ZeroAt(c, i) { assert ZeroAt(b, i); }
  }

  lemma PropExtends(b: Bytes, c: Bytes, strs: Bytes, more: Bytes, pos: nat, p: Property, old_: bool)
    requires b <= c && strs <= more && PropAt(b, pos, strs, p, old_)
    ensures PropAt(c, pos, more, p, old_)
  {
    var start := ValueStart(pos + 12, |p.value|, old_);
    assert c[pos..pos + 4] == b[pos..pos + 4];
    BytesExtend(strs, more, Number(b, pos + 8), p.name + [0]);
    BytesExtend(b, c, start, p.value);
    ZeroesExtend(b, c, pos + 12, start);
    ZeroesExtend(b, c, start + |p.value|, PropEnd(pos, p, old_));
  }

  lemma FormExtends(b: Bytes, c: Bytes, strs: Bytes, more: Bytes, old_: bool)
    requires b <= c && strs <= more
    ensures Extends(FormOf(b, strs, old_), FormOf(c, more, old_))
  {
    forall pos: nat, t: Byte | TagAt(b, pos, t) ensures TagAt(c, pos, t) { assert c[pos..pos + 4] == b[pos..pos + 4]; }
    forall pos: nat, s: Bytes | StringPadded(b, pos, s) ensures StringPadded(c, pos, s) {
      BytesExtend(b, c, pos, s);
      ZeroesExtend(b, c, pos + |s|, Four(pos + |s| + 1));
    }
    forall pos: nat, p: Property | PropAt(b, pos, strs, p, old_) ensures PropAt(c, pos, more, p, old_) {
      PropExtends(b, c, strs, more, pos, p, old_);
    }
  }

  lemma {:induction false} PropsExtend(f: Form, g: Form, pos: nat, ps: seq<Property>, old_: bool)
    requires Extends(f, g) && InTurn(f.prop, pos, ps, old_)
    ensures InTurn(g.prop, pos, ps, old_)
    decreases |ps|
  {
    if ps != [] { PropsExtend(f, g, PropEnd(pos, ps[0], old_), ps[1..], old_); }
  }

  lemma {:induction false} NodeExtends(f: Form, g: Form, pos: nat, n: Node, parent: Bytes, old_: bool)
    requires Extends(f, g) && NodeAt(f, pos, n, parent, old_)
    ensures NodeAt(g, pos, n, parent, old_)
    decreases n
  {
    var name := Written(parent, n.name, old_);
    var props := Four(pos + 4 + |name| + 1);
    var children := PropsEnd(props, n.props, old_);
    var end := NodesEnd(children, n.children, name, old_);
    NodeParts(f, pos, n, parent, old_, name, props, children, end);
    PropsExtend(f, g, props, n.props, old_);
    NodesExtend(f, g, children, n.children, name, old_);
    PartsExtend(f, g, pos, n, name, old_, props, children, end);
    NodeOfParts(g, pos, n, parent, old_, name, props, children, end);
  }

  lemma PartsExtend(f: Form, g: Form, pos: nat, n: Node, name: Bytes, old_: bool, props: nat, children: nat, end: nat)
    requires Extends(f, g) && Described(f, pos, n, name, old_, props, children, end)
    requires InTurn(g.prop, props, n.props, old_) && NodesAt(g, children, n.children, name, old_)
    ensures Described(g, pos, n, name, old_, props, children, end)
  {
  }

  lemma {:induction false} NodesExtend(f: Form, g: Form, pos: nat, ns: seq<Node>, parent: Bytes, old_: bool)
    requires Extends(f, g) && NodesAt(f, pos, ns, parent, old_)
    ensures NodesAt(g, pos, ns, parent, old_)
    decreases ns
  {
    if ns != [] {
      NodeExtends(f, g, pos, ns[0], parent, old_);
      NodesExtend(f, g, NodeEnd(pos, ns[0], parent, old_), ns[1..], parent, old_);
    }
  }

  lemma StructureExtends(s: Bytes, strs: Bytes, base: Bytes, more: Bytes, n: Node, old_: bool)
    requires StructureAt(s, strs, n, old_) && s <= base && strs <= more
    ensures NodeAt(FormOf(base, more, old_), 0, n, [], old_) && TagAt(base, NodeEnd(0, n, [], old_), 9)
  {
    var end := NodeEnd(0, n, [], old_);
    FormExtends(s, base, strs, more, old_);
    NodeExtends(FormOf(s, strs, old_), FormOf(base, more, old_), 0, n, [], old_);
    assert base[end..end + 4] == s[end..end + 4];
  }

  lemma {:induction false} TreeAndEnd(base: Bytes, strs: Bytes, n: Node, v: Version, end: nat)
    requires ReadWord(base, 0) == Some((BEGIN_NODE, 4)) && UnflattenTree(base, 4, strs, [], v) == Some((n, end)) && TagAt(base, end, 9)
    ensures ReadStruct(base, strs, v) == Some(n)
  {
    TagReads(base, end, 9);
  }

  lemma {:induction false} StructureReads(s: Bytes, strs: Bytes, base: Bytes, more: Bytes, n: Node, version: nat, v: Version)
    requires StructureAt(s, strs, n, version < 16) && s <= base && strs <= more && Plain(n, true, v) && v == ReaderVersion(version)
    ensures ReadStruct(base, more, v) == Some(n)
  {
    StructureExtends(s, strs, base, more, n, version < 16);
    TreeReads(base, 0, more, n, v);
    TreeAndEnd(base, more, n, v, NodeEnd(0, n, [], version < 16));
  }

  lemma BlockPrefix(b: Bytes, i: nat, j: nat, k: nat)
    requires i <= j <= k <= |b|
    ensures b[i..j] <= b[i..k]
  {
    assert b[i..k][..j - i] == b[i..j];
  }

  lemma HeaderNumbers(b: Bytes, version: nat, at: Place, boot: nat)
    requires HeaderAt(b, version, at, boot)
    ensures Word(b, 0) == MAGIC && Word(b, 1) == |b| && Word(b, 2) == at.structure && Word(b, 3) == at.names
    ensures Word(b, 4) == (if version < 3 then 32 else 40) && Word(b, 5) == version && (version >= 2 ==> Word(b, 7) == boot)
    ensures (version >= 3 ==> Word(b, 8) == at.strings) && (version >= 17 ==> Word(b, 9) == at.names - at.structure)
  {
    forall i: nat | i < 10 ensures 4 * i + 4 <= |b| && Word(b, i) == Number(b, 4 * i) {
      WordNumber(b, i);
    }
    WordsNumbered(b);
    MagicBytes(b);
  }

  /** The tree is read from its place on, with the names from theirs on. */
  lemma TreeBlock(b: Bytes, version: nat, at: Place, n: Node) returns (more: Bytes)
    requires at.structure <= at.names && at.names + at.strings <= |b| && Plain(n, true, ReaderVersion(version))
    requires StructureAt(b[at.structure..at.names], b[at.names..at.names + at.strings], n, version < 16)
    ensures more == if version < 3 then b[at.names..] else b[at.names..at.names + at.strings]
    ensures ReadStruct(b[at.structure..], more, ReaderVersion(version)) == Some(n)
  {
    var strs := b[at.names..at.names + at.strings];
    more := if version < 3 then b[at.names..] else strs;
    BlockPrefix(b, at.structure, at.names, |b|);
    BlockPrefix(b, at.names, at.names + at.strings, |b|);
    assert b[at.structure..|b|] == b[at.structure..] && b[at.names..|b|] == b[at.names..];
    StructureReads(b[at.structure..at.names], strs, b[at.structure..], more, n, version, ReaderVersion(version));
  }

  /** What has the form of a blob is read: its tree, its reservations up to the first empty one,
      and the boot processor, in whatever file it begins. */
  lemma BlobReads(b: Bytes, version: nat, at: Place, rs: seq<Reserve>, n: Node, boot: nat, rest: Bytes)
    requires BlobAt(b, version, at, rs, n, boot) && Plain(n, true, ReaderVersion(version))
    ensures FromBlob(b + rest).Some?
    ensures
      var info := FromBlob(b + rest).value;
      info.tree == n && info.reserves == UpToEmpty(rs) && (version >= 2 ==> info.bootCpuId == boot)
  {
    HeaderNumbers(b, version, at, boot);
    EntriesAreRead(b, if version < 3 then 32 else 40, rs);
    var more := TreeBlock(b, version, at, n);
    NamesBlock(b, version, at);
    ParsedFrom(b, version, at, more, UpToEmpty(rs), n);
    FileStartsWith(b, rest);
  }

  lemma NamesBlock(b: Bytes, version: nat, at: Place)
    requires |b| >= 40 && at.names + at.strings <= |b| && (version >= 3 ==> Word(b, 8) == at.strings)
    ensures StringsBlock(b, at.names, version) == Some(if version < 3 then b[at.names..] else b[at.names..at.names + at.strings])
  {
  }

  lemma ParsedFrom(b: Bytes, version: nat, at: Place, strs: Bytes, rs: seq<Reserve>, n: Node)
    requires |b| >= 40 && Word(b, 2) == at.structure && Word(b, 3) == at.names && Word(b, 4) == (if version < 3 then 32 else 40)
    requires Word(b, 5) == version && (version >= 3 ==> Word(b, 8) == at.strings)
    requires (version >= 17 ==> Word(b, 9) == at.names - at.structure)
    requires (if version < 3 then 32 else 40) < |b| && at.structure < |b| && at.structure <= at.names && at.names + at.strings <= |b|
    requires StringsBlock(b, at.names, version) == Some(strs)
    requires ReadReserves(b, if version < 3 then 32 else 40) == Some(rs)
    requires ReadStruct(b[at.structure..], strs, ReaderVersion(version)) == Some(n)
    ensures ParseBlob(b) == Some(Info(rs, n, Word(b, 7)))
  {
  }
}
