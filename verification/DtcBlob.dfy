/** Whole blobs: header, memory reservations, structure block, strings block and padding. */
module DtcBlob {
  import opened DtcTree
  import opened DtcWrite
  import opened DtcRead
  import opened Wrappers

  const MAGIC: nat := 0xd00dfeed
  const ENTRY_SIZE: nat := 16

  /** A reserved range; both numbers are 64 bits wide. */
  datatype Reserve = Reserve(address: nat, size: nat)

  datatype Info = Info(reserves: seq<Reserve>, tree: Node, bootCpuId: nat)

  /** The command line's spare reservation slots, minimum size, padding and alignment. */
  datatype Options = Options(reservenum: nat, minsize: int, padsize: int, alignsize: int)

  // ----- Numbers in the blob -----

  function Quad(v: nat): (q: Bytes)
    ensures |q| == 8
  {
    Cell(v / CELLS) + Cell(v % CELLS)
  }

  function QuadValue(q: Bytes): nat
    requires |q| == 8
  {
    CellValue(q[..4]) * CELLS + CellValue(q[4..])
  }

  lemma QuadRoundTrip(v: nat)
    requires v < CELLS * CELLS
    ensures QuadValue(Quad(v)) == v
  {
    assert Quad(v)[..4] == Cell(v / CELLS) && Quad(v)[4..] == Cell(v % CELLS);
    CellRoundTrip(v / CELLS);
    CellRoundTrip(v % CELLS);
  }

  function Entry(e: Reserve): (b: Bytes)
    ensures |b| == ENTRY_SIZE
  {
    Quad(e.address) + Quad(e.size)
  }

  /** Consecutive words. */
  function CellsOf(ws: seq<nat>): (b: Bytes)
    ensures |b| == 4 * |ws|
  {
    if ws == [] then [] else Cell(ws[0]) + CellsOf(ws[1..])
  }

  lemma {:induction false} CellsOfAt(ws: seq<nat>, i: nat)
    requires i < |ws|
    ensures CellsOf(ws)[4 * i..4 * i + 4] == Cell(ws[i])
  {
    if i > 0 {
      CellsOfAt(ws[1..], i - 1);
      assert CellsOf(ws)[4 * i..4 * i + 4] == CellsOf(ws[1..])[4 * (i - 1)..4 * (i - 1) + 4];
    }
  }

  function Word(blob: Bytes, i: nat): nat
    requires 4 * i + 4 <= |blob|
  {
    CellValue(blob[4 * i..4 * i + 4])
  }

  // ----- The header -----

  datatype Header = Header(
    magic: nat, totalsize: nat, offStruct: nat, offStrings: nat, offReserve: nat,
    version: nat, lastComp: nat, bootCpuId: nat, sizeStrings: nat, sizeStruct: nat)

  const UNSET: nat := 0xffff_ffff

  function HeaderWords(h: Header): (ws: seq<nat>)
    ensures |ws| == 10
  {
    [h.magic, h.totalsize, h.offStruct, h.offStrings, h.offReserve,
     h.version, h.lastComp, h.bootCpuId, h.sizeStrings, h.sizeStruct]
  }

  function MakeHeader(v: Version, reservesize: nat, dtsize: nat, strsize: nat, bootCpuId: nat): Header {
    var reserved := reservesize + ENTRY_SIZE;
    var off := Align(v.headerSize, 8);
    Header(MAGIC, off + reserved + dtsize + strsize, off + reserved, off + reserved + dtsize, off,
      v.version, v.lastComp,
      if v.bootCpuId then bootCpuId else UNSET,
      if v.strTabSize then strsize else UNSET,
      if v.structSize then dtsize else UNSET)
  }

  /** How much to add to a blob of the given size. */
  function PadLength(total: nat, o: Options): nat {
    var p := if o.minsize > 0 && o.minsize > total then o.minsize - total else 0;
    var q := if o.padsize > 0 then o.padsize else p;
    if o.alignsize > 0 then Align(total + q, o.alignsize) - total else q
  }

  // ----- Writing -----

  function Entries(rs: seq<Reserve>): (b: Bytes)
    ensures |b| == ENTRY_SIZE * |rs|
  {
    if rs == [] then [] else Entry(rs[0]) + Entries(rs[1..])
  }

  function Slots(n: nat): (rs: seq<Reserve>)
    ensures |rs| == n
  {
    seq(n, _ => Reserve(0, 0))
  }

  /** The pieces of a blob in the order in which they are put together. */
  datatype Pieces = Pieces(header: Header, v: Version, reserves: Bytes, dt: Bytes, str: Bytes, padlen: nat)

  /** The three blocks with their header, padded. */
  function MakePieces(v: Version, reserves: Bytes, dt: Bytes, str: Bytes, bootCpuId: nat, o: Options): Pieces {
    var h := MakeHeader(v, |reserves|, |dt|, |str|, bootCpuId);
    var padlen := PadLength(h.totalsize, o);
    Pieces(h.(totalsize := h.totalsize + padlen), v, reserves, dt, str, padlen)
  }

  function PiecesOf(info: Info, v: Version, o: Options): Pieces {
    var b := FlattenTree(Bufs([], []), info.tree, [], v);
    MakePieces(v, Entries(info.reserves + Slots(o.reservenum)), EmitCell(b.dt, END), b.str, info.bootCpuId, o)
  }

  function Front(p: Pieces): (b: Bytes)
    requires p.v.headerSize <= 40
    ensures |b| == Align(p.v.headerSize, 8)
  {
    EmitAlign(CellsOf(HeaderWords(p.header))[..p.v.headerSize], 8)
  }

  function Assemble(p: Pieces): Bytes
    requires p.v.headerSize <= 40
  {
    Front(p) + p.reserves + Zeroes(ENTRY_SIZE) + p.dt + p.str + Zeroes(p.padlen)
  }

  function ToBlob(info: Info, v: Version, o: Options): Bytes
    requires v in VERSIONS
  {
    Assemble(PiecesOf(info, v, o))
  }

  // ----- Layout -----

  /** The numbers in the header are those of the pieces. */
  predicate Fitting(p: Pieces) {
    p.v in VERSIONS && |p.reserves| % ENTRY_SIZE == 0 &&
    var h := MakeHeader(p.v, |p.reserves|, |p.dt|, |p.str|, p.header.bootCpuId);
    p.header.totalsize == h.totalsize + p.padlen && p.header.offReserve == h.offReserve &&
    p.header.offStruct == h.offStruct && p.header.offStrings == h.offStrings &&
    p.header.magic == MAGIC && p.header.version == p.v.version &&
    (p.v.strTabSize ==> p.header.sizeStrings == |p.str|) && (p.v.structSize ==> p.header.sizeStruct == |p.dt|)
  }

  lemma MadeFit(v: Version, reserves: Bytes, dt: Bytes, str: Bytes, bootCpuId: nat, o: Options)
    requires v in VERSIONS && |reserves| % ENTRY_SIZE == 0
    ensures Fitting(MakePieces(v, reserves, dt, str, bootCpuId, o))
  {
  }

  lemma WholeEntries(rs: seq<Reserve>)
    ensures |Entries(rs)| % ENTRY_SIZE == 0
  {
  }

  lemma PiecesFit(info: Info, v: Version, o: Options)
    requires v in VERSIONS
    ensures Fitting(PiecesOf(info, v, o))
  {
    var b := FlattenTree(Bufs([], []), info.tree, [], v);
    var reserves := Entries(info.reserves + Slots(o.reservenum));
    WholeEntries(info.reserves + Slots(o.reservenum));
    MadeFit(v, reserves, EmitCell(b.dt, END), b.str, info.bootCpuId, o);
  }

  /** The offsets leave room for the blocks, one behind the other. */
  predicate OffsetsAgree(p: Pieces) {
    var h := p.header;
    p.v.headerSize <= 40 && h.offReserve == Align(p.v.headerSize, 8) &&
    h.offReserve + |p.reserves| + ENTRY_SIZE == h.offStruct &&
    h.offStruct + |p.dt| == h.offStrings && h.offStrings + |p.str| + p.padlen == h.totalsize
  }

  lemma HeaderSizes(v: Version)
    requires v in VERSIONS
    ensures v.headerSize == 28 || v.headerSize == 32 || v.headerSize == 36 || v.headerSize == 40
    ensures Align(v.headerSize, 8) == if v.headerSize <= 32 then 32 else 40
  {
  }

  lemma EntriesKeepAlignment(off: nat, size: nat)
    requires off % 8 == 0 && size % ENTRY_SIZE == 0
    ensures (off + (size + ENTRY_SIZE)) % 8 == 0
  {
    assert size == ENTRY_SIZE * (size / ENTRY_SIZE);
  }

  /** Both the reservations and the structure block start at a multiple of 8, behind the header. */
  lemma OffsetsFit(p: Pieces)
    requires Fitting(p)
    ensures OffsetsAgree(p)
    ensures p.v.headerSize <= p.header.offReserve && p.header.offReserve % 8 == 0 && p.header.offStruct % 8 == 0
  {
    HeaderSizes(p.v);
    EntriesKeepAlignment(p.header.offReserve, |p.reserves|);
  }

  /** Every block lies where the header says. */
  lemma BlocksLieAtOffsets(p: Pieces)
    requires OffsetsAgree(p)
    ensures
      var blob, h := Assemble(p), p.header;
      |blob| == h.totalsize &&
      blob[h.offReserve..h.offStruct] == p.reserves + Zeroes(ENTRY_SIZE) &&
      blob[h.offStruct..h.offStrings] == p.dt &&
      blob[h.offStrings..h.offStrings + |p.str|] == p.str
  {
    FiveParts(Front(p), p.reserves, Zeroes(ENTRY_SIZE), p.dt, p.str, Zeroes(p.padlen));
  }

  lemma FiveParts(f: Bytes, a: Bytes, z: Bytes, d: Bytes, s: Bytes, r: Bytes)
    ensures
      var all := f + a + z + d + s + r;
      var i := |f| + |a| + |z|;
      |all| == i + |d| + |s| + |r| &&
      all[|f|..i] == a + z && all[i..i + |d|] == d && all[i + |d|..i + |d| + |s|] == s
  {
    var x := f + (a + z);
    Associates(f, a, z);
    Middle(f, a + z, d + s + r);
    Associates4(x, d, s, r);
    Middle(x, d, s + r);
    Middle(x + d, s, r);
  }

  lemma Associates(a: Bytes, b: Bytes, c: Bytes)
    ensures a + b + c == a + (b + c)
  {
  }

  lemma Associates4(a: Bytes, b: Bytes, c: Bytes, d: Bytes)
    ensures a + b + c + d == a + (b + c + d) == a + b + (c + d)
  {
  }

  lemma Middle(f: Bytes, x: Bytes, r: Bytes)
    ensures (f + x + r)[|f|..|f| + |x|] == x
  {
  }

  /** At least the minimum size unless explicit padding overrides it, a multiple of the
      alignment, and without an alignment exactly the requested padding. */
  predicate PaddedAsAsked(size: nat, total: nat, o: Options) {
    (o.padsize <= 0 ==> size >= o.minsize) &&
    (o.padsize > 0 ==> size >= total + o.padsize) &&
    (o.alignsize > 0 ==> size % o.alignsize == 0) &&
    (o.alignsize <= 0 ==> size == total || size == (if o.padsize > 0 then total + o.padsize else o.minsize))
  }

  lemma PaddedSize(total: nat, o: Options)
    ensures PaddedAsAsked(total + PadLength(total, o), total, o)
  {
    if o.alignsize > 0 {
      var p := if o.minsize > 0 && o.minsize > total then o.minsize - total else 0;
      var q := if o.padsize > 0 then o.padsize else p;
      AlignedIsMultiple(total + q, o.alignsize);
    }
  }

  lemma AlignedIsMultiple(x: nat, a: nat)
    requires a > 0
    ensures Align(x, a) % a == 0
  {
    if x % a != 0 {
      assert x + (a - x % a) == a * (x / a + 1);
      MultipleModulo(x / a + 1, a);
    }
  }

  lemma {:induction false} MultipleModulo(k: nat, a: nat)
    requires a > 0
    ensures a * k % a == 0
  {
    if k > 0 {
      MultipleModulo(k - 1, a);
      assert a * k == a * (k - 1) + a;
      AddModulo(a * (k - 1), a);
    }
  }

  lemma AddModulo(x: nat, a: nat)
    requires a > 0
    ensures (x + a) % a == x % a
  {
    var q, r := x / a, x % a;
    assert x + a == a * (q + 1) + r;
    ModuloUnique(x + a, a, q + 1, r);
  }

  lemma ModuloUnique(x: nat, a: nat, q: nat, r: nat)
    requires x == a * q + r && 0 <= r < a
    ensures x % a == r
  {
    var d := x / a - q;
    assert x == a * (x / a) + x % a;
    assert a * d == r - x % a by { assert a * d == a * (x / a) - a * q; }
    TimesAtLeast(a, d);
  }

  lemma TimesAtLeast(a: int, d: int)
    requires a >= 0
    ensures (d > 0 ==> a * d >= a) && (d < 0 ==> a * d <= -a)
  {
  }

  // ----- Reading -----

  /** Reservations up to the first one of size zero. */
  function ReadReserves(base: Bytes, pos: nat): Option<seq<Reserve>>
    decreases |base| - pos
  {
    if pos + ENTRY_SIZE > |base| then None
    else
      var e := Reserve(QuadValue(base[pos..pos + 8]), QuadValue(base[pos + 8..pos + 16]));
      if e.size == 0 then Some([])
      else
        var rest := ReadReserves(base, pos + ENTRY_SIZE);
        if rest.None? then None else Some([e] + rest.value)
  }

  /** The reader knows a version only by these flags. */
  function ReaderVersion(version: nat): Version {
    var before16 := version < 16;
    Version(version, 0, 0, before16, before16, before16, false, false, false)
  }

  function ReadStruct(base: Bytes, strs: Bytes, v: Version): Option<Node> {
    var tag := ReadWord(base, 0);
    if tag.None? || tag.value.0 != BEGIN_NODE then None
    else
      var tree := UnflattenTree(base, tag.value.1, strs, [], v);
      if tree.None? then None
      else
        var end := ReadWord(base, tree.value.1);
        if end.None? || end.value.0 != END then None else Some(tree.value.0)
  }

  /** The strings block; only versions from 3 on say how long it is. */
  function StringsBlock(blob: Bytes, offStr: nat, version: nat): (r: Option<Bytes>)
    requires offStr <= |blob| && |blob| >= 40
  {
    if version < 3 then Some(blob[offStr..])
    else if offStr + Word(blob, 8) > |blob| then None
    else Some(blob[offStr..offStr + Word(blob, 8)])
  }

  /** A blob without anything behind its total size. */
  function ParseBlob(blob: Bytes): Option<Info>
    requires |blob| >= 40
  {
    var total := |blob|;
    var offDt, offStr, offReserve, version := Word(blob, 2), Word(blob, 3), Word(blob, 4), Word(blob, 5);
    if offReserve >= total || offDt >= total || offStr > total then None
    else
      var strs := StringsBlock(blob, offStr, version);
      if strs.None? || (version >= 17 && offDt + Word(blob, 9) > total) then None
      else
        var reserves := ReadReserves(blob, offReserve);
        var tree := ReadStruct(blob[offDt..], strs.value, ReaderVersion(version));
        if reserves.None? || tree.None? then None
        else Some(Info(reserves.value, tree.value, Word(blob, 7)))
  }

  /** A file that starts with a blob.  A total size below 40, which no writer produces, is
      refused here; the program asks for 28 and reads the rest of the header regardless. */
  function FromBlob(file: Bytes): Option<Info> {
    if |file| < 8 || Word(file, 0) != MAGIC then None
    else
      var total := Word(file, 1);
      if total < 40 || |file| < total then None else ParseBlob(file[..total])
  }

  // ----- Round trip -----

  /** Reservations survive up to the first empty one. */
  function UpToEmpty(rs: seq<Reserve>): seq<Reserve> {
    if rs == [] || rs[0].size == 0 then [] else [rs[0]] + UpToEmpty(rs[1..])
  }

  predicate GoodReserve(e: Reserve) {
    e.address < CELLS * CELLS && e.size < CELLS * CELLS
  }

  lemma EntryAt(base: Bytes, pos: nat, e: Reserve)
    requires pos + ENTRY_SIZE <= |base| && base[pos..pos + ENTRY_SIZE] == Entry(e) && GoodReserve(e)
    ensures QuadValue(base[pos..pos + 8]) == e.address && QuadValue(base[pos + 8..pos + 16]) == e.size
  {
    assert base[pos..pos + 8] == Entry(e)[..8] == Quad(e.address);
    assert base[pos + 8..pos + 16] == Entry(e)[8..] == Quad(e.size);
    QuadRoundTrip(e.address);
    QuadRoundTrip(e.size);
  }

  /** The terminator is an entry like any other. */
  lemma ZeroEntry()
    ensures Zeroes(ENTRY_SIZE) == Entry(Reserve(0, 0))
  {
  }

  lemma EntrySlice(base: Bytes, pos: nat, e: Bytes, more: Bytes)
    requires pos + |e| + |more| <= |base| && base[pos..pos + |e| + |more|] == e + more
    ensures base[pos..pos + |e|] == e && base[pos + |e|..pos + |e| + |more|] == more
  {
    assert base[pos..pos + |e|] == base[pos..pos + |e| + |more|][..|e|];
    assert base[pos + |e|..pos + |e| + |more|] == base[pos..pos + |e| + |more|][|e|..];
  }

  lemma {:induction false} ReservesRoundTrip(base: Bytes, pos: nat, rs: seq<Reserve>)
    requires forall e :: e in rs ==> GoodReserve(e)
    requires
      var all := Entries(rs) + Zeroes(ENTRY_SIZE);
      pos + |all| <= |base| && base[pos..pos + |all|] == all
    ensures ReadReserves(base, pos) == Some(UpToEmpty(rs))
    decreases |rs|
  {
    ZeroEntry();
    if rs == [] {
      EntryAt(base, pos, Reserve(0, 0));
    } else {
      var more := Entries(rs[1..]) + Zeroes(ENTRY_SIZE);
      Associates(Entry(rs[0]), Entries(rs[1..]), Zeroes(ENTRY_SIZE));
      EntrySlice(base, pos, Entry(rs[0]), more);
      EntryAt(base, pos, rs[0]);
      ReservesRoundTrip(base, pos + ENTRY_SIZE, rs[1..]);
    }
  }

  /** Spare slots are empty, so the reader stops there at the latest. */
  lemma {:induction false} SlotsAreInvisible(rs: seq<Reserve>, n: nat)
    ensures UpToEmpty(rs + Slots(n)) == UpToEmpty(rs)
  {
    if rs != [] {
      assert (rs + Slots(n))[1..] == rs[1..] + Slots(n);
      SlotsAreInvisible(rs[1..], n);
    }
  }

  lemma {:induction false} NonEmptySurvive(rs: seq<Reserve>)
    requires forall e :: e in rs ==> e.size != 0
    ensures UpToEmpty(rs) == rs
  {
    if rs != [] { NonEmptySurvive(rs[1..]); }
  }

  // ----- Header words -----

  lemma WordOfPrefix(a: Bytes, b: Bytes, i: nat)
    requires a <= b && 4 * i + 4 <= |a|
    ensures Word(a, i) == Word(b, i)
  {
    assert a[4 * i..4 * i + 4] == b[4 * i..4 * i + 4];
  }

  lemma FrontWord(p: Pieces, i: nat)
    requires p.v.headerSize <= 40 && 4 * i + 4 <= p.v.headerSize && HeaderWords(p.header)[i] < CELLS
    ensures Word(Front(p), i) == HeaderWords(p.header)[i]
  {
    var ws := HeaderWords(p.header);
    var all := CellsOf(ws);
    CellsOfAt(ws, i);
    CellRoundTrip(ws[i]);
    WordOfPrefix(all[..p.v.headerSize], Front(p), i);
    WordOfPrefix(all[..p.v.headerSize], all, i);
  }

  lemma FrontIsPrefix(p: Pieces)
    requires p.v.headerSize <= 40
    ensures Front(p) <= Assemble(p)
  {
  }

  lemma BlobWord(p: Pieces, i: nat)
    requires p.v.headerSize <= 40 && 4 * i + 4 <= p.v.headerSize && HeaderWords(p.header)[i] < CELLS
    ensures 4 * i + 4 <= |Assemble(p)| && Word(Assemble(p), i) == HeaderWords(p.header)[i]
  {
    FrontWord(p, i);
    FrontIsPrefix(p);
    WordOfPrefix(Front(p), Assemble(p), i);
  }

  /** The header of version 1 ends before the boot processor; padding is read instead. */
  lemma PaddingWord(p: Pieces)
    requires p.v.headerSize == 28
    ensures 32 <= |Assemble(p)| && Word(Assemble(p), 7) == 0
  {
    assert Front(p)[28..32] == [0, 0, 0, 0];
    FrontIsPrefix(p);
    WordOfPrefix(Front(p), Assemble(p), 7);
  }

  // ----- The whole blob -----

  /** What the reader finds in the header. */
  predicate HeaderFound(blob: Bytes, p: Pieces) {
    var h := p.header;
    |blob| >= 40 && Word(blob, 0) == MAGIC && Word(blob, 1) == h.totalsize &&
    Word(blob, 2) == h.offStruct && Word(blob, 3) == h.offStrings && Word(blob, 4) == h.offReserve &&
    Word(blob, 5) == p.v.version && Word(blob, 7) == (if p.v.bootCpuId then h.bootCpuId else 0) &&
    (p.v.strTabSize ==> Word(blob, 8) == |p.str|) && (p.v.structSize ==> Word(blob, 9) == |p.dt|)
  }

  lemma WordsBelow(p: Pieces)
    requires Fitting(p) && p.header.totalsize < CELLS
    ensures forall i :: 0 <= i < 6 ==> HeaderWords(p.header)[i] < CELLS
  {
  }

  lemma HeaderReads(p: Pieces)
    requires Fitting(p) && p.header.totalsize < CELLS && p.header.bootCpuId < CELLS && |Assemble(p)| == p.header.totalsize
    ensures HeaderFound(Assemble(p), p)
  {
    var ws := HeaderWords(p.header);
    HeaderSizes(p.v);
    WordsBelow(p);
    forall i | 0 <= i < 6 ensures 4 * i + 4 <= |Assemble(p)| && Word(Assemble(p), i) == ws[i] {
      BlobWord(p, i);
    }
    if p.v.bootCpuId { BlobWord(p, 7); } else { PaddingWord(p); }
    if p.v.strTabSize { BlobWord(p, 8); }
    if p.v.structSize { BlobWord(p, 9); }
    assert ws[0] == p.header.magic && ws[1] == p.header.totalsize && ws[2] == p.header.offStruct;
    assert ws[3] == p.header.offStrings && ws[4] == p.header.offReserve && ws[5] == p.header.version;
  }

  lemma VersionFlags(v: Version)
    requires v in VERSIONS
    ensures (v.version >= 3 <==> v.strTabSize) && (v.version >= 17 <==> v.structSize)
    ensures ReaderVersion(v.version).fullPath == v.fullPath && ReaderVersion(v.version).varAlign == v.varAlign
  {
  }

  /** The strings block found begins with the table written. */
  lemma StringsFound(p: Pieces)
    requires Fitting(p) && HeaderFound(Assemble(p), p)
    ensures p.header.offStrings <= |Assemble(p)|
    ensures
      var strs := StringsBlock(Assemble(p), p.header.offStrings, p.v.version);
      strs.Some? && p.str <= strs.value
  {
    OffsetsFit(p);
    BlocksLieAtOffsets(p);
    VersionFlags(p.v);
    PrefixOfTail(Assemble(p), p.header.offStrings, p.str);
  }

  lemma PrefixOfTail(blob: Bytes, off: nat, s: Bytes)
    requires off + |s| <= |blob| && blob[off..off + |s|] == s
    ensures s <= blob[off..]
  {
    assert blob[off..][..|s|] == blob[off..off + |s|];
  }

  lemma PropertyFlagsOnly(base: Bytes, pos: nat, strs: Bytes, v: Version, w: Version)
    requires v.varAlign == w.varAlign
    ensures ReadProperty(base, pos, strs, v) == ReadProperty(base, pos, strs, w)
  {
  }

  /** The reader looks at no more of a version than its two flags. */
  lemma {:induction false} FlagsOnly(base: Bytes, pos: nat, strs: Bytes, parent: Bytes, v: Version, w: Version)
    requires v.fullPath == w.fullPath && v.varAlign == w.varAlign
    ensures UnflattenTree(base, pos, strs, parent, v) == UnflattenTree(base, pos, strs, parent, w)
    decreases |base| - pos, 1
  {
    var flat := ReadString(base, pos);
    if flat.Some? {
      var name := if v.fullPath then NodeNameFromPath(parent, flat.value.0) else Some(flat.value.0);
      if name.Some? {
        BodyFlagsOnly(base, flat.value.1, strs, flat.value.0, v, w, Node(name.value, false, [], []));
      }
    }
  }

  lemma {:induction false} BodyFlagsOnly(base: Bytes, pos: nat, strs: Bytes, flat: Bytes, v: Version, w: Version, node: Node)
    requires v.fullPath == w.fullPath && v.varAlign == w.varAlign
    ensures UnflattenBody(base, pos, strs, flat, v, node) == UnflattenBody(base, pos, strs, flat, w, node)
    decreases |base| - pos, 0
  {
    var tag := ReadWord(base, pos);
    if tag.Some? {
      if tag.value.0 == PROP {
        var prop := ReadProperty(base, tag.value.1, strs, v);
        PropertyFlagsOnly(base, tag.value.1, strs, v, w);
        if prop.Some? {
          BodyFlagsOnly(base, prop.value.1, strs, flat, v, w, node.(props := node.props + [prop.value.0]));
        }
      } else if tag.value.0 == BEGIN_NODE {
        var c := UnflattenTree(base, tag.value.1, strs, flat, v);
        FlagsOnly(base, tag.value.1, strs, flat, v, w);
        if c.Some? {
          BodyFlagsOnly(base, c.value.1, strs, flat, v, w, node.(children := node.children + [c.value.0]));
        }
      } else if tag.value.0 == NOP {
        BodyFlagsOnly(base, tag.value.1, strs, flat, v, w, node);
      }
    }
  }

  /** The structure block, read with the strings, is the live part of the tree. */
  lemma StructRoundTrip(tree: Node, v: Version, base: Bytes, strs: Bytes)
    requires v in VERSIONS && !tree.deleted && GoodNode(tree, true, v)
    requires
      var b := FlattenTree(Bufs([], []), tree, [], v);
      Fits(b) && EmitCell(b.dt, END) <= base && b.str <= strs
    ensures ReadStruct(base, strs, ReaderVersion(v.version)) == Some(LiveNode(tree, v))
  {
    var b0 := Bufs([], []);
    var b := FlattenTree(b0, tree, [], v);
    VersionsConsistent(v);
    PrefixTransitive(b.dt, EmitCell(b.dt, END), base);
    TreeRoundTrip(base, strs, b0, tree, [], v);
    ReadCell(base, b.dt, END);
    VersionFlags(v);
    FlagsOnly(base, 4, strs, [], v, ReaderVersion(v.version));
  }

  /** A deleted root writes nothing that can be read. */
  lemma DeletedRoot(tree: Node, v: Version, base: Bytes, strs: Bytes)
    requires v in VERSIONS && tree.deleted && EmitCell(FlattenTree(Bufs([], []), tree, [], v).dt, END) <= base
    ensures ReadStruct(base, strs, ReaderVersion(v.version)) == None
  {
    ReadCell(base, [], END);
  }

  predicate GoodInfo(info: Info, v: Version) {
    GoodNode(info.tree, true, v) && info.bootCpuId < CELLS && forall e :: e in info.reserves ==> GoodReserve(e)
  }

  /** What a version's blob keeps. */
  function Kept(info: Info, v: Version): Info {
    Info(UpToEmpty(info.reserves), LiveNode(info.tree, v), if v.bootCpuId then info.bootCpuId else 0)
  }

  lemma StructFound(p: Pieces, tree: Node, v: Version, strs: Bytes)
    requires v in VERSIONS && GoodNode(tree, true, v) && OffsetsAgree(p) && p.str <= strs
    requires
      var b := FlattenTree(Bufs([], []), tree, [], v);
      Fits(b) && p.dt == EmitCell(b.dt, END) && p.str == b.str
    ensures p.header.offStruct <= |Assemble(p)|
    ensures ReadStruct(Assemble(p)[p.header.offStruct..], strs, ReaderVersion(v.version)) ==
            if tree.deleted then None else Some(LiveNode(tree, v))
  {
    BlocksLieAtOffsets(p);
    PrefixOfTail(Assemble(p), p.header.offStruct, p.dt);
    var base := Assemble(p)[p.header.offStruct..];
    if tree.deleted { DeletedRoot(tree, v, base, strs); } else { StructRoundTrip(tree, v, base, strs); }
  }

  lemma ReservesFound(p: Pieces, rs: seq<Reserve>, n: nat)
    requires OffsetsAgree(p) && p.reserves == Entries(rs + Slots(n)) && forall e :: e in rs ==> GoodReserve(e)
    ensures ReadReserves(Assemble(p), p.header.offReserve) == Some(UpToEmpty(rs))
  {
    BlocksLieAtOffsets(p);
    var all := rs + Slots(n);
    assert forall e :: e in all ==> e in rs || e == Reserve(0, 0);
    ReservesRoundTrip(Assemble(p), p.header.offReserve, all);
    SlotsAreInvisible(rs, n);
  }

  lemma Parses(blob: Bytes, p: Pieces, strs: Bytes, reserves: seq<Reserve>, tree: Option<Node>)
    requires Fitting(p) && OffsetsAgree(p) && HeaderFound(blob, p) && |blob| == p.header.totalsize && |p.dt| > 0
    requires StringsBlock(blob, p.header.offStrings, p.v.version) == Some(strs)
    requires ReadReserves(blob, p.header.offReserve) == Some(reserves)
    requires ReadStruct(blob[p.header.offStruct..], strs, ReaderVersion(p.v.version)) == tree
    ensures ParseBlob(blob) ==
            if tree.None? then None
            else Some(Info(reserves, tree.value, if p.v.bootCpuId then p.header.bootCpuId else 0))
  {
    VersionFlags(p.v);
  }

  lemma FileStartsWith(blob: Bytes, rest: Bytes)
    requires |blob| >= 40 && Word(blob, 0) == MAGIC && Word(blob, 1) == |blob|
    ensures FromBlob(blob + rest) == ParseBlob(blob)
  {
    WordOfPrefix(blob, blob + rest, 0);
    WordOfPrefix(blob, blob + rest, 1);
    assert (blob + rest)[..|blob|] == blob;
  }

  lemma PiecesRoundTrip(p: Pieces, info: Info, v: Version, n: nat)
    requires Fitting(p) && p.v == v && p.header.totalsize < CELLS && GoodInfo(info, v)
    requires p.reserves == Entries(info.reserves + Slots(n))
    requires v.bootCpuId ==> p.header.bootCpuId == info.bootCpuId
    requires !v.bootCpuId ==> p.header.bootCpuId == UNSET
    requires
      var b := FlattenTree(Bufs([], []), info.tree, [], v);
      p.dt == EmitCell(b.dt, END) && p.str == b.str
    ensures HeaderFound(Assemble(p), p) && |Assemble(p)| == p.header.totalsize
    ensures ParseBlob(Assemble(p)) == if info.tree.deleted then None else Some(Kept(info, v))
  {
    var blob := Assemble(p);
    OffsetsFit(p);
    BlocksLieAtOffsets(p);
    HeaderReads(p);
    StringsFound(p);
    var strs := StringsBlock(blob, p.header.offStrings, v.version).value;
    StructFound(p, info.tree, v, strs);
    ReservesFound(p, info.reserves, n);
    Parses(blob, p, strs, UpToEmpty(info.reserves), if info.tree.deleted then None else Some(LiveNode(info.tree, v)));
  }

  /** Reading a written blob gives back what its version keeps, for every version, every
      padding and whatever follows in the file; only a deleted root cannot be read. */
  lemma BlobRoundTrip(info: Info, v: Version, o: Options, rest: Bytes)
    requires v in VERSIONS && GoodInfo(info, v) && |ToBlob(info, v, o)| < CELLS
    ensures FromBlob(ToBlob(info, v, o) + rest) == if info.tree.deleted then None else Some(Kept(info, v))
  {
    var p := PiecesOf(info, v, o);
    PiecesFit(info, v, o);
    OffsetsFit(p);
    BlocksLieAtOffsets(p);
    PiecesRoundTrip(p, info, v, o.reservenum);
    FileStartsWith(ToBlob(info, v, o), rest);
  }

  /** A blob as a whole: as long as its header says, its blocks disjoint and in order behind
      the header, the structure block on a multiple of 8. */
  predicate LaidOut(blob: Bytes, p: Pieces) {
    var h := p.header;
    |blob| == h.totalsize && p.v.headerSize <= h.offReserve && h.offReserve % 8 == 0 && h.offStruct % 8 == 0 &&
    h.offReserve + |p.reserves| + ENTRY_SIZE == h.offStruct && h.offStruct + |p.dt| == h.offStrings &&
    h.offStrings + |p.str| <= |blob| &&
    blob[h.offReserve..h.offStruct] == p.reserves + Zeroes(ENTRY_SIZE) &&
    blob[h.offStruct..h.offStrings] == p.dt && blob[h.offStrings..h.offStrings + |p.str|] == p.str
  }

  lemma PiecesLaidOut(p: Pieces)
    requires Fitting(p)
    ensures LaidOut(Assemble(p), p)
  {
    OffsetsFit(p);
    BlocksLieAtOffsets(p);
  }

  /** The padding is that for the size without it. */
  predicate Pads(p: Pieces, o: Options) {
    p.padlen <= p.header.totalsize && p.padlen == PadLength(p.header.totalsize - p.padlen, o)
  }

  predicate Padded(p: Pieces, o: Options) {
    p.padlen <= p.header.totalsize && PaddedAsAsked(p.header.totalsize, p.header.totalsize - p.padlen, o)
  }

  lemma MadePad(v: Version, reserves: Bytes, dt: Bytes, str: Bytes, bootCpuId: nat, o: Options)
    ensures Pads(MakePieces(v, reserves, dt, str, bootCpuId, o), o)
  {
  }

  lemma PiecesPad(info: Info, v: Version, o: Options)
    ensures Pads(PiecesOf(info, v, o), o)
  {
    var b := FlattenTree(Bufs([], []), info.tree, [], v);
    MadePad(v, Entries(info.reserves + Slots(o.reservenum)), EmitCell(b.dt, END), b.str, info.bootCpuId, o);
  }

  lemma PadsPadded(p: Pieces, o: Options)
    requires Pads(p, o)
    ensures Padded(p, o)
  {
    PaddedSize(p.header.totalsize - p.padlen, o);
  }

  /** Every blob is laid out so, its size padded as asked. */
  lemma BlobLayout(info: Info, v: Version, o: Options)
    requires v in VERSIONS
    ensures LaidOut(ToBlob(info, v, o), PiecesOf(info, v, o)) && Padded(PiecesOf(info, v, o), o)
  {
    PiecesFit(info, v, o);
    PiecesLaidOut(PiecesOf(info, v, o));
    PiecesPad(info, v, o);
    PadsPadded(PiecesOf(info, v, o), o);
  }
}
