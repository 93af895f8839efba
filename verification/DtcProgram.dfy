/** The two entry points of the back end as they run: a tree to a blob and back. */
module DtcProgram {
  import opened DtcTree
  import opened DtcWrite
  import opened DtcRead
  import opened DtcBuffers
  import opened DtcBlob
  import opened Wrappers

  lemma {:induction false} EntriesAppend(rs: seq<Reserve>, e: Reserve)
    ensures Entries(rs + [e]) == Entries(rs) + Entry(e)
  {
    if rs == [] {
      assert [] + [e] == [e] && [e][1..] == [] && Entry(e) + [] == Entry(e) == [] + Entry(e);
    } else {
      assert (rs + [e])[1..] == rs[1..] + [e];
      EntriesAppend(rs[1..], e);
      Associates(Entry(rs[0]), Entries(rs[1..]), Entry(e));
    }
  }

  lemma EntryStep(rs: seq<Reserve>, i: nat)
    requires i < |rs|
    ensures Entries(rs[..i + 1]) == Entries(rs[..i]) + Entry(rs[i])
  {
    assert rs[..i + 1] == rs[..i] + [rs[i]];
    EntriesAppend(rs[..i], rs[i]);
  }

  lemma SlotStep(rs: seq<Reserve>, j: nat)
    ensures Entries(rs + Slots(j + 1)) == Entries(rs + Slots(j)) + Entry(Reserve(0, 0))
  {
    assert rs + Slots(j + 1) == (rs + Slots(j)) + [Reserve(0, 0)];
    EntriesAppend(rs + Slots(j), Reserve(0, 0));
  }

  method AppendRe(d: Bytes, address: nat, size: nat) returns (r: Bytes)
    ensures r == d + Entry(Reserve(address, size))
  {
    r := d + (Quad(address) + Quad(size));
  }

  method FlattenReserveList(rs: seq<Reserve>, reservenum: nat) returns (d: Bytes)
    ensures d == Entries(rs + Slots(reservenum))
  {
    d := [];
    for i := 0 to |rs|
      invariant d == Entries(rs[..i])
    {
      EntryStep(rs, i);
      d := AppendRe(d, rs[i].address, rs[i].size);
    }
    assert rs[..|rs|] == rs + Slots(0);
    for j := 0 to reservenum
      invariant d == Entries(rs + Slots(j))
    {
      SlotStep(rs, j);
      d := AppendRe(d, 0, 0);
    }
  }

  /** A row of the version table, or none. */
  method FindVersion(version: nat) returns (vi: Option<Version>)
    ensures vi.Some? <==> exists v :: v in VERSIONS && v.version == version
    ensures vi.Some? ==> vi.value in VERSIONS && vi.value.version == version
  {
    vi := None;
    for i := 0 to |VERSIONS|
      invariant vi.Some? <==> exists k :: 0 <= k < i && VERSIONS[k].version == version
      invariant vi.Some? ==> vi.value in VERSIONS && vi.value.version == version
    {
      if VERSIONS[i].version == version { vi := Some(VERSIONS[i]); }
    }
    if vi.None? {
      forall v | v in VERSIONS ensures v.version != version {
        var k :| 0 <= k < |VERSIONS| && VERSIONS[k] == v;
      }
    }
  }

  method Padding(totalsize: nat, o: Options) returns (padlen: nat)
    ensures padlen == PadLength(totalsize, o)
  {
    var len := 0;
    if o.minsize > 0 {
      len := o.minsize - totalsize;
      if len < 0 { len := 0; }
    }
    if o.padsize > 0 { len := o.padsize; }
    if o.alignsize > 0 { len := Align(totalsize + len, o.alignsize) - totalsize; }
    padlen := len;
  }

  method PutTogether(p: Pieces) returns (blob: Bytes)
    requires p.v.headerSize <= 40
    ensures blob == Assemble(p)
  {
    blob := CellsOf(HeaderWords(p.header))[..p.v.headerSize];
    blob := EmitAlign(blob, 8);
    blob := blob + p.reserves;
    blob := blob + Zeroes(ENTRY_SIZE);
    blob := blob + p.dt;
    blob := blob + p.str;
    if p.padlen > 0 { blob := blob + Zeroes(p.padlen); } else { assert blob + Zeroes(0) == blob; }
  }

  method AddHeader(vi: Version, reservebuf: Bytes, dtbuf: Bytes, strbuf: Bytes, bootCpuId: nat, o: Options) returns (p: Pieces)
    ensures p == MakePieces(vi, reservebuf, dtbuf, strbuf, bootCpuId, o)
  {
    var fdt := MakeHeader(vi, |reservebuf|, |dtbuf|, |strbuf|, bootCpuId);
    var padlen := Padding(fdt.totalsize, o);
    if padlen > 0 { fdt := fdt.(totalsize := fdt.totalsize + padlen); }
    p := Pieces(fdt, vi, reservebuf, dtbuf, strbuf, padlen);
  }

  method DtToBlob(info: Info, vi: Version, o: Options) returns (blob: Bytes)
    requires vi in VERSIONS
    ensures blob == ToBlob(info, vi, o)
  {
    var e := new Flattener();
    e.FlattenNode(info.tree, [], vi);
    e.BinEmitCell(END);
    var reservebuf := FlattenReserveList(info.reserves, o.reservenum);
    var p := AddHeader(vi, reservebuf, e.dtbuf, e.strbuf, info.bootCpuId, o);
    blob := PutTogether(p);
  }

  method ReadMemReserve(inb: Inbuf) returns (rs: Option<seq<Reserve>>)
    modifies inb`ptr
    ensures rs == ReadReserves(inb.base, old(inb.ptr))
  {
    var list := [];
    ghost var want := ReadReserves(inb.base, inb.ptr);
    PrependedNone(want);
    while true
      invariant want == Prepended(list, ReadReserves(inb.base, inb.ptr))
      decreases |inb.base| - inb.ptr
    {
      ghost var pos := inb.ptr;
      var re := inb.Chunk(ENTRY_SIZE);
      if re.None? { return None; }
      var address := QuadValue(re.value[..8]);
      var size := QuadValue(re.value[8..]);
      ChunkHalves(inb.base, pos);
      if size == 0 {
        assert list + [] == list;
        return Some(list);
      }
      PrependedStep(list, Reserve(address, size), ReadReserves(inb.base, inb.ptr));
      list := list + [Reserve(address, size)];
    }
  }

  function Prepended(list: seq<Reserve>, rest: Option<seq<Reserve>>): Option<seq<Reserve>> {
    if rest.None? then None else Some(list + rest.value)
  }

  lemma PrependedNone(rest: Option<seq<Reserve>>)
    ensures Prepended([], rest) == rest
  {
    if rest.Some? { assert [] + rest.value == rest.value; }
  }

  lemma PrependedStep(list: seq<Reserve>, e: Reserve, rest: Option<seq<Reserve>>)
    ensures Prepended(list + [e], rest) == Prepended(list, Prepended([e], rest))
  {
    if rest.Some? { assert list + [e] + rest.value == list + ([e] + rest.value); }
  }

  lemma ChunkHalves(base: Bytes, pos: nat)
    requires pos + ENTRY_SIZE <= |base|
    ensures base[pos..pos + ENTRY_SIZE][..8] == base[pos..pos + 8]
    ensures base[pos..pos + ENTRY_SIZE][8..] == base[pos + 8..pos + 16]
  {
  }

  method ReadDtStruct(dtbuf: Inbuf, strbuf: Inbuf, v: Version) returns (tree: Option<Node>)
    requires dtbuf.ptr == 0
    modifies dtbuf`ptr
    ensures tree == ReadStruct(dtbuf.base, strbuf.base, v)
  {
    tree := None;
    var tag := dtbuf.Word();
    if tag.None? || tag.value != BEGIN_NODE { return; }
    var found := dtbuf.UnflattenNode(strbuf, [], v);
    if found.None? { return; }
    tag := dtbuf.Word();
    if tag.None? || tag.value != END { return; }
    tree := found;
  }

  method FindStrings(blob: Bytes, offStr: nat, version: nat) returns (strs: Option<Bytes>)
    requires offStr <= |blob| && |blob| >= 40
    ensures strs == StringsBlock(blob, offStr, version)
  {
    if version >= 3 {
      var sizeStr := Word(blob, 8);
      if offStr + sizeStr > |blob| { return None; }
      return Some(blob[offStr..offStr + sizeStr]);
    }
    strs := Some(blob[offStr..]);
  }

  method DtFromMemory(blob: Bytes) returns (info: Option<Info>)
    requires |blob| >= 40
    ensures info == ParseBlob(blob)
  {
    info := None;
    var offDt, offStr, offReserve, version := Word(blob, 2), Word(blob, 3), Word(blob, 4), Word(blob, 5);
    if offReserve >= |blob| || offDt >= |blob| || offStr > |blob| { return; }
    var strs := FindStrings(blob, offStr, version);
    if strs.None? { return; }
    if version >= 17 {
      var sizeDt := Word(blob, 9);
      if offDt + sizeDt > |blob| { return; }
    }
    var strbuf := new Inbuf(strs.value);
    var memresvbuf := new Inbuf(blob);
    memresvbuf.ptr := offReserve;
    var dtbuf := new Inbuf(blob[offDt..]);
    var reserves := ReadMemReserve(memresvbuf);
    if reserves.None? { return; }
    var tree := ReadDtStruct(dtbuf, strbuf, ReaderVersion(version));
    if tree.None? { return; }
    info := Some(Info(reserves.value, tree.value, Word(blob, 7)));
  }

  method DtFromBlob(file: Bytes) returns (info: Option<Info>)
    ensures info == FromBlob(file)
  {
    info := None;
    if |file| < 4 || Word(file, 0) != MAGIC { return; }
    if |file| < 8 { return; }
    var totalsize := Word(file, 1);
    if totalsize < 40 || |file| < totalsize { return; }
    info := DtFromMemory(file[..totalsize]);
  }
}
