/** Appending the sections __mcount_loc and .rel[a]__mcount_loc to an ELF file. */
module RecordmcountAppend {
  import opened RecordmcountFile
  import opened Wrappers

  // ----- Numbers in either byte order -----

  /** The word size in bytes and the byte order. */
  datatype Class = Class(wide: bool, big: bool)

  function W(c: Class): (w: nat)
    ensures w == 4 || w == 8
  {
    if c.wide then 8 else 4
  }

  function Little(v: nat, n: nat): (b: Bytes)
    ensures |b| == n
  {
    if n == 0 then [] else [v % 256] + Little(v / 256, n - 1)
  }

  function LittleValue(b: Bytes): nat {
    if b == [] then 0 else b[0] as nat + 256 * LittleValue(b[1..])
  }

  function Flipped(b: Bytes): (r: Bytes)
    ensures |r| == |b|
  {
    if b == [] then [] else Flipped(b[1..]) + [b[0]]
  }

  /** The number fits n bytes. */
  predicate Fits(v: nat, n: nat) {
    if n == 0 then v == 0 else Fits(v / 256, n - 1)
  }

  function Enc(c: Class, v: nat, n: nat): (b: Bytes)
    ensures |b| == n
  {
    if c.big then Flipped(Little(v, n)) else Little(v, n)
  }

  function Dec(c: Class, b: Bytes): nat {
    LittleValue(if c.big then Flipped(b) else b)
  }

  lemma {:induction false} FlippedSnoc(b: Bytes, x: Byte)
    ensures Flipped(b + [x]) == [x] + Flipped(b)
  {
    if b == [] {
      assert [] + [x] == [x] && [x][1..] == [];
    } else {
      assert (b + [x])[1..] == b[1..] + [x];
      FlippedSnoc(b[1..], x);
      assert [x] + Flipped(b[1..]) + [b[0]] == [x] + (Flipped(b[1..]) + [b[0]]);
    }
  }

  lemma {:induction false} FlippedTwice(b: Bytes)
    ensures Flipped(Flipped(b)) == b
  {
    if b != [] {
      FlippedTwice(b[1..]);
      FlippedSnoc(Flipped(b[1..]), b[0]);
    }
  }

  lemma {:induction false} LittleRoundTrip(v: nat, n: nat)
    requires Fits(v, n)
    ensures LittleValue(Little(v, n)) == v
  {
    if n > 0 {
      LittleRoundTrip(v / 256, n - 1);
      assert Little(v, n)[1..] == Little(v / 256, n - 1);
    }
  }

  lemma DecEnc(c: Class, v: nat, n: nat)
    requires Fits(v, n)
    ensures Dec(c, Enc(c, v, n)) == v
  {
    LittleRoundTrip(v, n);
    FlippedTwice(Little(v, n));
  }

  // ----- Headers -----

  datatype Shdr = Shdr(name: nat, stype: nat, flags: nat, addr: nat, offset: nat, size: nat,
                       link: nat, info: nat, addralign: nat, entsize: nat)

  function ShSize(c: Class): nat {
    if c.wide then 64 else 40
  }

  function EhSize(c: Class): nat {
    if c.wide then 64 else 52
  }

  /** The length of a header table. */
  function TableBytes(c: Class, n: nat): nat {
    if c.wide then 64 * n else 40 * n
  }

  /** A section header in file order. */
  function Encode(c: Class, s: Shdr): (b: Bytes)
    ensures |b| == ShSize(c)
  {
    var w := W(c);
    Enc(c, s.name, 4) + (Enc(c, s.stype, 4) + (Enc(c, s.flags, w) + (Enc(c, s.addr, w) + (Enc(c, s.offset, w) +
    (Enc(c, s.size, w) + (Enc(c, s.link, 4) + (Enc(c, s.info, 4) + (Enc(c, s.addralign, w) + (Enc(c, s.entsize, w) + [])))))))))
  }

  /** Where offset and size stand in a section header. */
  function OffsetAt(c: Class): nat {
    if c.wide then 24 else 16
  }

  function SizeAt(c: Class): nat {
    if c.wide then 32 else 20
  }

  /** Where e_shoff and e_shnum stand in the file header. */
  function ShoffAt(c: Class): nat {
    if c.wide then 40 else 32
  }

  function ShnumAt(c: Class): nat {
    if c.wide then 60 else 48
  }

  function Word(c: Class, m: Bytes, at: nat): nat
    requires at + W(c) <= |m|
  {
    Dec(c, m[at..at + W(c)])
  }

  function Half(c: Class, m: Bytes, at: nat): nat
    requires at + 2 <= |m|
  {
    Dec(c, m[at..at + 2])
  }

  /** Bytes replaced in place. */
  function Poked(m: Bytes, at: nat, b: Bytes): (r: Bytes)
    requires at + |b| <= |m|
    ensures |r| == |m|
  {
    m[..at] + b + m[at + |b|..]
  }

  // ----- What is appended -----

  const REL: Bytes := [46, 114, 101, 108]
  const RELA: Bytes := [46, 114, 101, 108, 97]
  const MCOUNT_LOC: Bytes := [95, 95, 109, 99, 111, 117, 110, 116, 95, 108, 111, 99]

  const SHT_PROGBITS: nat := 1
  const SHT_RELA: nat := 4
  const SHT_REL: nat := 9
  const SHF_ALLOC: nat := 2

  /** What append_func is called with: the place of the header of the section name table, the
      two new sections, the size of a relocation and the symbol table they refer to. */
  datatype Request = Request(shstr: nat, mloc: Bytes, mrel: Bytes, relEntsize: nat, symLink: nat)

  predicate Rela(c: Class, q: Request) {
    q.relEntsize == if c.wide then 24 else 12
  }

  function McName(c: Class, q: Request): Bytes {
    (if Rela(c, q) then RELA else REL) + MCOUNT_LOC
  }

  /** The numbers read from the headers. */
  datatype Old = Old(shnum: nat, shoff: nat, size: nat, offset: nat)

  predicate InBounds(c: Class, m: Bytes, q: Request) {
    EhSize(c) <= |m| && q.shstr + ShSize(c) <= |m| &&
    Word(c, m, q.shstr + OffsetAt(c)) + Word(c, m, q.shstr + SizeAt(c)) <= |m| &&
    Word(c, m, ShoffAt(c)) + TableBytes(c, Half(c, m, ShnumAt(c))) <= |m|
  }

  function OldOf(c: Class, m: Bytes, q: Request): Old
    requires InBounds(c, m, q)
  {
    Old(Half(c, m, ShnumAt(c)), Word(c, m, ShoffAt(c)), Word(c, m, q.shstr + SizeAt(c)), Word(c, m, q.shstr + OffsetAt(c)))
  }

  function Up4(t: nat): (r: nat)
    ensures t <= r < t + 4
  {
    if t % 4 == 0 then t else t + (4 - t % 4)
  }

  function Up8(t: nat): (r: nat)
    ensures t <= r < t + 8
  {
    if t % 8 == 0 then t else t + (8 - t % 8)
  }

  lemma UpAligned(t: nat)
    ensures Up4(t) % 4 == 0 && Up8(t) % 8 == 0
  {
  }

  /** To the next multiple of the word size. */
  function AlignUp(t: nat, c: Class): (r: nat)
    ensures t <= r < t + W(c)
  {
    if c.wide then Up8(t) else Up4(t)
  }

  function NewStrSize(c: Class, q: Request, old_: Old): nat {
    1 + |McName(c, q)| + old_.size
  }

  function NewShoff(c: Class, n: nat, q: Request, old_: Old): nat {
    AlignUp(n + NewStrSize(c, q, old_), c)
  }

  /** Behind the new header table. */
  function DataAt(c: Class, n: nat, q: Request, old_: Old): nat {
    NewShoff(c, n, q, old_) + TableBytes(c, old_.shnum) + 2 * ShSize(c)
  }

  function LocHeader(c: Class, n: nat, q: Request, old_: Old): Shdr {
    Shdr((if Rela(c, q) then 1 else 0) + |REL| + old_.size, SHT_PROGBITS, SHF_ALLOC, 0,
         DataAt(c, n, q, old_), |q.mloc|, 0, 0, W(c), W(c))
  }

  function RelHeader(c: Class, n: nat, q: Request, old_: Old): Shdr {
    Shdr(old_.size, if Rela(c, q) then SHT_RELA else SHT_REL, 0, 0,
         DataAt(c, n, q, old_) + |q.mloc|, |q.mrel|, q.symLink, old_.shnum, W(c), q.relEntsize)
  }

  /** The input after the section name table has been redirected behind its end. */
  function Redirected(c: Class, m: Bytes, q: Request): (r: Bytes)
    requires InBounds(c, m, q)
    ensures |r| == |m|
  {
    var o := OldOf(c, m, q);
    Poked(Poked(m, q.shstr + SizeAt(c), Enc(c, NewStrSize(c, q, o), W(c))), q.shstr + OffsetAt(c), Enc(c, |m|, W(c)))
  }

  /** And after the file header points to the new header table. */
  function Repointed(c: Class, m: Bytes, shoff: nat, shnum: nat): (r: Bytes)
    requires EhSize(c) <= |m|
    ensures |r| == |m|
  {
    Poked(Poked(m, ShoffAt(c), Enc(c, shoff, W(c))), ShnumAt(c), Enc(c, shnum, 2))
  }

  function Gap(n: nat): (g: Image)
    ensures |g| == n
  {
    seq(n, _ => None)
  }

  function GapSize(c: Class, n: nat, q: Request, old_: Old): (g: nat)
    ensures n + NewStrSize(c, q, old_) + g == NewShoff(c, n, q, old_)
  {
    NewShoff(c, n, q, old_) - (n + NewStrSize(c, q, old_))
  }

  /** The blocks of the file written, in order. */
  datatype Parts = Parts(front: Bytes, names: Bytes, gap: nat, table: Bytes, loc: Bytes, rel: Bytes, mloc: Bytes, mrel: Bytes)

  /** The blocks made from the redirected file r. */
  function MakeParts(c: Class, q: Request, old_: Old, r: Bytes): (p: Parts)
    requires EhSize(c) <= |r| && old_.offset + old_.size <= |r| && old_.shoff + TableBytes(c, old_.shnum) <= |r|
    ensures |r| + |p.names| + p.gap == NewShoff(c, |r|, q, old_) && p.names != []
    ensures p.front == Repointed(c, r, NewShoff(c, |r|, q, old_), 2 + old_.shnum)
  {
    Parts(Repointed(c, r, NewShoff(c, |r|, q, old_), 2 + old_.shnum),
      r[old_.offset..old_.offset + old_.size] + (McName(c, q) + [0]), GapSize(c, |r|, q, old_),
      r[old_.shoff..old_.shoff + TableBytes(c, old_.shnum)],
      Encode(c, LocHeader(c, |r|, q, old_)), Encode(c, RelHeader(c, |r|, q, old_)), q.mloc, q.mrel)
  }

  function PartsOf(c: Class, m: Bytes, q: Request): Parts
    requires InBounds(c, m, q)
  {
    MakeParts(c, q, OldOf(c, m, q), Redirected(c, m, q))
  }

  function Behind(p: Parts): Image {
    Cells(p.names) + Gap(p.gap) + Cells(p.table + p.loc + p.rel) + Cells(p.mloc) + Cells(p.mrel)
  }

  /** The file written. */
  function Appended(p: Parts): Image {
    Cells(p.front) + Behind(p)
  }

  // ----- Appending as it runs -----

  lemma WrittenAtEnd(img: Image, b: Bytes)
    ensures Written(img, |img|, b) == img + Cells(b)
  {
  }

  lemma WrittenBehindGap(img: Image, gap: nat, b: Bytes)
    ensures Written(img, |img| + gap, b) == img + Gap(gap) + Cells(b)
  {
  }

  lemma WrittenInside(a: Image, b: Image, pos: nat, x: Bytes)
    requires pos + |x| <= |a|
    ensures Written(a + b, pos, x) == Written(a, pos, x) + b
  {
  }

  lemma PokedCells(m: Bytes, pos: nat, x: Bytes)
    requires pos + |x| <= |m|
    ensures Written(Cells(m), pos, x) == Cells(Poked(m, pos, x))
  {
  }

  lemma WrittenOver(m: Bytes, n: nat)
    requires n <= |m|
    ensures Written(Cells(m), 0, m[..n]) == Cells(m)
  {
  }

  lemma CellsJoin(a: Bytes, b: Bytes)
    ensures Cells(a + b) == Cells(a) + Cells(b)
  {
  }

  /** Nothing but the pointer, the bytes and the buffer behind them may differ. */
  twostate predicate Going(f: OutFile)
    reads f, f.map_, f.append
  {
    f.Valid() && f.map_ == old(f.map_) && (f.append == old(f.append) || fresh(f.append))
  }

  /** Write on at the end of the file. */
  method WriteOn(f: OutFile, buf: Bytes)
    requires f.Valid() && f.append != null && f.ptr == |f.img|
    modifies f, f.map_, f.append
    ensures Going(f) && f.updated && f.append != null && f.ptr == |f.img|
    ensures f.img == old(f.img) + Cells(buf)
  {
    WrittenAtEnd(f.img, buf);
    var ok := f.Write(buf);
  }

  /** The old names and the new one; impossible only if there are no old names. */
  method WriteNames(f: OutFile, body: Bytes, name: Bytes) returns (ok: bool)
    requires f.Valid() && f.append == null && |f.img| == f.map_.Length
    modifies f, f.map_
    ensures Going(f) && f.updated
    ensures ok <==> body != []
    ensures ok ==> f.append != null && f.ptr == |f.img| && f.img == old(f.img) + Cells(body + (name + [0]))
  {
    ok := f.Seek(f.map_.Length, Set);
    WrittenAtEnd(f.img, body);
    ok := f.Write(body);
    if !ok { return; }
    WriteOn(f, name + [0]);
    CellsJoin(body, name + [0]);
    AppendTwice(old(f.img), Cells(body), Cells(name + [0]));
  }

  lemma AppendTwice(a: Image, b: Image, c: Image)
    ensures a + b + c == a + (b + c)
  {
  }

  /** The header table behind the gap. */
  method WriteTable(f: OutFile, at: nat, table: Bytes, h1: Bytes, h2: Bytes)
    requires f.Valid() && f.append != null && |f.img| <= at
    modifies f, f.map_, f.append
    ensures Going(f) && f.updated && f.append != null && f.ptr == |f.img|
    ensures f.img == old(f.img) + Gap(at - |old(f.img)|) + Cells(table + h1 + h2)
  {
    var gap := at - |f.img|;
    var ok := f.Seek(at, Set);
    WrittenBehindGap(f.img, gap, table);
    ok := f.Write(table);
    WriteOn(f, h1);
    WriteOn(f, h2);
    CellsJoin(table, h1);
    CellsJoin(table + h1, h2);
    Fourfold(old(f.img) + Gap(gap), Cells(table), Cells(h1), Cells(h2));
  }

  lemma Fourfold(a: Image, b: Image, c: Image, d: Image)
    ensures a + b + c + d == a + (b + c + d)
  {
  }

  /** Store bytes directly in the mapped file. */
  method Poke(f: OutFile, at: nat, b: Bytes, ghost m: Bytes, ghost rest: Image)
    requires f.Valid() && at + |b| <= f.map_.Length == |m| && f.img == Cells(m) + rest
    modifies f, f.map_
    ensures Going(f) && f.append == old(f.append) && f.img == Cells(Poked(m, at, b)) + rest
  {
    WrittenInside(Cells(m), rest, at, b);
    PokedCells(m, at, b);
    f.CopyToMap(at, b);
  }

  method Redirect(f: OutFile, c: Class, q: Request, old_: Old, ghost m: Bytes)
    requires f.Valid() && f.img == Cells(m) && f.map_.Length == |m| && InBounds(c, m, q) && old_ == OldOf(c, m, q)
    modifies f, f.map_
    ensures Going(f) && f.append == old(f.append) && f.img == Cells(Redirected(c, m, q))
  {
    var size, offset := Enc(c, NewStrSize(c, q, old_), W(c)), Enc(c, f.map_.Length, W(c));
    assert Cells(m) + [] == Cells(m);
    Poke(f, q.shstr + SizeAt(c), size, m, []);
    ghost var m' := Poked(m, q.shstr + SizeAt(c), size);
    Poke(f, q.shstr + OffsetAt(c), offset, m', []);
    assert Cells(Redirected(c, m, q)) + [] == Cells(Redirected(c, m, q));
  }

  method Repoint(f: OutFile, c: Class, shoff: nat, shnum: nat, ghost m: Bytes, ghost rest: Image)
    requires f.Valid() && f.append != null && f.map_.Length == |m| >= EhSize(c) && f.img == Cells(m) + rest && rest != []
    modifies f, f.map_, f.append
    ensures Going(f) && f.updated && f.img == Cells(Repointed(c, m, shoff, shnum)) + rest
  {
    Poke(f, ShoffAt(c), Enc(c, shoff, W(c)), m, rest);
    ghost var m' := Poked(m, ShoffAt(c), Enc(c, shoff, W(c)));
    Poke(f, ShnumAt(c), Enc(c, shnum, 2), m', rest);
    ghost var m2 := Repointed(c, m, shoff, shnum);
    var ok := f.Seek(0, Set);
    var ehdr := f.map_[..EhSize(c)];
    SameBytes(f.map_[..], m2, rest, f.img);
    WrittenInside(Cells(m2), rest, 0, ehdr);
    WrittenOver(m2, EhSize(c));
    ok := f.Write(ehdr);
  }

  lemma SameBytes(a: Bytes, m: Bytes, rest: Image, img: Image)
    requires img == Cells(m) + rest && |a| == |m| && forall i :: 0 <= i < |a| ==> img[i] == Some(a[i])
    ensures a == m
  {
    forall i | 0 <= i < |a| ensures a[i] == m[i] {
      assert img[i] == Cells(m)[i];
    }
  }

  /** Everything behind the names, and the file header at last. */
  method FinishAppend(f: OutFile, c: Class, p: Parts, at: nat, shnum: nat, ghost m1: Bytes)
    requires f.Valid() && f.append != null && f.map_.Length == |m1| >= EhSize(c) && p.names != []
    requires f.img == Cells(m1) + Cells(p.names) && at == |m1| + |p.names| + p.gap
    requires p.front == Repointed(c, m1, at, shnum)
    modifies f, f.map_, f.append
    ensures Going(f) && f.updated && f.img == Appended(p)
  {
    WriteTable(f, at, p.table, p.loc, p.rel);
    WriteOn(f, p.mloc);
    WriteOn(f, p.mrel);
    Sixfold(Cells(m1), Cells(p.names), Gap(p.gap), Cells(p.table + p.loc + p.rel), Cells(p.mloc), Cells(p.mrel));
    Repoint(f, c, at, shnum, m1, Behind(p));
  }

  lemma Sixfold(a: Image, b: Image, g: Image, t: Image, x: Image, y: Image)
    ensures a + b + g + t + x + y == a + (b + g + t + x + y)
  {
  }

  lemma NothingBehind(a: Image)
    ensures a + [] == a
  {
  }

  predicate Fitting(c: Class, old_: Old, r: Bytes) {
    EhSize(c) <= |r| && old_.offset + old_.size <= |r| && old_.shoff + TableBytes(c, old_.shnum) <= |r|
  }

  function OldNames(old_: Old, r: Bytes): (b: Bytes)
    requires old_.offset + old_.size <= |r|
    ensures |b| == old_.size
  {
    r[old_.offset..old_.offset + old_.size]
  }

  /** Everything behind the names, from the redirected file r. */
  method AppendRest(f: OutFile, c: Class, q: Request, old_: Old, r: Bytes)
    requires f.Valid() && f.append != null && f.map_.Length == |r| && Fitting(c, old_, r)
    requires f.img == Cells(r) + Cells(OldNames(old_, r) + (McName(c, q) + [0]))
    modifies f, f.map_, f.append
    ensures Going(f) && f.updated && f.img == Appended(MakeParts(c, q, old_, r))
  {
    FinishAppend(f, c, MakeParts(c, q, old_, r), NewShoff(c, |r|, q, old_), 2 + old_.shnum, r);
  }

  /** The names, then the rest; r is the redirected file. */
  method AppendTo(f: OutFile, c: Class, q: Request, old_: Old, r: Bytes) returns (ok: bool)
    requires f.Valid() && f.append == null && f.map_.Length == |r| && f.img == Cells(r)
    requires Fitting(c, old_, r)
    modifies f, f.map_
    ensures Going(f) && f.updated
    ensures ok <==> old_.size > 0
    ensures ok ==> f.img == Appended(MakeParts(c, q, old_, r))
  {
    ok := WriteNames(f, OldNames(old_, r), McName(c, q));
    if !ok { return; }
    AppendRest(f, c, q, old_, r);
  }

  /** The whole of append_func.  It fails if and only if the section name table is empty. */
  method AppendFunc(f: OutFile, c: Class, q: Request, ghost m: Bytes) returns (ok: bool)
    requires f.Valid() && f.append == null && f.img == Cells(m) && InBounds(c, m, q)
    modifies f, f.map_
    ensures Going(f) && f.updated
    ensures ok <==> OldOf(c, m, q).size > 0
    ensures ok ==> f.img == Appended(PartsOf(c, m, q))
  {
    NothingBehind(Cells(m));
    var bytes := f.map_[..];
    SameBytes(bytes, m, [], f.img);
    var old_ := OldOf(c, bytes, q);
    Redirect(f, c, q, old_, m);
    NothingBehind(Cells(Redirected(c, m, q)));
    var r := f.map_[..];
    SameBytes(r, Redirected(c, m, q), [], f.img);
    ok := AppendTo(f, c, q, old_, r);
  }

  // ----- What the headers name -----

  /** The file holds these bytes at a place. */
  predicate Holds(img: Image, at: nat, b: Bytes) {
    at + |b| <= |img| && img[at..at + |b|] == Cells(b)
  }

  /** From i on the file is t. */
  predicate Suffix(img: Image, i: nat, t: Image) {
    i <= |img| && img[i..] == t
  }

  lemma SuffixStep(img: Image, i: nat, a: Image, t: Image)
    requires Suffix(img, i, a + t)
    ensures Suffix(img, i + |a|, t)
  {
    assert img[i + |a|..] == img[i..][|a|..];
    assert (a + t)[|a|..] == t;
  }

  lemma SuffixHolds(img: Image, i: nat, b: Bytes, t: Image)
    requires Suffix(img, i, Cells(b) + t)
    ensures Holds(img, i, b) && Suffix(img, i + |b|, t)
  {
    SuffixStep(img, i, Cells(b), t);
    assert img[i..i + |b|] == img[i..][..|b|];
    assert (Cells(b) + t)[..|b|] == Cells(b);
  }

  lemma RightNested(a: Image, b: Image, g: Image, t: Image, x: Image, y: Image)
    ensures a + (b + g + t + x + y) == a + (b + (g + (t + (x + (y + [])))))
  {
  }

  lemma TailPlaced(img: Image, i: nat, table: Bytes, mloc: Bytes, mrel: Bytes)
    requires Suffix(img, i, Cells(table) + (Cells(mloc) + (Cells(mrel) + [])))
    ensures Holds(img, i, table) && Holds(img, i + |table|, mloc) && Holds(img, i + |table| + |mloc|, mrel)
    ensures |img| == i + |table| + |mloc| + |mrel|
  {
    SuffixHolds(img, i, table, Cells(mloc) + (Cells(mrel) + []));
    SuffixHolds(img, i + |table|, mloc, Cells(mrel) + []);
    SuffixHolds(img, i + |table| + |mloc|, mrel, []);
  }

  lemma HeadPlaced(img: Image, front: Bytes, names: Bytes, gap: nat, t: Image)
    requires img == Cells(front) + (Cells(names) + (Gap(gap) + t))
    ensures Holds(img, 0, front) && Holds(img, |front|, names) && Suffix(img, |front| + |names| + gap, t)
  {
    assert img[0..] == img;
    SuffixHolds(img, 0, front, Cells(names) + (Gap(gap) + t));
    SuffixHolds(img, |front|, names, Gap(gap) + t);
    SuffixStep(img, |front| + |names|, Gap(gap), t);
  }

  /** Where each block of the file lies. */
  predicate Placed(img: Image, p: Parts) {
    var table, i := p.table + p.loc + p.rel, |p.front| + |p.names| + p.gap;
    Holds(img, 0, p.front) && Holds(img, |p.front|, p.names) && Holds(img, i, table) &&
    Holds(img, i + |table|, p.mloc) && Holds(img, i + |table| + |p.mloc|, p.mrel) &&
    |img| == i + |table| + |p.mloc| + |p.mrel|
  }

  lemma AllPlaced(img: Image, front: Bytes, names: Bytes, gap: nat, table: Bytes, mloc: Bytes, mrel: Bytes)
    requires img == Cells(front) + (Cells(names) + Gap(gap) + Cells(table) + Cells(mloc) + Cells(mrel))
    ensures Holds(img, 0, front) && Holds(img, |front|, names)
    ensures
      var i := |front| + |names| + gap;
      Holds(img, i, table) && Holds(img, i + |table|, mloc) && Holds(img, i + |table| + |mloc|, mrel) &&
      |img| == i + |table| + |mloc| + |mrel|
  {
    RightNested(Cells(front), Cells(names), Gap(gap), Cells(table), Cells(mloc), Cells(mrel));
    HeadPlaced(img, front, names, gap, Cells(table) + (Cells(mloc) + (Cells(mrel) + [])));
    TailPlaced(img, |front| + |names| + gap, table, mloc, mrel);
  }

  /** The blocks lie one behind the other. */
  lemma PartsPlaced(p: Parts)
    ensures Placed(Appended(p), p)
  {
    AllPlaced(Appended(p), p.front, p.names, p.gap, p.table + p.loc + p.rel, p.mloc, p.mrel);
  }

  predicate StringAt(b: Bytes, i: nat, s: Bytes) {
    i + |s| < |b| && b[i..i + |s|] == s && b[i + |s|] == 0
  }

  /** Both new headers name their section in the new name table. */
  lemma NamesResolve(c: Class, q: Request, old_: Old, body: Bytes, n: nat)
    requires |body| == old_.size
    ensures StringAt(body + (McName(c, q) + [0]), RelHeader(c, n, q, old_).name, McName(c, q))
    ensures StringAt(body + (McName(c, q) + [0]), LocHeader(c, n, q, old_).name, MCOUNT_LOC)
  {
    var table := body + (McName(c, q) + [0]);
    assert table[|body|..|body| + |McName(c, q)|] == McName(c, q);
    var i := LocHeader(c, n, q, old_).name - |body|;
    assert table[|body| + i..|body| + i + |MCOUNT_LOC|] == McName(c, q)[i..i + |MCOUNT_LOC|] == MCOUNT_LOC;
  }

  /** The new headers name exactly the bytes written for them, regions do not overlap, and the
      new table is aligned. */
  predicate LaidOut(c: Class, q: Request, old_: Old, n: nat, img: Image, names: Bytes, table: Bytes) {
    var h1, h2, at := LocHeader(c, n, q, old_), RelHeader(c, n, q, old_), NewShoff(c, n, q, old_);
    Holds(img, n, names) && |names| == NewStrSize(c, q, old_) && n + |names| <= at &&
    (if c.wide then at % 8 == 0 else at % 4 == 0) &&
    Holds(img, at, table + Encode(c, h1) + Encode(c, h2)) && |table| == TableBytes(c, old_.shnum) &&
    at + |table| + 2 * ShSize(c) == h1.offset &&
    Holds(img, h1.offset, q.mloc) && h1.size == |q.mloc| && h1.offset + h1.size == h2.offset &&
    Holds(img, h2.offset, q.mrel) && h2.size == |q.mrel| && h2.offset + h2.size == |img|
  }

  predicate Sized(c: Class, q: Request, old_: Old, n: nat, p: Parts) {
    |p.front| == n && |p.names| == NewStrSize(c, q, old_) && n + |p.names| + p.gap == NewShoff(c, n, q, old_) &&
    |p.table| == TableBytes(c, old_.shnum) &&
    p.loc == Encode(c, LocHeader(c, n, q, old_)) && p.rel == Encode(c, RelHeader(c, n, q, old_)) &&
    p.mloc == q.mloc && p.mrel == q.mrel
  }

  lemma MadeSized(c: Class, q: Request, old_: Old, r: Bytes)
    requires EhSize(c) <= |r| && old_.offset + old_.size <= |r| && old_.shoff + TableBytes(c, old_.shnum) <= |r|
    ensures Sized(c, q, old_, |r|, MakeParts(c, q, old_, r))
  {
  }

  lemma Aligned(c: Class, t: nat)
    ensures if c.wide then AlignUp(t, c) % 8 == 0 else AlignUp(t, c) % 4 == 0
  {
    UpAligned(t);
  }

  lemma PlacedLaidOut(c: Class, q: Request, old_: Old, n: nat, p: Parts, img: Image, at: nat)
    requires Sized(c, q, old_, n, p) && Placed(img, p) && at == NewShoff(c, n, q, old_)
    requires if c.wide then at % 8 == 0 else at % 4 == 0
    ensures LaidOut(c, q, old_, n, img, p.names, p.table)
  {
    assert at == |p.front| + |p.names| + p.gap && |Encode(c, LocHeader(c, n, q, old_))| == ShSize(c);
  }

  lemma SizedLaidOut(c: Class, q: Request, old_: Old, n: nat, p: Parts)
    requires Sized(c, q, old_, n, p)
    ensures LaidOut(c, q, old_, n, Appended(p), p.names, p.table)
  {
    PartsPlaced(p);
    Aligned(c, n + NewStrSize(c, q, old_));
    PlacedLaidOut(c, q, old_, n, p, Appended(p), NewShoff(c, n, q, old_));
  }

  /** The regions of the file that append_func leaves behind. */
  lemma AppendedLaidOut(c: Class, m: Bytes, q: Request)
    requires InBounds(c, m, q)
    ensures
      var p := PartsOf(c, m, q);
      LaidOut(c, q, OldOf(c, m, q), |m|, Appended(p), p.names, p.table) && Holds(Appended(p), 0, p.front)
  {
    MadeSized(c, q, OldOf(c, m, q), Redirected(c, m, q));
    SizedLaidOut(c, q, OldOf(c, m, q), |m|, PartsOf(c, m, q));
    PartsPlaced(PartsOf(c, m, q));
  }

  // ----- The patched headers -----

  lemma PokedRead(m: Bytes, at: nat, b: Bytes)
    requires at + |b| <= |m|
    ensures Poked(m, at, b)[at..at + |b|] == b
  {
  }

  lemma PokedElsewhere(m: Bytes, at: nat, b: Bytes, i: nat, j: nat)
    requires at + |b| <= |m| && i <= j <= |m| && (j <= at || at + |b| <= i)
    ensures Poked(m, at, b)[i..j] == m[i..j]
  {
  }

  /** Two neighbouring words, the second one replaced first. */
  lemma PokedTwice(m: Bytes, i: nat, a: Bytes, b: Bytes)
    requires i + |a| + |b| <= |m|
    ensures
      var r := Poked(Poked(m, i + |a|, b), i, a);
      r[i..i + |a|] == a && r[i + |a|..i + |a| + |b|] == b && r[..i] == m[..i] && r[i + |a| + |b|..] == m[i + |a| + |b|..]
  {
    var m' := Poked(m, i + |a|, b);
    PokedRead(m, i + |a|, b);
    PokedRead(m', i, a);
    PokedElsewhere(m', i, a, i + |a|, i + |a| + |b|);
    PokedElsewhere(m', i, a, 0, i);
    PokedElsewhere(m', i, a, i + |a| + |b|, |m|);
    PokedElsewhere(m, i + |a|, b, 0, i);
    PokedElsewhere(m, i + |a|, b, i + |a| + |b|, |m|);
  }

  /** Two neighbouring numbers of w bytes replaced. */
  lemma NumbersPoked(c: Class, m: Bytes, i: nat, w: nat, x: nat, y: nat, r: Bytes)
    requires i + w + w <= |m| && Fits(x, w) && Fits(y, w)
    requires r == Poked(Poked(m, i + w, Enc(c, y, w)), i, Enc(c, x, w))
    ensures Dec(c, r[i..i + w]) == x && Dec(c, r[i + w..i + w + w]) == y
    ensures r[..i] == m[..i] && r[i + w + w..] == m[i + w + w..]
  {
    DecEnc(c, x, w);
    DecEnc(c, y, w);
    WordsPoked(m, i, w, Enc(c, x, w), Enc(c, y, w), r);
  }

  lemma WordsPoked(m: Bytes, i: nat, w: nat, a: Bytes, b: Bytes, r: Bytes)
    requires |a| == |b| == w && i + w + w <= |m| && r == Poked(Poked(m, i + w, b), i, a)
    ensures r[i..i + w] == a && r[i + w..i + w + w] == b && r[..i] == m[..i] && r[i + w + w..] == m[i + w + w..]
  {
    PokedTwice(m, i, a, b);
  }

  /** The header of the name table now tells the place and the size of the new one; nothing else
      in the file has changed. */
  lemma RedirectedReads(c: Class, m: Bytes, q: Request, size: nat, i: nat, w: nat)
    requires InBounds(c, m, q) && size == NewStrSize(c, q, OldOf(c, m, q)) && Fits(|m|, w) && Fits(size, w)
    requires i == q.shstr + OffsetAt(c) && w == W(c) && i + w + w <= |m|
    ensures
      var r := Redirected(c, m, q);
      Dec(c, r[i..i + w]) == |m| && Dec(c, r[i + w..i + w + w]) == size && r[..i] == m[..i] && r[i + w + w..] == m[i + w + w..]
  {
    RedirectedIs(c, m, q, size, i, w);
    NumbersPoked(c, m, i, w, |m|, size, Redirected(c, m, q));
  }

  lemma RedirectedIs(c: Class, m: Bytes, q: Request, size: nat, i: nat, w: nat)
    requires InBounds(c, m, q) && size == NewStrSize(c, q, OldOf(c, m, q))
    requires i == q.shstr + OffsetAt(c) && w == W(c) && i + w + w <= |m|
    ensures Redirected(c, m, q) == Poked(Poked(m, i + w, Enc(c, size, w)), i, Enc(c, |m|, w))
  {
    assert q.shstr + SizeAt(c) == i + w;
  }

  /** The file header leads to the new table with its two more entries. */
  lemma RepointedReads(c: Class, m: Bytes, shoff: nat, shnum: nat)
    requires EhSize(c) <= |m| && Fits(shoff, W(c)) && Fits(shnum, 2)
    ensures
      var r := Repointed(c, m, shoff, shnum);
      Word(c, r, ShoffAt(c)) == shoff && Half(c, r, ShnumAt(c)) == shnum && r[EhSize(c)..] == m[EhSize(c)..]
  {
    var a, b := Enc(c, shoff, W(c)), Enc(c, shnum, 2);
    var m' := Poked(m, ShoffAt(c), a);
    PokedRead(m, ShoffAt(c), a);
    PokedRead(m', ShnumAt(c), b);
    PokedElsewhere(m', ShnumAt(c), b, ShoffAt(c), ShoffAt(c) + W(c));
    PokedElsewhere(m', ShnumAt(c), b, EhSize(c), |m|);
    PokedElsewhere(m, ShoffAt(c), a, EhSize(c), |m|);
    DecEnc(c, shoff, W(c));
    DecEnc(c, shnum, 2);
  }

  /** Reading a section header, one number after the other. */
  function Decode(c: Class, b: Bytes): Shdr
    requires |b| == ShSize(c)
  {
    var w := W(c);
    var b1 := b[4..];
    var b2 := b1[4..];
    var b3 := b2[w..];
    var b4 := b3[w..];
    var b5 := b4[w..];
    var b6 := b5[w..];
    var b7 := b6[4..];
    var b8 := b7[4..];
    var b9 := b8[w..];
    Shdr(Dec(c, b[..4]), Dec(c, b1[..4]), Dec(c, b2[..w]), Dec(c, b3[..w]), Dec(c, b4[..w]),
      Dec(c, b5[..w]), Dec(c, b6[..4]), Dec(c, b7[..4]), Dec(c, b8[..w]), Dec(c, b9[..w]))
  }

  predicate HeaderFits(c: Class, s: Shdr) {
    Fits(s.name, 4) && Fits(s.stype, 4) && Fits(s.flags, W(c)) && Fits(s.addr, W(c)) && Fits(s.offset, W(c)) &&
    Fits(s.size, W(c)) && Fits(s.link, 4) && Fits(s.info, 4) && Fits(s.addralign, W(c)) && Fits(s.entsize, W(c))
  }

  lemma Peel(c: Class, v: nat, n: nat, rest: Bytes)
    requires Fits(v, n)
    ensures Dec(c, (Enc(c, v, n) + rest)[..n]) == v && (Enc(c, v, n) + rest)[n..] == rest
  {
    DecEnc(c, v, n);
    assert (Enc(c, v, n) + rest)[..n] == Enc(c, v, n);
  }

  /** A section header is read back as it was written. */
  lemma HeaderRoundTrip(c: Class, s: Shdr)
    requires HeaderFits(c, s)
    ensures Decode(c, Encode(c, s)) == s
  {
    var w := W(c);
    var t9 := Enc(c, s.entsize, w) + [];
    var t8 := Enc(c, s.addralign, w) + t9;
    var t7 := Enc(c, s.info, 4) + t8;
    var t6 := Enc(c, s.link, 4) + t7;
    var t5 := Enc(c, s.size, w) + t6;
    var t4 := Enc(c, s.offset, w) + t5;
    var t3 := Enc(c, s.addr, w) + t4;
    var t2 := Enc(c, s.flags, w) + t3;
    var t1 := Enc(c, s.stype, 4) + t2;
    Peel(c, s.name, 4, t1);
    Peel(c, s.stype, 4, t2);
    Peel(c, s.flags, w, t3);
    Peel(c, s.addr, w, t4);
    Peel(c, s.offset, w, t5);
    Peel(c, s.size, w, t6);
    Peel(c, s.link, 4, t7);
    Peel(c, s.info, 4, t8);
    Peel(c, s.addralign, w, t9);
    Peel(c, s.entsize, w, []);
  }
}
