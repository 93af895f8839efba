/** Reading the file that append_func leaves behind, from its file header on: the old sections are
    as they were, and the two new ones are found by name. */
module RecordmcountReader {
  import opened Wrappers
  import opened RecordmcountFile
  import opened RecordmcountAppend

  // ----- A reader -----

  /** Where e_shstrndx stands in the file header. */
  function ShstrndxAt(c: Class): nat {
    if c.wide then 62 else 50
  }

  /** The header table lies in the file and has the header of the name table. */
  predicate Readable(c: Class, f: Bytes) {
    EhSize(c) <= |f| && Word(c, f, ShoffAt(c)) + TableBytes(c, Half(c, f, ShnumAt(c))) <= |f| &&
    Half(c, f, ShstrndxAt(c)) < Half(c, f, ShnumAt(c))
  }

  function HeaderBytes(c: Class, f: Bytes, i: nat): (b: Bytes)
    requires Readable(c, f) && i < Half(c, f, ShnumAt(c))
    ensures |b| == ShSize(c)
  {
    var at := Word(c, f, ShoffAt(c)) + TableBytes(c, i);
    f[at..at + ShSize(c)]
  }

  function HeaderOf(c: Class, f: Bytes, i: nat): Shdr
    requires Readable(c, f) && i < Half(c, f, ShnumAt(c))
  {
    Decode(c, HeaderBytes(c, f, i))
  }

  function NamesOf(c: Class, f: Bytes): Shdr
    requires Readable(c, f)
  {
    HeaderOf(c, f, Half(c, f, ShstrndxAt(c)))
  }

  /** The bytes of a section, if they lie in the file. */
  function ContentsOf(f: Bytes, h: Shdr): Option<Bytes> {
    if h.offset + h.size <= |f| then Some(f[h.offset..h.offset + h.size]) else None
  }

  /** Up to the first NUL. */
  function CString(b: Bytes): Option<Bytes> {
    if b == [] then None
    else if b[0] == 0 then Some([])
    else
      var rest := CString(b[1..]);
      if rest.None? then None else Some([b[0]] + rest.value)
  }

  function NameIn(table: Option<Bytes>, at: nat): Option<Bytes> {
    if table.None? || at > |table.value| then None else CString(table.value[at..])
  }

  function NameOf(c: Class, f: Bytes, i: nat): Option<Bytes>
    requires Readable(c, f) && i < Half(c, f, ShnumAt(c))
  {
    NameIn(ContentsOf(f, NamesOf(c, f)), HeaderOf(c, f, i).name)
  }

  // ----- Strings -----

  lemma {:induction false} CStringStays(a: Bytes, b: Bytes)
    requires CString(a).Some?
    ensures CString(a + b) == CString(a)
  {
    if a[0] != 0 {
      assert (a + b)[1..] == a[1..] + b;
      CStringStays(a[1..], b);
    }
  }

  lemma {:induction false} CStringWhole(s: Bytes)
    requires forall k :: 0 <= k < |s| ==> s[k] != 0
    ensures CString(s + [0]) == Some(s)
  {
    if s == [] {
      assert s + [0] == [0];
    } else {
      assert (s + [0])[1..] == s[1..] + [0] && (s + [0])[0] == s[0];
      CStringWhole(s[1..]);
      assert [s[0]] + s[1..] == s;
    }
  }

  /** A name in the old table is found in the longer one. */
  lemma NameStays(old_: Bytes, more: Bytes, at: nat)
    requires NameIn(Some(old_), at).Some?
    ensures NameIn(Some(old_ + more), at) == NameIn(Some(old_), at)
  {
    assert (old_ + more)[at..] == old_[at..] + more;
    CStringStays(old_[at..], more);
  }

  lemma NameBehind(old_: Bytes, pre: Bytes, s: Bytes)
    requires forall k :: 0 <= k < |s| ==> s[k] != 0
    ensures NameIn(Some(old_ + ((pre + s) + [0])), |old_| + |pre|) == Some(s)
  {
    assert (old_ + ((pre + s) + [0]))[|old_| + |pre|..] == s + [0];
    CStringWhole(s);
  }

  // ----- Section headers -----

  /** The bytes of each field of a header in turn; o is where the offset stands, e where what is
      behind the size begins. */
  function Cuts(b: Bytes, w: nat, o: nat, e: nat): seq<Bytes>
    requires 8 + w + w <= o && o + w + w <= e && e + 8 + w + w <= |b|
  {
    [b[0..4], b[4..8], b[8..8 + w], b[8 + w..8 + w + w], b[o..o + w], b[o + w..o + w + w],
     b[e..e + 4], b[e + 4..e + 8], b[e + 8..e + 8 + w], b[e + 8 + w..e + 8 + w + w]]
  }

  function FromCuts(c: Class, s: seq<Bytes>): Shdr
    requires |s| == 10
  {
    Shdr(Dec(c, s[0]), Dec(c, s[1]), Dec(c, s[2]), Dec(c, s[3]), Dec(c, s[4]),
      Dec(c, s[5]), Dec(c, s[6]), Dec(c, s[7]), Dec(c, s[8]), Dec(c, s[9]))
  }

  lemma Drop(b: Bytes, i: nat, n: nat)
    requires i + n <= |b|
    ensures b[i..][..n] == b[i..i + n] && b[i..][n..] == b[i + n..]
  {
  }

  lemma DecodeIs(c: Class, b: Bytes, w: nat, o: nat, e: nat)
    requires |b| == ShSize(c) && w == W(c) && o == OffsetAt(c) && e == o + w + w
    ensures Decode(c, b) == FromCuts(c, Cuts(b, w, o, e))
  {
    assert b[0..] == b;
    Drop(b, 0, 4);
    Drop(b, 4, 4);
    Drop(b, 8, w);
    Drop(b, 8 + w, w);
    Drop(b, o, w);
    Drop(b, o + w, w);
    Drop(b, e, 4);
    Drop(b, e + 4, 4);
    Drop(b, e + 8, w);
    Drop(b, e + 8 + w, w);
  }

  lemma CutsMoved(b: Bytes, r: Bytes, w: nat, o: nat, e: nat)
    requires |b| == |r| && 8 + w + w <= o && o + w + w <= e && e + 8 + w + w <= |b| && r[0..o] == b[0..o] && r[e..|b|] == b[e..|b|]
    ensures Cuts(r, w, o, e) == Cuts(b, w, o, e)[4 := r[o..o + w]][5 := r[o + w..o + w + w]]
  {
    Inside(r, 0, b, 0, o, 0, 4);
    Inside(r, 0, b, 0, o, 4, 8);
    Inside(r, 0, b, 0, o, 8, 8 + w);
    Inside(r, 0, b, 0, o, 8 + w, 8 + w + w);
    Inside(r, e, b, e, |b| - e, 0, 4);
    Inside(r, e, b, e, |b| - e, 4, 8);
    Inside(r, e, b, e, |b| - e, 8, 8 + w);
    Inside(r, e, b, e, |b| - e, 8 + w, 8 + w + w);
  }

  /** With another offset and size and nothing else changed. */
  lemma DecodeMoved(c: Class, b: Bytes, r: Bytes, w: nat, o: nat, e: nat)
    requires |b| == |r| == ShSize(c) && w == W(c) && o == OffsetAt(c) && e == o + w + w
    requires r[0..o] == b[0..o] && r[e..|b|] == b[e..|b|]
    ensures Decode(c, r) == Decode(c, b).(offset := Dec(c, r[o..o + w]), size := Dec(c, r[o + w..o + w + w]))
  {
    DecodeIs(c, b, w, o, e);
    DecodeIs(c, r, w, o, e);
    CutsMoved(b, r, w, o, e);
    CutsReplaced(c, Cuts(b, w, o, e), r[o..o + w], r[o + w..o + w + w]);
  }

  lemma CutsReplaced(c: Class, s: seq<Bytes>, x: Bytes, y: Bytes)
    requires |s| == 10
    ensures FromCuts(c, s[4 := x][5 := y]) == FromCuts(c, s).(offset := Dec(c, x), size := Dec(c, y))
  {
  }

  // ----- The file written -----

  /** What append_func is called with: the header of the name table is the one that the file
      header names, behind the file header and apart from the table itself, and the new numbers fit
      their fields. */
  predicate Input(c: Class, m: Bytes, q: Request) {
    InBounds(c, m, q) && Readable(c, m) && EhSize(c) <= Word(c, m, ShoffAt(c)) &&
    q.shstr == Word(c, m, ShoffAt(c)) + TableBytes(c, Half(c, m, ShstrndxAt(c))) &&
    var old_ := OldOf(c, m, q);
    (old_.offset + old_.size <= q.shstr || q.shstr + ShSize(c) <= old_.offset) &&
    Fits(|m|, W(c)) && Fits(NewStrSize(c, q, old_), W(c)) && Fits(NewShoff(c, |m|, q, old_), W(c)) && Fits(2 + old_.shnum, 2)
  }

  /** A file with these bytes, whatever stands where nothing was written. */
  predicate FileOf(f: Bytes, img: Image) {
    |f| == |img| && forall i {:trigger img[i]} :: 0 <= i < |img| && img[i].Some? ==> f[i] == img[i].value
  }

  lemma HeldBytes(f: Bytes, img: Image, at: nat, b: Bytes)
    requires FileOf(f, img) && Holds(img, at, b)
    ensures at + |b| <= |f| && f[at..at + |b|] == b
  {
    forall k | 0 <= k < |b| ensures f[at + k] == b[k] {
      assert img[at..at + |b|][k] == Cells(b)[k];
    }
  }

  lemma Slice(b: Bytes, i: nat, j: nat, x: nat, y: nat)
    requires i <= j <= |b| && x <= y <= j - i
    ensures b[i..j][x..y] == b[i + x..i + y]
  {
    forall k | 0 <= k < y - x ensures b[i..j][x..y][k] == b[i + x..i + y][k] {
    }
  }

  /** Parts of equal parts. */
  lemma Inside(a: Bytes, i: nat, b: Bytes, j: nat, n: nat, x: nat, y: nat)
    requires i + n <= |a| && j + n <= |b| && a[i..i + n] == b[j..j + n] && x <= y <= n
    ensures a[i + x..i + y] == b[j + x..j + y]
  {
    Slice(a, i, i + n, x, y);
    Slice(b, j, j + n, x, y);
  }

  /** What is known of the input m, the redirected input r and the file f. */
  datatype View = View(num: nat, ndx: nat, shoff: nat, shoff': nat)

  predicate Inner(c: Class, m: Bytes, v: View) {
    EhSize(c) <= |m| && EhSize(c) <= v.shoff && v.ndx < v.num && v.shoff + TableBytes(c, v.num) <= |m| &&
    Word(c, m, ShoffAt(c)) == v.shoff && Half(c, m, ShnumAt(c)) == v.num && Half(c, m, ShstrndxAt(c)) == v.ndx
  }

  /** Two numbers in the header of the name table were replaced, at i. */
  predicate Moved(c: Class, m: Bytes, r: Bytes, i: nat, names: nat) {
    |r| == |m| && i + W(c) + W(c) <= |m| && r[..i] == m[..i] && r[i + W(c) + W(c)..] == m[i + W(c) + W(c)..] &&
    Dec(c, r[i..i + W(c)]) == |m| && Dec(c, r[i + W(c)..i + W(c) + W(c)]) == names
  }

  /** The file: what was behind the file header is where it was, the header table is copied. */
  predicate Outer(c: Class, f: Bytes, r: Bytes, v: View) {
    EhSize(c) <= |r| <= |f| && v.shoff + TableBytes(c, v.num) <= |r| &&
    v.shoff' + TableBytes(c, v.num) + 2 * ShSize(c) <= |f| &&
    Word(c, f, ShoffAt(c)) == v.shoff' && Half(c, f, ShnumAt(c)) == v.num + 2 && Half(c, f, ShstrndxAt(c)) == v.ndx &&
    f[EhSize(c)..|r|] == r[EhSize(c)..|r|] &&
    f[v.shoff'..v.shoff' + TableBytes(c, v.num)] == r[v.shoff..v.shoff + TableBytes(c, v.num)]
  }

  function NumbersAt(c: Class, v: View): nat {
    v.shoff + TableBytes(c, v.ndx) + OffsetAt(c)
  }

  predicate Seen(c: Class, m: Bytes, r: Bytes, f: Bytes, v: View, names: Bytes) {
    Inner(c, m, v) && Moved(c, m, r, NumbersAt(c, v), |names|) && Outer(c, f, r, v) &&
    |m| + |names| <= |f| && f[|m|..|m| + |names|] == names
  }

  // ----- What a reader finds -----

  lemma TableSteps(c: Class, i: nat, n: nat)
    requires i < n
    ensures TableBytes(c, i) + ShSize(c) <= TableBytes(c, n)
  {
  }

  lemma MovedElsewhere(c: Class, m: Bytes, r: Bytes, i: nat, names: nat, x: nat, y: nat)
    requires Moved(c, m, r, i, names) && x <= y <= |m| && (y <= i || i + W(c) + W(c) <= x)
    ensures r[x..y] == m[x..y]
  {
    var j := i + W(c) + W(c);
    if y <= i {
      assert r[0..i] == r[..i] && m[0..i] == m[..i];
      Inside(r, 0, m, 0, i, x, y);
    } else {
      assert r[j..|m|] == r[j..] && m[j..|m|] == m[j..];
      Inside(r, j, m, j, |m| - j, x - j, y - j);
    }
  }

  lemma SeenReadable(c: Class, m: Bytes, r: Bytes, f: Bytes, v: View, names: Bytes)
    requires Seen(c, m, r, f, v, names)
    ensures Readable(c, m) && Readable(c, f)
  {
    TableSteps(c, v.num, v.num + 1);
    TableSteps(c, v.num + 1, v.num + 2);
  }

  /** Header i of the file is header i of the redirected input. */
  lemma HeaderCopied(c: Class, f: Bytes, r: Bytes, v: View, i: nat, at: nat)
    requires Outer(c, f, r, v) && Readable(c, f) && i < v.num && at == v.shoff + TableBytes(c, i)
    ensures at + ShSize(c) <= |r| && HeaderBytes(c, f, i) == r[at..at + ShSize(c)]
  {
    TableSteps(c, i, v.num);
    Inside(f, v.shoff', r, v.shoff, TableBytes(c, v.num), TableBytes(c, i), TableBytes(c, i) + ShSize(c));
  }

  lemma HeaderThere(c: Class, m: Bytes, v: View, i: nat, at: nat)
    requires Inner(c, m, v) && Readable(c, m) && i < v.num && at == v.shoff + TableBytes(c, i)
    ensures at + ShSize(c) <= |m| && HeaderBytes(c, m, i) == m[at..at + ShSize(c)]
  {
    TableSteps(c, i, v.num);
  }

  /** Every header but that of the name table is as it was. */
  lemma HeaderStays(c: Class, m: Bytes, r: Bytes, f: Bytes, v: View, names: Bytes, i: nat)
    requires Seen(c, m, r, f, v, names) && Readable(c, m) && Readable(c, f) && i < v.num && i != v.ndx
    ensures HeaderBytes(c, f, i) == HeaderBytes(c, m, i)
  {
    var at := v.shoff + TableBytes(c, i);
    HeaderCopied(c, f, r, v, i, at);
    HeaderThere(c, m, v, i, at);
    if i < v.ndx { TableSteps(c, i, v.ndx); } else { TableSteps(c, v.ndx, i); }
    MovedElsewhere(c, m, r, NumbersAt(c, v), |names|, at, at + ShSize(c));
  }

  /** The header of the name table tells the place and the size of the new one. */
  lemma NameHeaderMoves(c: Class, m: Bytes, r: Bytes, f: Bytes, v: View, names: Bytes)
    requires Seen(c, m, r, f, v, names) && Readable(c, m) && Readable(c, f)
    ensures NamesOf(c, f) == NamesOf(c, m).(offset := |m|, size := |names|)
  {
    var at := v.shoff + TableBytes(c, v.ndx);
    HeaderCopied(c, f, r, v, v.ndx, at);
    HeaderThere(c, m, v, v.ndx, at);
    HeaderMoves(c, m, r, at, W(c), OffsetAt(c), |names|);
  }

  lemma HeaderMoves(c: Class, m: Bytes, r: Bytes, at: nat, w: nat, o: nat, names: nat)
    requires Moved(c, m, r, at + o, names) && at + ShSize(c) <= |m| && w == W(c) && o == OffsetAt(c)
    ensures Decode(c, r[at..at + ShSize(c)]) == Decode(c, m[at..at + ShSize(c)]).(offset := |m|, size := names)
  {
    var n, e := ShSize(c), o + w + w;
    MovedElsewhere(c, m, r, at + o, names, at, at + o);
    MovedElsewhere(c, m, r, at + o, names, at + e, at + n);
    Slice(m, at, at + n, 0, o);
    Slice(r, at, at + n, 0, o);
    Slice(m, at, at + n, e, n);
    Slice(r, at, at + n, e, n);
    Slice(r, at, at + n, o, o + w);
    Slice(r, at, at + n, o + w, e);
    DecodeMoved(c, m[at..at + n], r[at..at + n], w, o, e);
  }

  /** Bytes behind the file header that are not part of the name table's header stay. */
  lemma BytesStay(c: Class, m: Bytes, r: Bytes, f: Bytes, v: View, names: Bytes, x: nat, y: nat)
    requires Seen(c, m, r, f, v, names) && EhSize(c) <= x <= y <= |m|
    requires y <= v.shoff + TableBytes(c, v.ndx) || v.shoff + TableBytes(c, v.ndx) + ShSize(c) <= x
    ensures f[x..y] == m[x..y]
  {
    MovedElsewhere(c, m, r, NumbersAt(c, v), |names|, x, y);
    Inside(f, EhSize(c), r, EhSize(c), |r| - EhSize(c), x - EhSize(c), y - EhSize(c));
  }

  // ----- The file is as the reader needs it -----

  lemma RedirectedMoved(c: Class, m: Bytes, q: Request, v: View)
    requires Input(c, m, q) && Inner(c, m, v)
    ensures Moved(c, m, Redirected(c, m, q), NumbersAt(c, v), NewStrSize(c, q, OldOf(c, m, q)))
  {
    TableSteps(c, v.ndx, v.num);
    RedirectedReads(c, m, q, NewStrSize(c, q, OldOf(c, m, q)), NumbersAt(c, v), W(c));
  }

  lemma FrontStrndx(c: Class, r: Bytes, shoff: nat, shnum: nat)
    requires EhSize(c) <= |r|
    ensures Half(c, Repointed(c, r, shoff, shnum), ShstrndxAt(c)) == Half(c, r, ShstrndxAt(c))
  {
    var a, b, i := Enc(c, shoff, W(c)), Enc(c, shnum, 2), ShstrndxAt(c);
    PokedElsewhere(r, ShoffAt(c), a, i, i + 2);
    PokedElsewhere(Poked(r, ShoffAt(c), a), ShnumAt(c), b, i, i + 2);
  }

  /** The numbers of the file header and all behind it. */
  lemma FrontSeen(c: Class, f: Bytes, front: Bytes, r: Bytes, shoff: nat, shnum: nat)
    requires EhSize(c) <= |r| == |front| <= |f| && f[0..|front|] == front && front == Repointed(c, r, shoff, shnum)
    requires Fits(shoff, W(c)) && Fits(shnum, 2)
    ensures Word(c, f, ShoffAt(c)) == shoff && Half(c, f, ShnumAt(c)) == shnum
    ensures Half(c, f, ShstrndxAt(c)) == Half(c, r, ShstrndxAt(c))
    ensures f[EhSize(c)..|r|] == r[EhSize(c)..|r|]
  {
    RepointedReads(c, r, shoff, shnum);
    FrontStrndx(c, r, shoff, shnum);
    Slice(f, 0, |r|, ShoffAt(c), ShoffAt(c) + W(c));
    Slice(f, 0, |r|, ShnumAt(c), ShnumAt(c) + 2);
    Slice(f, 0, |r|, ShstrndxAt(c), ShstrndxAt(c) + 2);
    Slice(f, 0, |r|, EhSize(c), |r|);
    assert front[EhSize(c)..] == front[EhSize(c)..|r|] && r[EhSize(c)..] == r[EhSize(c)..|r|];
  }

  /** The header table and the two new headers. */
  lemma TableSeen(c: Class, f: Bytes, at: nat, table: Bytes, h1: Bytes, h2: Bytes)
    requires |h1| == |h2| == ShSize(c) && at + |table + h1 + h2| <= |f| && f[at..at + |table + h1 + h2|] == table + h1 + h2
    ensures f[at..at + |table|] == table
    ensures f[at + |table|..at + |table| + ShSize(c)] == h1
    ensures f[at + |table| + ShSize(c)..at + |table| + 2 * ShSize(c)] == h2
  {
    var n, t, s := |table + h1 + h2|, |table|, ShSize(c);
    Slice(f, at, at + n, 0, t);
    Slice(f, at, at + n, t, t + s);
    Slice(f, at, at + n, t + s, t + 2 * s);
    assert (table + h1 + h2)[0..t] == table && (table + h1 + h2)[t..t + s] == h1 && (table + h1 + h2)[t + s..t + 2 * s] == h2;
  }

  /** The patched input, the names and the old headers lie in the file. */
  predicate Copied(c: Class, f: Bytes, p: Parts, at: nat) {
    |p.front| + |p.names| <= |f| && f[0..|p.front|] == p.front && f[|p.front|..|p.front| + |p.names|] == p.names &&
    at + |p.table| + 2 * ShSize(c) <= |f| && f[at..at + |p.table|] == p.table
  }

  /** So do the two new headers. */
  predicate Added(c: Class, f: Bytes, at: nat, e1: Bytes, e2: Bytes) {
    at + 2 * ShSize(c) <= |f| && f[at..at + ShSize(c)] == e1 && f[at + ShSize(c)..at + 2 * ShSize(c)] == e2
  }

  lemma HeldHeaders(c: Class, f: Bytes, img: Image, p: Parts, at: nat, e1: Bytes, e2: Bytes)
    requires FileOf(f, img) && |e1| == |e2| == ShSize(c)
    requires Holds(img, 0, p.front) && Holds(img, |p.front|, p.names) && Holds(img, at, p.table + e1 + e2)
    ensures Copied(c, f, p, at) && Added(c, f, at + |p.table|, e1, e2)
  {
    HeldBytes(f, img, 0, p.front);
    HeldBytes(f, img, |p.front|, p.names);
    HeldBytes(f, img, at, p.table + e1 + e2);
    TableSeen(c, f, at, p.table, e1, e2);
  }

  lemma HeldContents(f: Bytes, img: Image, h: Shdr, b: Bytes)
    requires FileOf(f, img) && Holds(img, h.offset, b) && h.size == |b|
    ensures ContentsOf(f, h) == Some(b)
  {
    HeldBytes(f, img, h.offset, b);
  }

  /** A header and the bytes it leads to. */
  predicate Stands(c: Class, f: Bytes, i: nat, h: Shdr, b: Bytes) {
    i + ShSize(c) <= |f| && f[i..i + ShSize(c)] == Encode(c, h) && ContentsOf(f, h) == Some(b)
  }

  lemma BothStand(c: Class, f: Bytes, i: nat, j: nat, h1: Shdr, h2: Shdr, a: Bytes, b: Bytes)
    requires Added(c, f, i, Encode(c, h1), Encode(c, h2)) && ContentsOf(f, h1) == Some(a) && ContentsOf(f, h2) == Some(b)
    requires j == i + ShSize(c)
    ensures Stands(c, f, i, h1, a) && Stands(c, f, j, h2, b)
  {
  }

  lemma HeldStand(c: Class, q: Request, f: Bytes, img: Image, i: nat, h1: Shdr, h2: Shdr)
    requires FileOf(f, img) && Added(c, f, i, Encode(c, h1), Encode(c, h2))
    requires Holds(img, h1.offset, q.mloc) && h1.size == |q.mloc| && Holds(img, h2.offset, q.mrel) && h2.size == |q.mrel|
    ensures Stands(c, f, i, h1, q.mloc) && Stands(c, f, i + ShSize(c), h2, q.mrel)
  {
    HeldContents(f, img, h1, q.mloc);
    HeldContents(f, img, h2, q.mrel);
    BothStand(c, f, i, i + ShSize(c), h1, h2, q.mloc, q.mrel);
  }

  lemma HeldBlocks(c: Class, q: Request, f: Bytes, img: Image, p: Parts, at: nat, i: nat, h1: Shdr, h2: Shdr)
    requires FileOf(f, img) && Holds(img, 0, p.front) && Holds(img, |p.front|, p.names)
    requires Holds(img, at, p.table + Encode(c, h1) + Encode(c, h2)) && i == at + |p.table|
    requires Holds(img, h1.offset, q.mloc) && h1.size == |q.mloc| && Holds(img, h2.offset, q.mrel) && h2.size == |q.mrel|
    ensures Copied(c, f, p, at) && Stands(c, f, i, h1, q.mloc) && Stands(c, f, i + ShSize(c), h2, q.mrel)
  {
    HeldHeaders(c, f, img, p, at, Encode(c, h1), Encode(c, h2));
    HeldStand(c, q, f, img, i, h1, h2);
  }

  lemma LaidOutHolds(c: Class, q: Request, old_: Old, n: nat, img: Image, names: Bytes, table: Bytes, h1: Shdr, h2: Shdr, at: nat)
    requires LaidOut(c, q, old_, n, img, names, table)
    requires h1 == LocHeader(c, n, q, old_) && h2 == RelHeader(c, n, q, old_) && at == NewShoff(c, n, q, old_)
    ensures Holds(img, n, names) && Holds(img, at, table + Encode(c, h1) + Encode(c, h2)) && |table| == TableBytes(c, old_.shnum)
    ensures Holds(img, h1.offset, q.mloc) && h1.size == |q.mloc| && Holds(img, h2.offset, q.mrel) && h2.size == |q.mrel|
  {
  }

  lemma LaidOutBlocks(c: Class, q: Request, old_: Old, n: nat, f: Bytes, img: Image, p: Parts, h1: Shdr, h2: Shdr, at: nat)
    requires FileOf(f, img) && |p.front| == n && LaidOut(c, q, old_, n, img, p.names, p.table) && Holds(img, 0, p.front)
    requires h1 == LocHeader(c, n, q, old_) && h2 == RelHeader(c, n, q, old_) && at == NewShoff(c, n, q, old_)
    ensures Copied(c, f, p, at)
    ensures Stands(c, f, at + TableBytes(c, old_.shnum), h1, q.mloc)
    ensures Stands(c, f, at + TableBytes(c, old_.shnum) + ShSize(c), h2, q.mrel)
  {
    LaidOutHolds(c, q, old_, n, img, p.names, p.table, h1, h2, at);
    HeldBlocks(c, q, f, img, p, at, at + TableBytes(c, old_.shnum), h1, h2);
  }

  lemma FileBlocks(c: Class, m: Bytes, q: Request, f: Bytes, old_: Old, p: Parts, h1: Shdr, h2: Shdr, at: nat)
    requires InBounds(c, m, q) && p == PartsOf(c, m, q) && FileOf(f, Appended(p)) && old_ == OldOf(c, m, q)
    requires h1 == LocHeader(c, |m|, q, old_) && h2 == RelHeader(c, |m|, q, old_) && at == NewShoff(c, |m|, q, old_)
    ensures Copied(c, f, p, at)
    ensures Stands(c, f, at + TableBytes(c, old_.shnum), h1, q.mloc)
    ensures Stands(c, f, at + TableBytes(c, old_.shnum) + ShSize(c), h2, q.mrel)
  {
    AppendedLaidOut(c, m, q);
    LaidOutBlocks(c, q, old_, |m|, f, Appended(p), p, h1, h2, at);
  }

  function ViewOf(c: Class, m: Bytes, q: Request): View
    requires InBounds(c, m, q)
  {
    View(Half(c, m, ShnumAt(c)), Half(c, m, ShstrndxAt(c)), Word(c, m, ShoffAt(c)), NewShoff(c, |m|, q, OldOf(c, m, q)))
  }

  /** What append_func has made of its input. */
  predicate Prepared(c: Class, m: Bytes, r: Bytes, v: View, p: Parts) {
    Inner(c, m, v) && Moved(c, m, r, NumbersAt(c, v), |p.names|) && Half(c, r, ShstrndxAt(c)) == v.ndx &&
    p.front == Repointed(c, r, v.shoff', 2 + v.num) && p.table == r[v.shoff..v.shoff + TableBytes(c, v.num)] &&
    Fits(v.shoff', W(c)) && Fits(2 + v.num, 2)
  }

  lemma CopiedSeen(c: Class, m: Bytes, r: Bytes, f: Bytes, v: View, p: Parts)
    requires Prepared(c, m, r, v, p) && Copied(c, f, p, v.shoff')
    ensures Seen(c, m, r, f, v, p.names)
  {
    FrontSeen(c, f, p.front, r, v.shoff', 2 + v.num);
  }

  lemma InputInner(c: Class, m: Bytes, q: Request, v: View)
    requires Input(c, m, q) && v == ViewOf(c, m, q)
    ensures Inner(c, m, v) && q.shstr == v.shoff + TableBytes(c, v.ndx) && Fits(v.shoff', W(c)) && Fits(2 + v.num, 2)
  {
  }

  lemma PartsAre(c: Class, m: Bytes, q: Request, old_: Old, r: Bytes, p: Parts)
    requires InBounds(c, m, q) && old_ == OldOf(c, m, q) && |r| == |m| && p == MakeParts(c, q, old_, r)
    ensures p.front == Repointed(c, r, NewShoff(c, |m|, q, old_), 2 + old_.shnum)
    ensures old_.shoff + TableBytes(c, old_.shnum) <= |r| && p.table == r[old_.shoff..old_.shoff + TableBytes(c, old_.shnum)]
    ensures |p.names| == NewStrSize(c, q, old_)
  {
  }

  lemma StrndxStays(c: Class, m: Bytes, r: Bytes, v: View, names: nat)
    requires Inner(c, m, v) && Moved(c, m, r, NumbersAt(c, v), names)
    ensures Half(c, r, ShstrndxAt(c)) == v.ndx
  {
    MovedElsewhere(c, m, r, NumbersAt(c, v), names, ShstrndxAt(c), ShstrndxAt(c) + 2);
  }

  lemma InputPrepared(c: Class, m: Bytes, q: Request, old_: Old, v: View, r: Bytes, p: Parts)
    requires Input(c, m, q) && old_ == OldOf(c, m, q)
    requires v == ViewOf(c, m, q) && r == Redirected(c, m, q) && p == PartsOf(c, m, q)
    ensures Prepared(c, m, r, v, p)
  {
    InputInner(c, m, q, v);
    RedirectedMoved(c, m, q, v);
    MovedPrepared(c, m, q, old_, v, r, p);
  }

  lemma MovedPrepared(c: Class, m: Bytes, q: Request, old_: Old, v: View, r: Bytes, p: Parts)
    requires InBounds(c, m, q) && old_ == OldOf(c, m, q) && v == ViewOf(c, m, q) && |r| == |m| && p == MakeParts(c, q, old_, r)
    requires Inner(c, m, v) && Moved(c, m, r, NumbersAt(c, v), NewStrSize(c, q, old_)) && Fits(v.shoff', W(c)) && Fits(2 + v.num, 2)
    ensures Prepared(c, m, r, v, p)
  {
    PartsAre(c, m, q, old_, r, p);
    StrndxStays(c, m, r, v, NewStrSize(c, q, old_));
  }

  /** The file is as the lemmas above need it. */
  lemma FileSeen(c: Class, m: Bytes, q: Request, f: Bytes, old_: Old, v: View, r: Bytes, p: Parts)
    requires Input(c, m, q) && FileOf(f, Appended(p)) && old_ == OldOf(c, m, q)
    requires v == ViewOf(c, m, q) && r == Redirected(c, m, q) && p == PartsOf(c, m, q)
    ensures Seen(c, m, r, f, v, p.names) && Readable(c, m) && Readable(c, f)
  {
    var h1, h2 := LocHeader(c, |m|, q, old_), RelHeader(c, |m|, q, old_);
    FileBlocks(c, m, q, f, old_, p, h1, h2, v.shoff');
    InputPrepared(c, m, q, old_, v, r, p);
    CopiedSeen(c, m, r, f, v, p);
    SeenReadable(c, m, r, f, v, p.names);
  }

  // ----- The sections -----

  lemma OffsetAndSize(c: Class, m: Bytes, at: nat, w: nat, o: nat)
    requires at + ShSize(c) <= |m| && w == W(c) && o == OffsetAt(c)
    ensures Decode(c, m[at..at + ShSize(c)]).offset == Dec(c, m[at + o..at + o + w])
    ensures Decode(c, m[at..at + ShSize(c)]).size == Dec(c, m[at + o + w..at + o + w + w])
  {
    DecodeIs(c, m[at..at + ShSize(c)], w, o, o + w + w);
    Slice(m, at, at + ShSize(c), o, o + w);
    Slice(m, at, at + ShSize(c), o + w, o + w + w);
  }

  /** The old header of the name table is the one that append_func reads. */
  lemma OldNames(c: Class, m: Bytes, q: Request, v: View)
    requires InBounds(c, m, q) && Readable(c, m) && v == ViewOf(c, m, q) && q.shstr == v.shoff + TableBytes(c, v.ndx)
    ensures NamesOf(c, m).offset == OldOf(c, m, q).offset && NamesOf(c, m).size == OldOf(c, m, q).size
  {
    OffsetAndSize(c, m, q.shstr, W(c), OffsetAt(c));
    assert HeaderBytes(c, m, v.ndx) == m[q.shstr..q.shstr + ShSize(c)];
  }

  lemma NamesAre(f: Bytes, m: Bytes, h: Shdr, h': Shdr, names: Bytes, more: Bytes)
    requires h.offset + h.size <= |m| && names == m[h.offset..h.offset + h.size] + more && h'.offset == |m| && h'.size == |names|
    requires |m| + |names| <= |f| && f[|m|..|m| + |names|] == names
    ensures ContentsOf(m, h).Some? && ContentsOf(f, h') == Some(ContentsOf(m, h).value + more)
  {
  }

  /** What is copied of the old names. */
  predicate NamesCopied(c: Class, m: Bytes, r: Bytes, v: View, h: Shdr, names: Bytes, more: Bytes) {
    h.offset + h.size <= |m| == |r| && names == r[h.offset..h.offset + h.size] + more &&
    (h.offset + h.size <= v.shoff + TableBytes(c, v.ndx) || v.shoff + TableBytes(c, v.ndx) + ShSize(c) <= h.offset)
  }

  lemma NamesPart(c: Class, m: Bytes, q: Request, old_: Old, r: Bytes, p: Parts)
    requires InBounds(c, m, q) && old_ == OldOf(c, m, q) && |r| == |m| && p == MakeParts(c, q, old_, r)
    ensures old_.offset + old_.size <= |m| && p.names == r[old_.offset..old_.offset + old_.size] + (McName(c, q) + [0])
  {
  }

  lemma InputNames(c: Class, m: Bytes, q: Request, old_: Old, v: View, r: Bytes, p: Parts, h: Shdr)
    requires Input(c, m, q) && old_ == OldOf(c, m, q) && v == ViewOf(c, m, q) && r == Redirected(c, m, q) && p == PartsOf(c, m, q)
    requires h.offset == old_.offset && h.size == old_.size
    ensures NamesCopied(c, m, r, v, h, p.names, McName(c, q) + [0])
  {
    NamesPart(c, m, q, old_, r, p);
  }

  lemma NamesSame(c: Class, m: Bytes, r: Bytes, v: View, h: Shdr, names: Bytes, more: Bytes)
    requires Inner(c, m, v) && Moved(c, m, r, NumbersAt(c, v), |names|) && NamesCopied(c, m, r, v, h, names, more)
    ensures names == m[h.offset..h.offset + h.size] + more
  {
    MovedElsewhere(c, m, r, NumbersAt(c, v), |names|, h.offset, h.offset + h.size);
  }

  lemma NamesPlaced(c: Class, m: Bytes, r: Bytes, f: Bytes, v: View, names: Bytes)
    requires Seen(c, m, r, f, v, names) && Readable(c, m) && Readable(c, f)
    ensures NamesOf(c, f).offset == |m| && NamesOf(c, f).size == |names|
  {
    NameHeaderMoves(c, m, r, f, v, names);
  }

  /** The names: the old ones, the new one behind them. */
  lemma NewNames(c: Class, m: Bytes, r: Bytes, f: Bytes, v: View, names: Bytes, more: Bytes, h: Shdr, h': Shdr)
    requires Seen(c, m, r, f, v, names) && NamesCopied(c, m, r, v, h, names, more) && h'.offset == |m| && h'.size == |names|
    ensures ContentsOf(m, h).Some? && |ContentsOf(m, h).value| == h.size
    ensures ContentsOf(f, h') == Some(ContentsOf(m, h).value + more)
  {
    NamesSame(c, m, r, v, h, names, more);
    NamesAre(f, m, h, h', names, more);
  }

  lemma InputOldNames(c: Class, m: Bytes, q: Request)
    requires Input(c, m, q)
    ensures NamesOf(c, m).offset == OldOf(c, m, q).offset && NamesOf(c, m).size == OldOf(c, m, q).size
  {
    InputInner(c, m, q, ViewOf(c, m, q));
    OldNames(c, m, q, ViewOf(c, m, q));
  }

  /** All names in the file. */
  lemma FileNames(c: Class, m: Bytes, q: Request, f: Bytes)
    requires Input(c, m, q) && FileOf(f, Appended(PartsOf(c, m, q)))
    ensures Readable(c, f)
    ensures ContentsOf(m, NamesOf(c, m)).Some? && |ContentsOf(m, NamesOf(c, m)).value| == OldOf(c, m, q).size
    ensures ContentsOf(f, NamesOf(c, f)) == Some(ContentsOf(m, NamesOf(c, m)).value + (McName(c, q) + [0]))
  {
    var v, r, p := ViewOf(c, m, q), Redirected(c, m, q), PartsOf(c, m, q);
    FileSeen(c, m, q, f, OldOf(c, m, q), v, r, p);
    InputOldNames(c, m, q);
    InputNames(c, m, q, OldOf(c, m, q), v, r, p, NamesOf(c, m));
    NamesPlaced(c, m, r, f, v, p.names);
    NewNames(c, m, r, f, v, p.names, McName(c, q) + [0], NamesOf(c, m), NamesOf(c, f));
  }

  /** An old section, but for the name table, has the header it had. */
  lemma OldSectionHeader(c: Class, m: Bytes, q: Request, f: Bytes, i: nat)
    requires Input(c, m, q) && FileOf(f, Appended(PartsOf(c, m, q))) && i < Half(c, m, ShnumAt(c))
    ensures Readable(c, f) && Half(c, f, ShnumAt(c)) == Half(c, m, ShnumAt(c)) + 2
    ensures i != Half(c, m, ShstrndxAt(c)) ==> HeaderOf(c, f, i) == HeaderOf(c, m, i)
    ensures HeaderOf(c, f, i).name == HeaderOf(c, m, i).name
  {
    var v, r, p := ViewOf(c, m, q), Redirected(c, m, q), PartsOf(c, m, q);
    FileSeen(c, m, q, f, OldOf(c, m, q), v, r, p);
    if i != v.ndx {
      HeaderStays(c, m, r, f, v, p.names, i);
    } else {
      NameHeaderMoves(c, m, r, f, v, p.names);
    }
  }

  /** An old section is found under its name. */
  lemma OldSectionName(c: Class, m: Bytes, q: Request, f: Bytes, i: nat)
    requires Input(c, m, q) && FileOf(f, Appended(PartsOf(c, m, q))) && i < Half(c, m, ShnumAt(c))
    ensures Readable(c, f) && i < Half(c, f, ShnumAt(c))
    ensures NameOf(c, m, i).Some? ==> NameOf(c, f, i) == NameOf(c, m, i)
  {
    OldSectionHeader(c, m, q, f, i);
    FileNames(c, m, q, f);
    if NameOf(c, m, i).Some? {
      NameStays(ContentsOf(m, NamesOf(c, m)).value, McName(c, q) + [0], HeaderOf(c, m, i).name);
    }
  }

  /** And its bytes are where they were, if they lie behind the file header and apart from the
      header of the name table. */
  lemma OldSectionBytes(c: Class, m: Bytes, q: Request, f: Bytes, h: Shdr)
    requires Input(c, m, q) && FileOf(f, Appended(PartsOf(c, m, q)))
    requires EhSize(c) <= h.offset && h.offset + h.size <= |m|
    requires h.offset + h.size <= q.shstr || q.shstr + ShSize(c) <= h.offset
    ensures ContentsOf(f, h) == ContentsOf(m, h)
  {
    var v, r, p := ViewOf(c, m, q), Redirected(c, m, q), PartsOf(c, m, q);
    FileSeen(c, m, q, f, OldOf(c, m, q), v, r, p);
    SectionStays(c, m, r, f, v, p.names, h, q.shstr);
  }

  lemma SectionStays(c: Class, m: Bytes, r: Bytes, f: Bytes, v: View, names: Bytes, h: Shdr, shstr: nat)
    requires Seen(c, m, r, f, v, names) && shstr == v.shoff + TableBytes(c, v.ndx)
    requires EhSize(c) <= h.offset && h.offset + h.size <= |m|
    requires h.offset + h.size <= shstr || shstr + ShSize(c) <= h.offset
    ensures ContentsOf(f, h) == ContentsOf(m, h)
  {
    BytesStay(c, m, r, f, v, names, h.offset, h.offset + h.size);
  }

  /** The header that append_func makes for the table of places, or for its relocations. */
  function NewHeader(c: Class, n: nat, q: Request, old_: Old, rel: bool): Shdr {
    if rel then RelHeader(c, n, q, old_) else LocHeader(c, n, q, old_)
  }

  /** Where it stands behind the old headers. */
  function NewHeaderAt(c: Class, at: nat, num: nat, rel: bool): nat {
    at + TableBytes(c, num) + if rel then ShSize(c) else 0
  }

  lemma EitherStands(c: Class, q: Request, f: Bytes, old_: Old, n: nat, at: nat, rel: bool, h: Shdr, h1: Shdr, h2: Shdr)
    requires h == NewHeader(c, n, q, old_, rel) && h1 == LocHeader(c, n, q, old_) && h2 == RelHeader(c, n, q, old_)
    requires Stands(c, f, at + TableBytes(c, old_.shnum), h1, q.mloc)
    requires Stands(c, f, at + TableBytes(c, old_.shnum) + ShSize(c), h2, q.mrel)
    ensures Stands(c, f, NewHeaderAt(c, at, old_.shnum, rel), h, if rel then q.mrel else q.mloc)
  {
  }

  lemma NewHeaderStands(c: Class, m: Bytes, q: Request, f: Bytes, old_: Old, at: nat, rel: bool, h: Shdr)
    requires InBounds(c, m, q) && FileOf(f, Appended(PartsOf(c, m, q))) && old_ == OldOf(c, m, q) && at == NewShoff(c, |m|, q, old_)
    requires h == NewHeader(c, |m|, q, old_, rel)
    ensures Stands(c, f, NewHeaderAt(c, at, old_.shnum, rel), h, if rel then q.mrel else q.mloc)
  {
    var h1, h2 := LocHeader(c, |m|, q, old_), RelHeader(c, |m|, q, old_);
    FileBlocks(c, m, q, f, old_, PartsOf(c, m, q), h1, h2, at);
    EitherStands(c, q, f, old_, |m|, at, rel, h, h1, h2);
  }

  lemma BehindOld(c: Class, f: Bytes, r: Bytes, v: View, rel: bool)
    requires Outer(c, f, r, v) && Readable(c, f)
    ensures
      var i := NewHeaderAt(c, v.shoff', v.num, rel);
      i + ShSize(c) <= |f| && HeaderBytes(c, f, v.num + if rel then 1 else 0) == f[i..i + ShSize(c)]
  {
  }

  lemma BehindSeen(c: Class, m: Bytes, r: Bytes, f: Bytes, v: View, names: Bytes, i: nat, k: nat, rel: bool)
    requires Seen(c, m, r, f, v, names) && Readable(c, f)
    requires i == NewHeaderAt(c, v.shoff', v.num, rel) && k == v.num + if rel then 1 else 0
    ensures k < Half(c, f, ShnumAt(c)) && i + ShSize(c) <= |f| && HeaderBytes(c, f, k) == f[i..i + ShSize(c)]
  {
    BehindOld(c, f, r, v, rel);
  }

  lemma FileBehindOld(c: Class, m: Bytes, q: Request, f: Bytes, v: View, i: nat, k: nat, rel: bool)
    requires Input(c, m, q) && FileOf(f, Appended(PartsOf(c, m, q))) && v == ViewOf(c, m, q)
    requires i == NewHeaderAt(c, v.shoff', v.num, rel) && k == v.num + if rel then 1 else 0
    ensures Readable(c, f) && k < Half(c, f, ShnumAt(c))
    ensures i + ShSize(c) <= |f| && HeaderBytes(c, f, k) == f[i..i + ShSize(c)]
  {
    FileSeen(c, m, q, f, OldOf(c, m, q), v, Redirected(c, m, q), PartsOf(c, m, q));
    BehindSeen(c, m, Redirected(c, m, q), f, v, PartsOf(c, m, q).names, i, k, rel);
  }

  lemma StandsThere(c: Class, f: Bytes, i: nat, k: nat, h: Shdr, b: Bytes)
    requires Stands(c, f, i, h, b) && Readable(c, f) && k < Half(c, f, ShnumAt(c)) && HeaderBytes(c, f, k) == f[i..i + ShSize(c)]
    ensures HeaderBytes(c, f, k) == Encode(c, h)
  {
  }

  /** The numbers of these headers fit their fields. */
  predicate Encodable(c: Class, hs: set<Shdr>) {
    forall h :: h in hs ==> HeaderFits(c, h)
  }

  lemma DecodedAs(c: Class, f: Bytes, i: nat, k: nat, h: Shdr, b: Bytes)
    requires Stands(c, f, i, h, b) && Readable(c, f) && k < Half(c, f, ShnumAt(c)) && HeaderBytes(c, f, k) == f[i..i + ShSize(c)]
    requires Encodable(c, {h})
    ensures HeaderOf(c, f, k) == h
  {
    StandsThere(c, f, i, k, h, b);
    assert h in {h};
    HeaderRoundTrip(c, h);
  }

  lemma HeaderStanding(c: Class, m: Bytes, q: Request, f: Bytes, v: View, i: nat, k: nat, rel: bool, h: Shdr, b: Bytes)
    requires Input(c, m, q) && FileOf(f, Appended(PartsOf(c, m, q))) && v == ViewOf(c, m, q)
    requires i == NewHeaderAt(c, v.shoff', v.num, rel) && k == v.num + if rel then 1 else 0
    requires Stands(c, f, i, h, b) && Encodable(c, {h})
    ensures Readable(c, f) && k < Half(c, f, ShnumAt(c)) && HeaderOf(c, f, k) == h
  {
    FileBehindOld(c, m, q, f, v, i, k, rel);
    DecodedAs(c, f, i, k, h, b);
  }

  /** Behind the old headers are those of the two new sections, and lead to their bytes. */
  lemma NewSectionHeader(c: Class, m: Bytes, q: Request, f: Bytes, k: nat, rel: bool, h: Shdr)
    requires Input(c, m, q) && FileOf(f, Appended(PartsOf(c, m, q))) && k == Half(c, m, ShnumAt(c)) + if rel then 1 else 0
    requires h == NewHeader(c, |m|, q, OldOf(c, m, q), rel) && Encodable(c, {h})
    ensures Readable(c, f) && k < Half(c, f, ShnumAt(c))
    ensures HeaderOf(c, f, k) == h && ContentsOf(f, h) == Some(if rel then q.mrel else q.mloc)
  {
    var v := ViewOf(c, m, q);
    NewHeaderStands(c, m, q, f, OldOf(c, m, q), v.shoff', rel, h);
    HeaderStanding(c, m, q, f, v, NewHeaderAt(c, v.shoff', v.num, rel), k, rel, h, if rel then q.mrel else q.mloc);
  }

  // ----- The headers in numbers -----

  /** A section header of either class, read where the fields stand. */
  lemma FieldsInPlace(c: Class, b: Bytes)
    requires |b| == ShSize(c)
    ensures
      Decode(c, b) ==
      if c.wide then
        Shdr(Dec(c, b[0..4]), Dec(c, b[4..8]), Dec(c, b[8..16]), Dec(c, b[16..24]), Dec(c, b[24..32]), Dec(c, b[32..40]),
          Dec(c, b[40..44]), Dec(c, b[44..48]), Dec(c, b[48..56]), Dec(c, b[56..64]))
      else
        Shdr(Dec(c, b[0..4]), Dec(c, b[4..8]), Dec(c, b[8..12]), Dec(c, b[12..16]), Dec(c, b[16..20]), Dec(c, b[20..24]),
          Dec(c, b[24..28]), Dec(c, b[28..32]), Dec(c, b[32..36]), Dec(c, b[36..40]))
  {
    if c.wide { DecodeIs(c, b, 8, 24, 40); } else { DecodeIs(c, b, 4, 16, 24); }
  }

  lemma FourBytes(b: Bytes)
    requires |b| == 4
    ensures LittleValue(b) == (b[0] as nat) + 0x100 * (b[1] as nat) + 0x1_0000 * (b[2] as nat) + 0x100_0000 * (b[3] as nat)
  {
    assert b[1..][1..] == b[2..] && b[2..][1..] == b[3..] && b[3..][1..] == [];
    assert LittleValue(b[3..]) == b[3] as nat;
    assert LittleValue(b[2..]) == (b[2] as nat) + 0x100 * (b[3] as nat);
    assert LittleValue(b[1..]) == (b[1] as nat) + 0x100 * (b[2] as nat) + 0x1_0000 * (b[3] as nat);
  }

  lemma {:induction false} FlippedAt(b: Bytes, k: nat)
    requires k < |b|
    ensures Flipped(b)[k] == b[|b| - 1 - k]
  {
    if k < |b| - 1 { FlippedAt(b[1..], k); }
  }

  /** The last byte weighs least in a big-endian number, the first one in any other. */
  lemma BytesInPlace(c: Class, b: Bytes)
    requires |b| == 4
    ensures
      Dec(c, b) ==
      if c.big then 0x100_0000 * (b[0] as nat) + 0x1_0000 * (b[1] as nat) + 0x100 * (b[2] as nat) + (b[3] as nat)
      else (b[0] as nat) + 0x100 * (b[1] as nat) + 0x1_0000 * (b[2] as nat) + 0x100_0000 * (b[3] as nat)
  {
    FourBytes(b);
    FourBytes(Flipped(b));
    FlippedAt(b, 0);
    FlippedAt(b, 1);
    FlippedAt(b, 2);
    FlippedAt(b, 3);
  }

  /** What the file says of the two new sections: the table of places is of type 1 (PROGBITS) and
      allocated; its relocations are of type 4 (RELA) if one takes as many bytes as an Elf_Rela and of
      type 9 (REL) otherwise, refer to the symbol table asked for, and relocate the section in front of
      their own. */
  lemma NewSectionNumbers(c: Class, m: Bytes, q: Request, f: Bytes, k: nat, rel: bool, h: Shdr)
    requires Input(c, m, q) && FileOf(f, Appended(PartsOf(c, m, q))) && k == Half(c, m, ShnumAt(c)) + if rel then 1 else 0
    requires h == NewHeader(c, |m|, q, OldOf(c, m, q), rel) && Encodable(c, {h})
    ensures Readable(c, f) && k < Half(c, f, ShnumAt(c))
    ensures
      var s := HeaderOf(c, f, k);
      s.addr == 0 && s.addralign == (if c.wide then 8 else 4) &&
      if rel then
        s.stype == (if q.relEntsize == (if c.wide then 24 else 12) then 4 else 9) && s.flags == 0 &&
        s.link == q.symLink && s.info == k - 1 && s.entsize == q.relEntsize
      else s.stype == 1 && s.flags == 2 && s.link == 0 && s.info == 0 && s.entsize == s.addralign
  {
    NewSectionHeader(c, m, q, f, k, rel, h);
  }

  lemma NewName(c: Class, q: Request, old_: Bytes)
    ensures NameIn(Some(old_ + (McName(c, q) + [0])), |old_| + (|McName(c, q)| - |MCOUNT_LOC|)) == Some(MCOUNT_LOC)
    ensures NameIn(Some(old_ + (McName(c, q) + [0])), |old_|) == Some(McName(c, q))
  {
    NameBehind(old_, if Rela(c, q) then RELA else REL, MCOUNT_LOC);
    NameBehind(old_, [], McName(c, q));
    assert [] + McName(c, q) == McName(c, q);
  }

  lemma NameOfNew(c: Class, q: Request, n: nat, old_: Old, rel: bool, names: Bytes)
    requires |names| == old_.size
    ensures
      NameIn(Some(names + (McName(c, q) + [0])), NewHeader(c, n, q, old_, rel).name) ==
      Some(if rel then McName(c, q) else MCOUNT_LOC)
  {
    NewName(c, q, names);
  }

  /** And are found by name. */
  lemma NewSectionName(c: Class, m: Bytes, q: Request, f: Bytes, k: nat, rel: bool, h: Shdr)
    requires Input(c, m, q) && FileOf(f, Appended(PartsOf(c, m, q))) && k == Half(c, m, ShnumAt(c)) + if rel then 1 else 0
    requires h == NewHeader(c, |m|, q, OldOf(c, m, q), rel) && Encodable(c, {h})
    ensures Readable(c, f) && k < Half(c, f, ShnumAt(c))
    ensures NameOf(c, f, k) == Some(if rel then McName(c, q) else MCOUNT_LOC)
  {
    NewSectionHeader(c, m, q, f, k, rel, h);
    FileNames(c, m, q, f);
    NameOfNew(c, q, |m|, OldOf(c, m, q), rel, ContentsOf(m, NamesOf(c, m)).value);
  }

  /** The file put in place of the input is one that the lemmas above are about; there is none
      exactly when the input has no section names. */
  method AppendAndWrite(o: OutFile, c: Class, q: Request, ghost m: Bytes) returns (f: Option<Bytes>)
    requires o.Valid() && o.append == null && o.img == Cells(m) && InBounds(c, m, q)
    modifies o, o.map_
    ensures f.Some? <==> OldOf(c, m, q).size > 0
    ensures f.Some? ==> FileOf(f.value, Appended(PartsOf(c, m, q)))
  {
    var ok := AppendFunc(o, c, q, m);
    if !ok { return None; }
    f := o.Output();
  }
}
