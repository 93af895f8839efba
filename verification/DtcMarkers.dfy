/** Property values under construction: bytes with markers at offsets. */
module DtcMarkers {
  import opened DtcTree

  datatype MarkerType = TypeNone | RefPhandle | RefPath | Label | TypeUint8 | TypeUint16 | TypeUint32 | TypeUint64 | TypeString

  datatype Marker = Marker(mtype: MarkerType, offset: nat, ref: Bytes)

  /** The bytes and the markers in list order. */
  datatype Val = Val(bytes: Bytes, markers: seq<Marker>)

  // ----- Operations on values -----

  function Moved(ms: seq<Marker>, shift: nat): (r: seq<Marker>)
    ensures |r| == |ms| && forall i :: 0 <= i < |ms| ==> r[i] == ms[i].(offset := ms[i].offset + shift)
  {
    seq(|ms|, i requires 0 <= i < |ms| => ms[i].(offset := ms[i].offset + shift))
  }

  function Appended(d: Val, p: Bytes): Val {
    Val(d.bytes + p, d.markers)
  }

  function WithMarker(d: Val, mtype: MarkerType, ref: Bytes): Val {
    Val(d.bytes, d.markers + [Marker(mtype, |d.bytes|, ref)])
  }

  function Merged(d1: Val, d2: Val): Val {
    Val(d1.bytes + d2.bytes, d1.markers + Moved(d2.markers, |d1.bytes|))
  }

  /** Bytes are inserted behind marker k; the markers that follow it in the list move along. */
  function Inserted(d: Val, k: nat, p: Bytes): Val
    requires k < |d.markers| && d.markers[k].offset <= |d.bytes|
  {
    var o := d.markers[k].offset;
    Val(d.bytes[..o] + p + d.bytes[o..], d.markers[..k + 1] + Moved(d.markers[k + 1..], |p|))
  }

  /** Offsets never decrease along the list and stay within the bytes. */
  predicate Sorted(ms: seq<Marker>, len: nat) {
    (forall i :: 0 <= i < |ms| ==> ms[i].offset <= len) &&
    (forall i, j :: 0 <= i < j < |ms| ==> ms[i].offset <= ms[j].offset)
  }

  // ----- Order is kept -----

  lemma WithMarkerSorted(d: Val, mtype: MarkerType, ref: Bytes)
    requires Sorted(d.markers, |d.bytes|)
    ensures Sorted(WithMarker(d, mtype, ref).markers, |d.bytes|)
  {
  }

  lemma MergedSorted(d1: Val, d2: Val)
    requires Sorted(d1.markers, |d1.bytes|) && Sorted(d2.markers, |d2.bytes|)
    ensures Sorted(Merged(d1, d2).markers, |Merged(d1, d2).bytes|)
  {
  }

  lemma InsertedSorted(d: Val, k: nat, p: Bytes)
    requires Sorted(d.markers, |d.bytes|) && k < |d.markers|
    ensures Sorted(Inserted(d, k, p).markers, |Inserted(d, k, p).bytes|)
  {
  }

  /** The ways in which values come about; an insertion names a marker by its place. */
  datatype Build =
    | Empty
    | Append(first: Build, p: Bytes)
    | Mark(first: Build, mtype: MarkerType, ref: Bytes)
    | Join(first: Build, second: Build)
    | Insert(first: Build, k: nat, p: Bytes)

  function Built(b: Build): (d: Val)
    ensures Sorted(d.markers, |d.bytes|)
  {
    match b
    case Empty => Val([], [])
    case Append(f, p) => Appended(Built(f), p)
    case Mark(f, t, r) => WithMarkerSorted(Built(f), t, r); WithMarker(Built(f), t, r)
    case Join(f, s) => MergedSorted(Built(f), Built(s)); Merged(Built(f), Built(s))
    case Insert(f, k, p) =>
      if k >= |Built(f).markers| then Built(f)
      else InsertedSorted(Built(f), k, p); Inserted(Built(f), k, p)
  }

  // ----- Path references -----

  /** What a marker calls for: the path of the node it refers to with its NUL, nothing if it is
      no path reference or nothing answers to the name. */
  function Text(m: Marker, paths: map<Bytes, Bytes>): Bytes {
    if m.mtype == RefPath && m.ref in paths then paths[m.ref] + [0] else []
  }

  /** The fixup from marker k on. */
  function Fixed(d: Val, k: nat, paths: map<Bytes, Bytes>): Val
    requires Sorted(d.markers, |d.bytes|)
    decreases |d.markers| - k
  {
    if k >= |d.markers| then d
    else
      var m := d.markers[k];
      if m.mtype == RefPath && m.ref in paths then
        InsertedSorted(d, k, Text(m, paths));
        Fixed(Inserted(d, k, Text(m, paths)), k + 1, paths)
      else Fixed(d, k + 1, paths)
  }

  // ----- Values cut at their markers -----

  /** A value cut at its markers: each marker stands behind its gap and before the rest. */
  datatype Segs = End(rest: Bytes) | Seg(gap: Bytes, mtype: MarkerType, ref: Bytes, next: Segs)

  function BytesOf(s: Segs): Bytes {
    match s
    case End(rest) => rest
    case Seg(gap, _, _, next) => gap + BytesOf(next)
  }

  function MarkersOf(s: Segs, pos: nat): seq<Marker> {
    match s
    case End(_) => []
    case Seg(gap, mtype, ref, next) => [Marker(mtype, pos + |gap|, ref)] + MarkersOf(next, pos + |gap|)
  }

  function Flat(s: Segs): Val {
    Val(BytesOf(s), MarkersOf(s, 0))
  }

  /** The offsets of a list that goes on at pos, up to len. */
  predicate Ordered(ms: seq<Marker>, pos: nat, len: nat) {
    if ms == [] then pos <= len else pos <= ms[0].offset <= len && Ordered(ms[1..], ms[0].offset, len)
  }

  lemma {:induction false} SortedIsOrdered(ms: seq<Marker>, pos: nat, len: nat)
    requires Sorted(ms, len) && pos <= len && (ms != [] ==> pos <= ms[0].offset)
    ensures Ordered(ms, pos, len)
  {
    if ms != [] { SortedIsOrdered(ms[1..], ms[0].offset, len); }
  }

  function Cut(rest: Bytes, ms: seq<Marker>, pos: nat): Segs
    requires Ordered(ms, pos, pos + |rest|)
  {
    if ms == [] then End(rest)
    else
      var n := ms[0].offset - pos;
      Seg(rest[..n], ms[0].mtype, ms[0].ref, Cut(rest[n..], ms[1..], ms[0].offset))
  }

  /** Cutting loses nothing. */
  lemma {:induction false} CutFlat(rest: Bytes, ms: seq<Marker>, pos: nat)
    requires Ordered(ms, pos, pos + |rest|)
    ensures BytesOf(Cut(rest, ms, pos)) == rest && MarkersOf(Cut(rest, ms, pos), pos) == ms
    decreases |ms|
  {
    if ms != [] {
      CutFlat(rest[ms[0].offset - pos..], ms[1..], ms[0].offset);
    }
  }

  lemma CutStep(gap: Bytes, rest: Bytes, m: Marker, ms: seq<Marker>, pos: nat)
    requires m.offset == pos + |gap| && Ordered(ms, m.offset, m.offset + |rest|)
    ensures Ordered([m] + ms, pos, pos + |gap + rest|)
    ensures Cut(gap + rest, [m] + ms, pos) == Seg(gap, m.mtype, m.ref, Cut(rest, ms, m.offset))
  {
    assert ([m] + ms)[1..] == ms;
    assert (gap + rest)[..|gap|] == gap && (gap + rest)[|gap|..] == rest;
  }

  /** Nor does putting together. */
  lemma {:induction false} FlatCut(s: Segs, pos: nat)
    ensures Ordered(MarkersOf(s, pos), pos, pos + |BytesOf(s)|)
    ensures Cut(BytesOf(s), MarkersOf(s, pos), pos) == s
  {
    if s.Seg? {
      var mid := pos + |s.gap|;
      var rest, ms := BytesOf(s.next), MarkersOf(s.next, mid);
      FlatCut(s.next, mid);
      CutStep(s.gap, rest, Marker(s.mtype, mid, s.ref), ms, pos);
    }
  }

  /** The cut form of a value. */
  function Segments(d: Val): Segs
    requires Sorted(d.markers, |d.bytes|)
  {
    SortedIsOrdered(d.markers, 0, |d.bytes|);
    Cut(d.bytes, d.markers, 0)
  }

  lemma SegmentsFlat(d: Val)
    requires Sorted(d.markers, |d.bytes|)
    ensures Flat(Segments(d)) == d
  {
    SortedIsOrdered(d.markers, 0, |d.bytes|);
    CutFlat(d.bytes, d.markers, 0);
  }

  // ----- What the fixup does -----

  function InFront(p: Bytes, s: Segs): Segs {
    match s
    case End(rest) => End(p + rest)
    case Seg(gap, _, _, _) => s.(gap := p + gap)
  }

  /** Every marker's text goes directly behind it. */
  function Woven(s: Segs, paths: map<Bytes, Bytes>): Segs {
    match s
    case End(_) => s
    case Seg(gap, mtype, ref, next) => s.(next := InFront(Text(Marker(mtype, 0, ref), paths), Woven(next, paths)))
  }

  /** Bytes and markers already passed, and the segments ahead. */
  function Behind(a: Bytes, xs: seq<Marker>, s: Segs): Val {
    Val(a + BytesOf(s), xs + MarkersOf(s, |a|))
  }

  lemma BehindSeg(a: Bytes, xs: seq<Marker>, s: Segs)
    requires s.Seg?
    ensures Behind(a, xs, s) == Behind(a + s.gap, xs + [Marker(s.mtype, |a| + |s.gap|, s.ref)], s.next)
  {
    assert a + (s.gap + BytesOf(s.next)) == a + s.gap + BytesOf(s.next);
    var m := Marker(s.mtype, |a| + |s.gap|, s.ref);
    assert xs + ([m] + MarkersOf(s.next, |a| + |s.gap|)) == xs + [m] + MarkersOf(s.next, |a| + |s.gap|);
  }

  lemma BehindInFront(a: Bytes, xs: seq<Marker>, p: Bytes, s: Segs)
    ensures Behind(a + p, xs, s) == Behind(a, xs, InFront(p, s))
  {
    match s
    case End(rest) =>
      assert a + p + rest == a + (p + rest);
    case Seg(gap, _, _, next) =>
      assert a + p + (gap + BytesOf(next)) == a + ((p + gap) + BytesOf(next));
  }

  lemma {:induction false} MovedMarkers(s: Segs, pos: nat, n: nat)
    ensures Moved(MarkersOf(s, pos), n) == MarkersOf(s, pos + n)
  {
    if s.Seg? {
      MovedMarkers(s.next, pos + |s.gap|, n);
    }
  }

  /** Inserting at the marker just passed. */
  lemma InsertedBehind(a: Bytes, xs: seq<Marker>, m: Marker, s: Segs, p: Bytes)
    requires m.offset == |a|
    ensures
      var d := Behind(a, xs + [m], s);
      |xs| < |d.markers| && d.markers[|xs|] == m && m.offset <= |d.bytes| &&
      Inserted(d, |xs|, p) == Behind(a + p, xs + [m], s)
  {
    var d := Behind(a, xs + [m], s);
    assert d.bytes[..|a|] == a && d.bytes[|a|..] == BytesOf(s);
    assert d.markers[..|xs| + 1] == xs + [m] && d.markers[|xs| + 1..] == MarkersOf(s, |a|);
    MovedMarkers(s, |a|, |p|);
  }

  lemma {:induction false} FixedBehind(a: Bytes, xs: seq<Marker>, s: Segs, paths: map<Bytes, Bytes>)
    requires Sorted(Behind(a, xs, s).markers, |Behind(a, xs, s).bytes|)
    ensures Fixed(Behind(a, xs, s), |xs|, paths) == Behind(a, xs, Woven(s, paths))
    decreases s
  {
    if s.Seg? {
      var m, g := Marker(s.mtype, |a| + |s.gap|, s.ref), a + s.gap;
      var p := Text(m, paths);
      FixedSeg(a, xs, s, m, p, paths);
      FixedBehind(g + p, xs + [m], s.next, paths);
      BehindInFront(g, xs + [m], p, Woven(s.next, paths));
      BehindSeg(a, xs, Woven(s, paths));
    }
  }

  lemma FixedSeg(a: Bytes, xs: seq<Marker>, s: Segs, m: Marker, p: Bytes, paths: map<Bytes, Bytes>)
    requires s.Seg? && m == Marker(s.mtype, |a| + |s.gap|, s.ref) && p == Text(m, paths)
    requires Sorted(Behind(a, xs, s).markers, |Behind(a, xs, s).bytes|)
    ensures
      var r := Behind(a + s.gap + p, xs + [m], s.next);
      Sorted(r.markers, |r.bytes|) && Fixed(Behind(a, xs, s), |xs|, paths) == Fixed(r, |xs| + 1, paths)
  {
    BehindSeg(a, xs, s);
    InsertedBehind(a + s.gap, xs, m, s.next, p);
    FixedStep(Behind(a, xs, s), |xs|, Behind(a + s.gap + p, xs + [m], s.next), paths);
  }

  lemma FixedStep(d: Val, k: nat, r: Val, paths: map<Bytes, Bytes>)
    requires Sorted(d.markers, |d.bytes|) && k < |d.markers| && r == Inserted(d, k, Text(d.markers[k], paths))
    ensures Sorted(r.markers, |r.bytes|) && Fixed(d, k, paths) == Fixed(r, k + 1, paths)
  {
    InsertedSorted(d, k, Text(d.markers[k], paths));
    if Text(d.markers[k], paths) == [] { InsertedNothing(d, k); }
  }

  lemma InsertedNothing(d: Val, k: nat)
    requires k < |d.markers| && d.markers[k].offset <= |d.bytes|
    ensures Inserted(d, k, []) == d
  {
    assert Moved(d.markers[k + 1..], 0) == d.markers[k + 1..];
  }

  /** Cut at its markers, the value after the fixup is the value before with every resolved
      path, and nothing else, put directly behind the marker that asked for it. */
  lemma FixupWeaves(d: Val, paths: map<Bytes, Bytes>)
    requires Sorted(d.markers, |d.bytes|)
    ensures Sorted(Fixed(d, 0, paths).markers, |Fixed(d, 0, paths).bytes|)
    ensures Segments(Fixed(d, 0, paths)) == Woven(Segments(d), paths)
  {
    var s := Segments(d);
    SegmentsFlat(d);
    BehindNothing(s);
    FixedBehind([], [], s, paths);
    BehindNothing(Woven(s, paths));
    FixedSorted(d, 0, paths);
    FlatCut(Woven(s, paths), 0);
  }

  lemma BehindNothing(s: Segs)
    ensures Behind([], [], s) == Flat(s)
  {
    assert [] + BytesOf(s) == BytesOf(s) && [] + MarkersOf(s, 0) == MarkersOf(s, 0);
  }

  lemma {:induction false} FixedSorted(d: Val, k: nat, paths: map<Bytes, Bytes>)
    requires Sorted(d.markers, |d.bytes|)
    ensures Sorted(Fixed(d, k, paths).markers, |Fixed(d, k, paths).bytes|)
    decreases |d.markers| - k
  {
    if k < |d.markers| {
      var r := Inserted(d, k, Text(d.markers[k], paths));
      FixedStep(d, k, r, paths);
      FixedSorted(r, k + 1, paths);
    }
  }

  lemma Shifted(was: Bytes, now: Bytes, o: nat, len: nat, n: nat)
    requires |was| == |now| && o <= len && len + n <= |was|
    requires (forall j :: 0 <= j < o ==> now[j] == was[j]) && forall t :: o + n <= t < len + n ==> now[t] == was[t - n]
    ensures now[..o] == was[..o] && now[o + n..len + n] == was[o..len]
  {
  }

  // ----- The buffer -----

  /** A growing buffer: len bytes of val are in use. */
  class Data {
    var val: array<Byte>
    var len: nat
    var markers: seq<Marker>

    ghost predicate Valid()
      reads this
    {
      len <= val.Length
    }

    ghost function Value(): Val
      requires Valid()
      reads this, val
    {
      Val(val[..len], markers)
    }

    constructor ()
      ensures Valid() && Value() == Val([], []) && fresh(val)
    {
      val := new Byte[0];
      len, markers := 0, [];
    }

    /** Room for xlen more bytes, found by doubling. */
    method GrowFor(xlen: nat)
      requires Valid()
      modifies this
      ensures Valid() && Value() == old(Value()) && len + xlen <= val.Length && unchanged(`len, `markers)
      ensures val == old(val) || fresh(val)
    {
      if xlen == 0 { return; }
      var newsize := xlen;
      while len + xlen > newsize
        invariant newsize > 0
        decreases len + xlen - newsize
      {
        newsize := newsize * 2;
      }
      var nd := new Byte[newsize];
      forall i | 0 <= i < len { nd[i] := val[i]; }
      assert nd[..len] == val[..len];
      val := nd;
    }

    method AppendData(p: Bytes)
      requires Valid()
      modifies this, val
      ensures Valid() && Value() == Appended(old(Value()), p)
      ensures val == old(val) || fresh(val)
    {
      ghost var was := val[..len];
      GrowFor(|p|);
      assert val[..len] == was;
      forall i | 0 <= i < |p| { val[len + i] := p[i]; }
      assert val[..len + |p|] == was + p;
      len := len + |p|;
    }

    method AddMarker(mtype: MarkerType, ref: Bytes)
      requires Valid()
      modifies this
      ensures Valid() && val == old(val) && Value() == WithMarker(old(Value()), mtype, ref)
    {
      markers := markers + [Marker(mtype, len, ref)];
    }

    method MergeData(d2: Data)
      requires Valid() && d2.Valid() && d2 != this && d2.val != val
      modifies this, val
      ensures Valid() && Value() == Merged(old(Value()), old(d2.Value()))
      ensures val == old(val) || fresh(val)
    {
      var at := len;
      AppendData(d2.val[..d2.len]);
      var moved := d2.markers;
      for i := 0 to |moved|
        invariant |moved| == |d2.markers|
        invariant forall j :: 0 <= j < |moved| ==> moved[j] == if j < i then d2.markers[j].(offset := d2.markers[j].offset + at) else d2.markers[j]
      {
        moved := moved[i := moved[i].(offset := moved[i].offset + at)];
      }
      assert moved == Moved(d2.markers, at);
      markers := markers + moved;
    }

    /** Make a gap of n bytes at offset o. */
    method ShiftUp(o: nat, n: nat)
      requires Valid() && o <= len && len + n <= val.Length
      modifies val
      ensures val[..o] == old(val[..o]) && val[o + n..len + n] == old(val[o..len])
    {
      var i := len;
      ghost var was := val[..];
      while i > o
        invariant o <= i <= len
        invariant forall j :: 0 <= j < i ==> val[j] == was[j]
        invariant forall t :: i + n <= t < len + n ==> val[t] == was[t - n]
      {
        val[i - 1 + n] := val[i - 1];
        i := i - 1;
      }
      ghost var now := val[..];
      Shifted(was, now, o, len, n);
      assert val[..o] == now[..o] && val[o + n..len + n] == now[o + n..len + n];
    }

    method CopyIn(o: nat, p: Bytes)
      requires Valid() && o + |p| <= val.Length
      modifies val
      ensures val[..o] == old(val[..o]) && val[o..o + |p|] == p && val[o + |p|..] == old(val[o + |p|..])
    {
      forall i | 0 <= i < |p| { val[o + i] := p[i]; }
    }

    method InsertBytes(o: nat, p: Bytes)
      requires Valid() && o <= len && len + |p| <= val.Length
      modifies `len, val
      ensures Valid() && val[..len] == old(val[..o]) + p + old(val[o..len])
    {
      ghost var was := val[..len];
      ShiftUp(o, |p|);
      CopyIn(o, p);
      assert val[o + |p|..len + |p|] == was[o..];
      len := len + |p|;
    }

    /** The markers behind marker k move up by n. */
    method MoveMarkers(k: nat, n: nat)
      requires k < |markers|
      modifies `markers
      ensures markers == old(markers)[..k + 1] + Moved(old(markers)[k + 1..], n)
    {
      ghost var was := markers;
      var i := k + 1;
      while i < |markers|
        invariant k < i <= |markers| == |was|
        invariant forall j :: 0 <= j < |was| ==> markers[j] == if k < j < i then was[j].(offset := was[j].offset + n) else was[j]
      {
        markers := markers[i := markers[i].(offset := markers[i].offset + n)];
        i := i + 1;
      }
    }

    method InsertAtMarker(k: nat, p: Bytes)
      requires Valid() && k < |markers| && markers[k].offset <= len
      modifies this, val
      ensures Valid() && Value() == Inserted(old(Value()), k, p)
      ensures val == old(val) || fresh(val)
    {
      ghost var was := Value();
      var o := markers[k].offset;
      GrowFor(|p|);
      assert val[..len] == was.bytes;
      assert val[..o] == was.bytes[..o] && val[o..len] == was.bytes[o..];
      InsertBytes(o, p);
      MoveMarkers(k, |p|);
    }

    /** The path references of one property. */
    method FixupPathReferences(paths: map<Bytes, Bytes>)
      requires Valid() && Sorted(markers, len)
      modifies this, val
      ensures Valid() && Value() == Fixed(old(Value()), 0, paths)
    {
      ghost var was := Value();
      var k := 0;
      while k < |markers|
        invariant Valid() && Sorted(markers, |Value().bytes|) && (val == old(val) || fresh(val))
        invariant Fixed(Value(), k, paths) == Fixed(was, 0, paths)
        decreases |markers| - k
      {
        var m := markers[k];
        if m.mtype == RefPath && m.ref in paths {
          ghost var before := Value();
          InsertedSorted(before, k, Text(m, paths));
          InsertAtMarker(k, paths[m.ref] + [0]);
        }
        k := k + 1;
      }
    }
  }
}
