/** Finding the calls of mcount among the relocations, and noting where each of them is. */
module RecordmcountSift {

  /** A relocation: the place it patches and the number of its symbol. */
  datatype Reloc = Reloc(offset: nat, sym: nat)

  /** The relocations of one section of code, slack the bytes behind the last whole one; calls
      tells which symbols of its symbol table are named as mcount is, recsym is the symbol its
      places are noted from and recval its value. */
  datatype Section = Section(rels: seq<Reloc>, slack: nat, calls: nat -> bool, recsym: nat, recval: nat)

  /** A relocation put out, for one word of the table of places. */
  datatype Entry = Entry(offset: nat, sym: nat, rtype: nat, addend: nat)

  /** What is the same for all sections of a file: the word size, whether relocations have
      addends, whether calls are pairs of which one counts, and how a place is adjusted. */
  datatype File = File(wide: bool, rela: bool, mips: bool, adjust: int, rtype: nat)

  function WordSize(f: File): nat {
    if f.wide then 8 else 4
  }

  /** In the arithmetic of an address. */
  function Wrapped(f: File, x: int): nat {
    if f.wide then x % 0x1_0000_0000_0000_0000 else x % 0x1_0000_0000
  }

  /** The size of a relocation in the file. */
  function EntrySize(f: File): nat {
    (if f.rela then 3 else 2) * WordSize(f)
  }

  // ----- Which calls are fake -----

  /** The offset tested last, before there is one. */
  function Unset(f: File): nat {
    Wrapped(f, -1)
  }

  /** A call four bytes behind the one tested last belongs to it. */
  predicate IsFake(f: File, last: nat, r: Reloc) {
    f.mips && last != Unset(f) && Wrapped(f, r.offset - last) == 4
  }

  /** The offset tested last once r has been tested. */
  function Tested(f: File, last: nat, r: Reloc): nat {
    if f.mips then r.offset else last
  }

  function TestedAll(f: File, last: nat, rs: seq<Reloc>): nat
    decreases |rs|
  {
    if rs == [] then last else TestedAll(f, Tested(f, last, rs[0]), rs[1..])
  }

  /** What is left of candidates tested one after the other. */
  function Genuine(f: File, last: nat, rs: seq<Reloc>): (g: seq<Reloc>)
    ensures forall r :: r in g ==> r in rs
    decreases |rs|
  {
    if rs == [] then []
    else (if IsFake(f, last, rs[0]) then [] else [rs[0]]) + Genuine(f, Tested(f, last, rs[0]), rs[1..])
  }

  lemma {:induction false} GenuineJoin(f: File, last: nat, a: seq<Reloc>, b: seq<Reloc>)
    ensures Genuine(f, last, a + b) == Genuine(f, last, a) + Genuine(f, TestedAll(f, last, a), b)
    decreases |a|
  {
    if a == [] {
      assert a + b == b;
    } else {
      assert (a + b)[1..] == a[1..] + b;
      GenuineJoin(f, Tested(f, last, a[0]), a[1..], b);
    }
  }

  /** Each call of MIPS is a pair of relocations four bytes apart. */
  function Pairs(offsets: seq<nat>, sym: nat): seq<Reloc> {
    if offsets == [] then []
    else [Reloc(offsets[0], sym), Reloc(offsets[0] + 4, sym)] + Pairs(offsets[1..], sym)
  }

  function Firsts(offsets: seq<nat>, sym: nat): seq<Reloc> {
    if offsets == [] then [] else [Reloc(offsets[0], sym)] + Firsts(offsets[1..], sym)
  }

  /** No pair begins four bytes behind what was tested last. */
  predicate Spaced(f: File, last: nat, offsets: seq<nat>)
    decreases |offsets|
  {
    offsets != [] ==>
      offsets[0] + 4 < Unset(f) && !IsFake(f, last, Reloc(offsets[0], 0)) && Spaced(f, offsets[0] + 4, offsets[1..])
  }

  /** The second of a pair is fake, whatever comes after it. */
  lemma PairGenuine(f: File, last: nat, a: Reloc, b: Reloc, rest: seq<Reloc>)
    requires f.mips && !IsFake(f, last, a) && b.offset == a.offset + 4 && b.offset < Unset(f)
    ensures Genuine(f, last, [a, b] + rest) == [a] + Genuine(f, b.offset, rest)
  {
    var more := [b] + rest;
    assert [a, b] + rest == [a] + more && ([a] + more)[1..] == more && more[1..] == rest;
    assert IsFake(f, a.offset, b);
    assert Genuine(f, a.offset, more) == [] + Genuine(f, b.offset, rest);
  }

  /** Of each pair the first is genuine. */
  lemma {:induction false} PairsGenuine(f: File, last: nat, offsets: seq<nat>, sym: nat)
    requires f.mips && Spaced(f, last, offsets)
    ensures Genuine(f, last, Pairs(offsets, sym)) == Firsts(offsets, sym)
    decreases |offsets|
  {
    if offsets != [] {
      PairGenuine(f, last, Reloc(offsets[0], sym), Reloc(offsets[0] + 4, sym), Pairs(offsets[1..], sym));
      PairsGenuine(f, offsets[0] + 4, offsets[1..], sym);
    }
  }

  // ----- Which relocations are calls -----

  /** The symbol of the calls, which stays 0 until the first of them has been seen. */
  function Found(m: nat, r: Reloc, calls: nat -> bool): nat {
    if m != 0 then m else if calls(r.sym) then r.sym else 0
  }

  /** The relocations that are tested. */
  function Candidates(rels: seq<Reloc>, m: nat, calls: nat -> bool): seq<Reloc> {
    if rels == [] then []
    else
      var m' := Found(m, rels[0], calls);
      (if m' == rels[0].sym then [rels[0]] else []) + Candidates(rels[1..], m', calls)
  }

  function CallsTo(rels: seq<Reloc>, sym: nat): seq<Reloc> {
    if rels == [] then [] else (if rels[0].sym == sym then [rels[0]] else []) + CallsTo(rels[1..], sym)
  }

  /** How many relocations come before the first call. */
  function Before(rels: seq<Reloc>, calls: nat -> bool): (n: nat)
    ensures n <= |rels|
    ensures n < |rels| ==> calls(rels[n].sym) && rels[n].sym != 0
  {
    if rels == [] || (calls(rels[0].sym) && rels[0].sym != 0) then 0 else 1 + Before(rels[1..], calls)
  }

  /** The calls: the relocations of the symbol of the first of them. */
  function Calls(rels: seq<Reloc>, calls: nat -> bool): seq<Reloc> {
    var n := Before(rels, calls);
    if n == |rels| then [] else CallsTo(rels, rels[n].sym)
  }

  /** The relocations without a symbol in front of the first call. */
  function Front(rels: seq<Reloc>, calls: nat -> bool): seq<Reloc> {
    CallsTo(rels[..Before(rels, calls)], 0)
  }

  /** Once the symbol is known, its relocations are tested and no others. */
  lemma {:induction false} CandidatesKnown(rels: seq<Reloc>, m: nat, calls: nat -> bool)
    requires m != 0
    ensures Candidates(rels, m, calls) == CallsTo(rels, m)
  {
    if rels != [] { CandidatesKnown(rels[1..], m, calls); }
  }

  lemma CallsStep(rels: seq<Reloc>, calls: nat -> bool)
    requires rels != [] && Before(rels, calls) > 0
    ensures Calls(rels, calls) == Calls(rels[1..], calls)
  {
    var n := Before(rels, calls);
    if n < |rels| { assert rels[n] == rels[1..][n - 1] && rels[0].sym != rels[n].sym; }
  }

  /** The relocation in front, if it has no symbol. */
  function Head(rels: seq<Reloc>): seq<Reloc>
    requires rels != []
  {
    if rels[0].sym == 0 then [rels[0]] else []
  }

  lemma FrontStep(rels: seq<Reloc>, calls: nat -> bool)
    requires rels != [] && Before(rels, calls) > 0
    ensures Front(rels, calls) == Head(rels) + Front(rels[1..], calls)
  {
    var n := Before(rels, calls);
    assert rels[..n][1..] == rels[1..][..n - 1];
  }

  lemma CandidatesStep(rels: seq<Reloc>, calls: nat -> bool)
    requires rels != [] && Before(rels, calls) > 0
    ensures Candidates(rels, 0, calls) == Head(rels) + Candidates(rels[1..], 0, calls)
  {
  }

  lemma CandidatesAtCall(rels: seq<Reloc>, calls: nat -> bool)
    requires Before(rels, calls) == 0
    ensures Candidates(rels, 0, calls) == Calls(rels, calls)
  {
    if rels != [] { CandidatesKnown(rels[1..], rels[0].sym, calls); }
  }

  /** Before the first call, relocations without a symbol are tested as if they were calls. */
  lemma {:induction false} CandidatesAre(rels: seq<Reloc>, calls: nat -> bool)
    ensures Candidates(rels, 0, calls) == Front(rels, calls) + Calls(rels, calls)
    decreases |rels|
  {
    var n := Before(rels, calls);
    if n == 0 {
      CandidatesAtCall(rels, calls);
      assert rels[..n] == [];
    } else {
      CandidatesStep(rels, calls);
      CandidatesAre(rels[1..], calls);
      CallsStep(rels, calls);
      FrontStep(rels, calls);
      Regrouped(Head(rels), Front(rels[1..], calls), Calls(rels, calls));
    }
  }

  lemma Regrouped<T>(a: seq<T>, b: seq<T>, c: seq<T>)
    ensures a + (b + c) == a + b + c
  {
  }

  /** What is noted of a section. */
  function Picked(f: File, s: Section, last: nat): seq<Reloc> {
    Genuine(f, last, Candidates(s.rels, 0, s.calls))
  }

  /** What should be noted. */
  function Wanted(f: File, s: Section, last: nat): seq<Reloc> {
    Genuine(f, last, Calls(s.rels, s.calls))
  }

  lemma {:induction false} CallsToHave(rels: seq<Reloc>, sym: nat)
    ensures forall r :: r in CallsTo(rels, sym) ==> r.sym == sym
  {
    if rels != [] { CallsToHave(rels[1..], sym); }
  }

  /** Only the first candidate is judged by what was tested before. */
  lemma GenuineFrom(f: File, a: nat, b: nat, rs: seq<Reloc>)
    ensures Genuine(f, a, rs) == Genuine(f, b, rs) <==> (rs != [] ==> (IsFake(f, a, rs[0]) <==> IsFake(f, b, rs[0])))
  {
    if rs != [] && !f.mips {
      assert !IsFake(f, a, rs[0]) && !IsFake(f, b, rs[0]);
      NoneFake(f, a, rs);
      NoneFake(f, b, rs);
    } else if rs != [] {
      var rest := Genuine(f, rs[0].offset, rs[1..]);
      assert |[rs[0]] + rest| == 1 + |[] + rest|;
    }
  }

  lemma {:induction false} NoneFake(f: File, last: nat, rs: seq<Reloc>)
    requires !f.mips
    ensures Genuine(f, last, rs) == rs
    decreases |rs|
  {
    if rs != [] { NoneFake(f, last, rs[1..]); }
  }

  lemma PickedIs(f: File, s: Section, last: nat)
    ensures
      var front := Front(s.rels, s.calls);
      Picked(f, s, last) == Genuine(f, last, front) + Genuine(f, TestedAll(f, last, front), Calls(s.rels, s.calls))
  {
    CandidatesAre(s.rels, s.calls);
    GenuineJoin(f, last, Front(s.rels, s.calls), Calls(s.rels, s.calls));
  }

  lemma FrontAndCalls(s: Section)
    ensures forall r :: r in Front(s.rels, s.calls) ==> r.sym == 0
    ensures forall r :: r in Calls(s.rels, s.calls) ==> r.sym != 0
  {
    var n := Before(s.rels, s.calls);
    CallsToHave(s.rels[..n], 0);
    if n < |s.rels| { CallsToHave(s.rels, s.rels[n].sym); }
  }

  lemma NothingAdded(a: seq<Reloc>, b: seq<Reloc>, c: seq<Reloc>)
    requires (forall r :: r in a ==> r.sym == 0) && (forall r :: r in c ==> r.sym != 0)
    ensures a + b == c <==> a == [] && b == c
  {
    assert a != [] ==> (a + b)[0] == a[0] && (a + b)[0].sym == 0;
    if a == [] { assert a + b == b; }
  }

  /** What is noted is what should be, if and only if what comes without a symbol before the first
      call is all fake and does not make the first call a fake one or a genuine one. */
  lemma PickedExactly(f: File, s: Section, last: nat)
    ensures
      var front, calls := Front(s.rels, s.calls), Calls(s.rels, s.calls);
      Picked(f, s, last) == Wanted(f, s, last) <==>
      Genuine(f, last, front) == [] &&
      (calls != [] ==> (IsFake(f, TestedAll(f, last, front), calls[0]) <==> IsFake(f, last, calls[0])))
  {
    var front, calls := Front(s.rels, s.calls), Calls(s.rels, s.calls);
    PickedIs(f, s, last);
    FrontAndCalls(s);
    NothingAdded(Genuine(f, last, front), Genuine(f, TestedAll(f, last, front), calls), Genuine(f, last, calls));
    GenuineFrom(f, TestedAll(f, last, front), last, calls);
  }

  // ----- What is put out -----

  /** The place of a call, counted from the section's symbol. */
  function Place(f: File, s: Section, r: Reloc): nat {
    Wrapped(f, r.offset - s.recval + f.adjust)
  }

  /** The symbol's value and the place make up the adjusted offset, in the arithmetic of an address. */
  lemma PlaceMeans(f: File, s: Section, r: Reloc)
    ensures Wrapped(f, s.recval + Place(f, s, r)) == Wrapped(f, r.offset + f.adjust)
    ensures Place(f, s, r) < if f.wide then 0x1_0000_0000_0000_0000 else 0x1_0000_0000
  {
    WrappedSum(f, s.recval, r.offset - s.recval + f.adjust);
  }

  lemma WrappedSum(f: File, x: int, y: int)
    ensures Wrapped(f, x + Wrapped(f, y)) == Wrapped(f, x + y)
  {
  }

  /** The table of places and the relocations for it. */
  datatype Out = Out(mloc: seq<nat>, mrel: seq<Entry>)

  /** One call more: a word and the relocation that patches it; the place goes into the
      relocation if that has an addend, into the word if not. */
  function Noted(f: File, s: Section, o: Out, r: Reloc): Out {
    Out(o.mloc + [if f.rela then 0 else Place(f, s, r)],
        o.mrel + [Entry(|o.mloc| * WordSize(f), s.recsym, f.rtype, if f.rela then Place(f, s, r) else 0)])
  }

  function AllNoted(f: File, s: Section, o: Out, rs: seq<Reloc>): Out
    decreases |rs|
  {
    if rs == [] then o else AllNoted(f, s, Noted(f, s, o, rs[0]), rs[1..])
  }

  function Sifted(f: File, s: Section, o: Out, last: nat): Out {
    AllNoted(f, s, o, Picked(f, s, last))
  }

  /** The offset tested last once a section is done. */
  function After(f: File, s: Section, last: nat): nat {
    TestedAll(f, last, Candidates(s.rels, 0, s.calls))
  }

  function AllSifted(f: File, ss: seq<Section>, o: Out, last: nat): Out
    decreases |ss|
  {
    if ss == [] then o else AllSifted(f, ss[1..], Sifted(f, ss[0], o, last), After(f, ss[0], last))
  }

  /** A place: a symbol and the distance from it. */
  datatype Point = Point(sym: nat, distance: nat)

  /** What the word that relocation k patches will lead to. */
  function Resolved(f: File, o: Out, k: nat): Point
    requires k < |o.mrel| && |o.mloc| == |o.mrel|
  {
    Point(o.mrel[k].sym, if f.rela then o.mrel[k].addend else o.mloc[k])
  }

  function Points(f: File, s: Section, rs: seq<Reloc>): (ps: seq<Point>)
    ensures |ps| == |rs| && forall i :: 0 <= i < |rs| ==> ps[i] == Point(s.recsym, Place(f, s, rs[i]))
  {
    if rs == [] then [] else [Point(s.recsym, Place(f, s, rs[0]))] + Points(f, s, rs[1..])
  }

  function AllPoints(f: File, ss: seq<Section>, last: nat): seq<Point>
    decreases |ss|
  {
    if ss == [] then [] else Points(f, ss[0], Picked(f, ss[0], last)) + AllPoints(f, ss[1..], After(f, ss[0], last))
  }

  /** Relocation k patches word k, the words lead to these points. */
  ghost predicate LeadsTo(f: File, o: Out, ps: seq<Point>) {
    |o.mloc| == |o.mrel| == |ps| &&
    forall k :: 0 <= k < |ps| ==>
      o.mrel[k].offset == k * WordSize(f) && o.mrel[k].rtype == f.rtype && Resolved(f, o, k) == ps[k]
  }

  lemma {:induction false} NotedLeads(f: File, s: Section, o: Out, rs: seq<Reloc>, ps: seq<Point>)
    requires LeadsTo(f, o, ps)
    ensures LeadsTo(f, AllNoted(f, s, o, rs), ps + Points(f, s, rs))
    decreases |rs|
  {
    if rs == [] {
      assert ps + [] == ps;
    } else {
      var p := Point(s.recsym, Place(f, s, rs[0]));
      NotedLeads(f, s, Noted(f, s, o, rs[0]), rs[1..], ps + [p]);
      assert ps + [p] + Points(f, s, rs[1..]) == ps + ([p] + Points(f, s, rs[1..]));
    }
  }

  /** Over all sections, every relocation patches its own word, and the words lead to the calls
      picked, in order, whether relocations have addends or not. */
  lemma {:induction false} SiftedLeads(f: File, ss: seq<Section>, o: Out, last: nat, ps: seq<Point>)
    requires LeadsTo(f, o, ps)
    ensures LeadsTo(f, AllSifted(f, ss, o, last), ps + AllPoints(f, ss, last))
    decreases |ss|
  {
    if ss == [] {
      assert ps + [] == ps;
    } else {
      var more, next := Points(f, ss[0], Picked(f, ss[0], last)), After(f, ss[0], last);
      NotedLeads(f, ss[0], o, Picked(f, ss[0], last), ps);
      SiftedLeads(f, ss[1..], Sifted(f, ss[0], o, last), next, ps + more);
      assert ps + more + AllPoints(f, ss[1..], next) == ps + (more + AllPoints(f, ss[1..], next));
    }
  }

  // ----- Space -----

  /** All relocations, in bytes. */
  function TotalSize(f: File, ss: seq<Section>): nat {
    if ss == [] then 0 else |ss[0].rels| * EntrySize(f) + ss[0].slack + TotalSize(f, ss[1..])
  }

  /** What n relocations and those of the sections from k on take. */
  ghost predicate Fits(f: File, ss: seq<Section>, k: nat, n: nat, size: nat) {
    k <= |ss| && n * EntrySize(f) + TotalSize(f, ss[k..]) <= size
  }

  lemma Times(n: nat, r: nat, e: nat)
    ensures (n + r) * e == n * e + r * e
  {
  }

  lemma AtMostTimes(n: nat, m: nat, e: nat)
    requires n <= m
    ensures n * e <= m * e
  {
  }

  /** There is room for all of section k, however many of its relocations are calls. */
  lemma FitsNext(f: File, ss: seq<Section>, k: nat, n: nat, size: nat, n': nat)
    requires k < |ss| && Fits(f, ss, k, n, size)
    ensures n + |ss[k].rels| <= size / EntrySize(f) && n + |ss[k].rels| <= (size / 2) / WordSize(f)
    ensures n' <= n + |ss[k].rels| ==> Fits(f, ss, k + 1, n', size)
  {
    assert ss[k..][1..] == ss[k + 1..];
    Times(n, |ss[k].rels|, EntrySize(f));
    Room(f, size, n + |ss[k].rels|);
    if n' <= n + |ss[k].rels| { AtMostTimes(n', n + |ss[k].rels|, EntrySize(f)); }
  }

  /** A word takes at most half as much as a relocation. */
  lemma Room(f: File, total: nat, n: nat)
    requires n * EntrySize(f) <= total
    ensures n <= total / EntrySize(f) && n <= (total / 2) / WordSize(f)
  {
  }

  // ----- The program -----

  /** The buffers so far hold o. */
  ghost predicate Filled(o: Out, mloc: array<nat>, mrel: array<Entry>, n: nat)
    reads mloc, mrel
  {
    n == |o.mloc| == |o.mrel| && n <= mloc.Length && n <= mrel.Length && mloc[..n] == o.mloc && mrel[..n] == o.mrel
  }

  method Note(f: File, s: Section, r: Reloc, mloc: array<nat>, mrel: array<Entry>, n: nat, ghost o: Out)
    requires Filled(o, mloc, mrel, n) && n < mloc.Length && n < mrel.Length
    modifies mloc, mrel
    ensures Filled(Noted(f, s, o, r), mloc, mrel, n + 1)
  {
    var addend := Wrapped(f, r.offset - s.recval + f.adjust);
    if f.rela {
      mrel[n] := Entry(n * WordSize(f), s.recsym, f.rtype, addend);
      mloc[n] := 0;
    } else {
      mrel[n] := Entry(n * WordSize(f), s.recsym, f.rtype, 0);
      mloc[n] := addend;
    }
    assert mloc[..n + 1] == o.mloc + [mloc[n]] && mrel[..n + 1] == o.mrel + [mrel[n]];
  }

  /** Test a candidate. */
  method TestFake(f: File, last: nat, r: Reloc) returns (fake: bool, next: nat)
    ensures fake == IsFake(f, last, r) && next == Tested(f, last, r)
  {
    fake, next := false, last;
    if f.mips {
      fake := last != Unset(f) && Wrapped(f, r.offset - last) == 4;
      next := r.offset;
    }
  }

  /** What is still to be noted of a section. */
  ghost predicate Remains(f: File, s: Section, t: nat, m: nat, last: nat, o: Out, final: Out, end: nat) {
    t <= |s.rels| && AllNoted(f, s, o, Genuine(f, last, Candidates(s.rels[t..], m, s.calls))) == final &&
    TestedAll(f, last, Candidates(s.rels[t..], m, s.calls)) == end
  }

  lemma PassedOver(f: File, s: Section, t: nat, m: nat, last: nat, o: Out, final: Out, end: nat)
    requires t < |s.rels| && Remains(f, s, t, m, last, o, final, end)
    ensures
      var m' := Found(m, s.rels[t], s.calls);
      m' != s.rels[t].sym ==> Remains(f, s, t + 1, m', last, o, final, end)
  {
    assert s.rels[t..][1..] == s.rels[t + 1..];
    var m' := Found(m, s.rels[t], s.calls);
    var rest := Candidates(s.rels[t + 1..], m', s.calls);
    assert [] + rest == rest;
  }

  lemma PickedUp(f: File, s: Section, t: nat, m: nat, last: nat, o: Out, final: Out, end: nat)
    requires t < |s.rels| && Remains(f, s, t, m, last, o, final, end) && Found(m, s.rels[t], s.calls) == s.rels[t].sym
    ensures
      var r := s.rels[t];
      Remains(f, s, t + 1, r.sym, Tested(f, last, r), if IsFake(f, last, r) then o else Noted(f, s, o, r), final, end)
  {
    var r := s.rels[t];
    assert s.rels[t..][1..] == s.rels[t + 1..];
    var rest := Candidates(s.rels[t + 1..], r.sym, s.calls);
    assert ([r] + rest)[1..] == rest;
    var next := Genuine(f, Tested(f, last, r), rest);
    assert ([r] + next)[1..] == next && [] + next == next;
  }

  /** One section, behind what the sections before it have put out. */
  method SiftRelMcount(f: File, s: Section, mloc: array<nat>, mrel: array<Entry>, start: nat, last: nat, ghost o: Out)
    returns (n: nat, end: nat)
    requires Filled(o, mloc, mrel, start) && start + |s.rels| <= mloc.Length && start + |s.rels| <= mrel.Length
    modifies mloc, mrel
    ensures Filled(Sifted(f, s, o, last), mloc, mrel, n) && n <= start + |s.rels| && end == After(f, s, last)
  {
    n, end := start, last;
    var mcountsym, t := 0, 0;
    ghost var now := o;
    ghost var final, over := Sifted(f, s, o, last), After(f, s, last);
    assert s.rels[0..] == s.rels;
    while t < |s.rels|
      invariant t <= |s.rels| && n <= start + t && Filled(now, mloc, mrel, n)
      invariant Remains(f, s, t, mcountsym, end, now, final, over)
    {
      var relp := s.rels[t];
      PassedOver(f, s, t, mcountsym, end, now, final, over);
      ghost var m := mcountsym;
      if mcountsym == 0 && s.calls(relp.sym) { mcountsym := relp.sym; }
      if mcountsym == relp.sym {
        PickedUp(f, s, t, m, end, now, final, over);
        var fake;
        fake, end := TestFake(f, end, relp);
        if !fake {
          Note(f, s, relp, mloc, mrel, n, now);
          now := Noted(f, s, now, relp);
          n := n + 1;
        }
      }
      t := t + 1;
    }
  }

  /** All sections, into buffers sized as if all relocations were calls: one of all the bytes and
      one of half as many. */
  method SiftSections(f: File, ss: seq<Section>) returns (mloc: array<nat>, mrel: array<Entry>, n: nat)
    ensures Filled(AllSifted(f, ss, Out([], []), Unset(f)), mloc, mrel, n)
    ensures mrel.Length == TotalSize(f, ss) / EntrySize(f) && mloc.Length == (TotalSize(f, ss) / 2) / WordSize(f)
    ensures LeadsTo(f, Out(mloc[..n], mrel[..n]), AllPoints(f, ss, Unset(f)))
  {
    var size := TotRelSize(f, ss);
    mloc := new nat[(size / 2) / WordSize(f)];
    mrel := new Entry[size / EntrySize(f)](_ => Entry(0, 0, 0, 0));
    n := 0;
    var last := Unset(f);
    ghost var now := Out([], []);
    assert ss[0..] == ss;
    for k := 0 to |ss|
      invariant Filled(now, mloc, mrel, n) && fresh(mloc) && fresh(mrel)
      invariant mrel.Length == size / EntrySize(f) && mloc.Length == (size / 2) / WordSize(f)
      invariant AllSifted(f, ss[k..], now, last) == AllSifted(f, ss, Out([], []), Unset(f))
      invariant Fits(f, ss, k, n, size)
    {
      assert ss[k..][1..] == ss[k + 1..];
      FitsNext(f, ss, k, n, size, 0);
      ghost var was, next := n, Sifted(f, ss[k], now, last);
      n, last := SiftRelMcount(f, ss[k], mloc, mrel, n, last, now);
      FitsNext(f, ss, k, was, size, n);
      now := next;
    }
    SiftedLeads(f, ss, Out([], []), Unset(f), []);
    assert [] + AllPoints(f, ss, Unset(f)) == AllPoints(f, ss, Unset(f));
  }

  /** The upper bound on space: as if all relocations were calls. */
  method TotRelSize(f: File, ss: seq<Section>) returns (n: nat)
    ensures n == TotalSize(f, ss)
  {
    n := 0;
    assert ss[0..] == ss;
    for k := 0 to |ss|
      invariant n + TotalSize(f, ss[k..]) == TotalSize(f, ss)
    {
      assert ss[k..][1..] == ss[k + 1..];
      n := n + |ss[k].rels| * EntrySize(f) + ss[k].slack;
    }
  }
}
