/** Sorting exception tables whose words are offsets from their own position. */
module Sortextable {

  const MODULUS: nat := 0x1_0000_0000

  /** A 32-bit word. */
  type Word = x: int | 0 <= x < 0x1_0000_0000

  type Entry = seq<Word>

  function Wrapped(x: int): Word {
    x % MODULUS
  }

  function Signed(w: Word): int {
    if w >= 0x8000_0000 then w - MODULUS else w
  }

  /** Every word plus its own byte position: what it points to, from the start of the table. */
  function Targets(ws: seq<Word>): (r: seq<Word>)
    ensures |r| == |ws|
  {
    seq(|ws|, j requires 0 <= j < |ws| => Wrapped(ws[j] + 4 * j))
  }

  /** The words that point to given targets. */
  function Relative(ts: seq<Word>): (r: seq<Word>)
    ensures |r| == |ts|
  {
    seq(|ts|, j requires 0 <= j < |ts| => Wrapped(ts[j] - 4 * j))
  }

  lemma WrappedMultiple(w: Word, k: int)
    ensures Wrapped(w + k * MODULUS) == w
  {
  }

  lemma WrapBack(w: Word, d: nat)
    ensures Wrapped(Wrapped(w + d) - d) == w && Wrapped(Wrapped(w - d) + d) == w
  {
    var q, p := (w + d) / MODULUS, (w - d) / MODULUS;
    assert Wrapped(w + d) - d == w + (-q) * MODULUS && Wrapped(w - d) + d == w + (-p) * MODULUS;
    WrappedMultiple(w, -q);
    WrappedMultiple(w, -p);
  }

  lemma RelativeTargets(ws: seq<Word>)
    ensures Relative(Targets(ws)) == ws && Targets(Relative(ws)) == ws
  {
    forall j | 0 <= j < |ws| ensures Relative(Targets(ws))[j] == ws[j] && Targets(Relative(ws))[j] == ws[j] {
      WrapBack(ws[j], 4 * j);
    }
  }

  // ----- Entries -----

  /** The words in groups of k; words that do not fill a group are left over. */
  function Entries(ws: seq<Word>, k: nat): (es: seq<Entry>)
    requires k > 0
    ensures forall e :: e in es ==> |e| == k
  {
    if |ws| < k then [] else [ws[..k]] + Entries(ws[k..], k)
  }

  function LeftOver(ws: seq<Word>, k: nat): seq<Word>
    requires k > 0
  {
    if |ws| < k then ws else LeftOver(ws[k..], k)
  }

  function Joined(es: seq<Entry>): seq<Word> {
    if es == [] then [] else es[0] + Joined(es[1..])
  }

  lemma {:induction false} JoinedEntries(ws: seq<Word>, k: nat)
    requires k > 0
    ensures Joined(Entries(ws, k)) + LeftOver(ws, k) == ws && |LeftOver(ws, k)| < k
    decreases |ws|
  {
    if |ws| >= k {
      JoinedEntries(ws[k..], k);
      assert Entries(ws, k)[1..] == Entries(ws[k..], k);
      InOrder(ws, k, Joined(Entries(ws[k..], k)), LeftOver(ws[k..], k));
    }
  }

  lemma InOrder(ws: seq<Word>, k: nat, a: seq<Word>, b: seq<Word>)
    requires k <= |ws| && a + b == ws[k..]
    ensures ws[..k] + a + b == ws
  {
    assert ws[..k] + a + b == ws[..k] + (a + b);
  }

  lemma {:induction false} EntriesJoined(es: seq<Entry>, rest: seq<Word>, k: nat)
    requires k > 0 && |rest| < k && forall e :: e in es ==> |e| == k
    ensures Entries(Joined(es) + rest, k) == es && LeftOver(Joined(es) + rest, k) == rest
    decreases |es|
  {
    var ws := Joined(es) + rest;
    if es == [] {
      assert ws == rest;
    } else {
      assert es[0] in es;
      assert ws == es[0] + (Joined(es[1..]) + rest);
      assert ws[..k] == es[0] && ws[k..] == Joined(es[1..]) + rest;
      EntriesJoined(es[1..], rest, k);
    }
  }

  function Times(n: nat, k: nat): nat {
    if n == 0 then 0 else k + Times(n - 1, k)
  }

  lemma {:induction false} JoinedLength(es: seq<Entry>, k: nat)
    requires forall e :: e in es ==> |e| == k
    ensures |Joined(es)| == Times(|es|, k)
  {
    if es != [] {
      assert es[0] in es;
      JoinedLength(es[1..], k);
    }
  }

  // ----- Sorting -----

  /** The first target as a signed number. */
  function Key(e: Entry): int {
    if e == [] then 0 else Signed(e[0])
  }

  function CompareRelativeTable(a: Entry, b: Entry): (r: int)
    ensures (r < 0 <==> Key(a) < Key(b)) && (r > 0 <==> Key(a) > Key(b))
  {
    if Key(a) < Key(b) then -1 else if Key(a) > Key(b) then 1 else 0
  }

  predicate Sorted(es: seq<Entry>) {
    forall i, j :: 0 <= i < j < |es| ==> Key(es[i]) <= Key(es[j])
  }

  predicate Rearranged(es: seq<Entry>, r: seq<Entry>) {
    multiset(r) == multiset(es)
  }

  lemma InsertedSorted(r: seq<Entry>, i: nat, e: Entry)
    requires Sorted(r) && i <= |r| && (forall j :: 0 <= j < i ==> Key(r[j]) <= Key(e)) && (i < |r| ==> Key(e) <= Key(r[i]))
    ensures Sorted(r[..i] + [e] + r[i..])
  {
  }

  lemma InsertedRearranged(es: seq<Entry>, n: nat, r: seq<Entry>, i: nat)
    requires n < |es| && Rearranged(es[..n], r) && i <= |r|
    ensures Rearranged(es[..n + 1], r[..i] + [es[n]] + r[i..])
  {
    assert es[..n + 1] == es[..n] + [es[n]];
    assert r == r[..i] + r[i..];
  }

  /** Some sorted arrangement of the entries; equal ones may come in any order. */
  method Qsort(es: seq<Entry>) returns (r: seq<Entry>)
    ensures Rearranged(es, r) && Sorted(r)
  {
    r := [];
    for n := 0 to |es|
      invariant Rearranged(es[..n], r) && Sorted(r)
    {
      var i := 0;
      while i < |r| && CompareRelativeTable(r[i], es[n]) <= 0
        invariant i <= |r| && forall j :: 0 <= j < i ==> Key(r[j]) <= Key(es[n])
      {
        i := i + 1;
      }
      InsertedSorted(r, i, es[n]);
      InsertedRearranged(es, n, r, i);
      r := r[..i] + [es[n]] + r[i..];
    }
    assert es[..|es|] == es;
  }

  // ----- The tables in place -----

  ghost predicate SortedTable(was: seq<Word>, now: seq<Word>, k: nat)
    requires k > 0
  {
    Rearranged(Entries(Targets(was), k), Entries(Targets(now), k)) &&
    Sorted(Entries(Targets(now), k)) && LeftOver(Targets(now), k) == LeftOver(Targets(was), k)
  }

  /** Add every word's position to it. */
  method Normalize(image: array<Word>)
    modifies image
    ensures image[..] == Targets(old(image[..]))
  {
    var i := 0;
    while i < image.Length
      invariant i <= image.Length
      invariant forall j :: 0 <= j < image.Length ==> image[j] == if j < i then Wrapped(old(image[j]) + 4 * j) else old(image[j])
    {
      image[i] := Wrapped(image[i] + 4 * i);
      i := i + 1;
    }
  }

  method Denormalize(image: array<Word>)
    modifies image
    ensures image[..] == Relative(old(image[..]))
  {
    var i := 0;
    while i < image.Length
      invariant i <= image.Length
      invariant forall j :: 0 <= j < image.Length ==> image[j] == if j < i then Wrapped(old(image[j]) - 4 * j) else old(image[j])
    {
      image[i] := Wrapped(image[i] - 4 * i);
      i := i + 1;
    }
  }

  /** One entry of three words from word i on. */
  method Normalize3(image: array<Word>, i: nat)
    requires i + 3 <= image.Length
    modifies image
    ensures forall j :: 0 <= j < image.Length ==>
      image[j] == if i <= j < i + 3 then Wrapped(old(image[j]) + 4 * j) else old(image[j])
  {
    image[i] := Wrapped(image[i] + 4 * i);
    image[i + 1] := Wrapped(image[i + 1] + 4 * i + 4);
    image[i + 2] := Wrapped(image[i + 2] + 4 * i + 8);
  }

  method Denormalize3(image: array<Word>, i: nat)
    requires i + 3 <= image.Length
    modifies image
    ensures forall j :: 0 <= j < image.Length ==>
      image[j] == if i <= j < i + 3 then Wrapped(old(image[j]) - 4 * j) else old(image[j])
  {
    image[i] := Wrapped(image[i] - 4 * i);
    image[i + 1] := Wrapped(image[i + 1] - (4 * i + 4));
    image[i + 2] := Wrapped(image[i + 2] - (4 * i + 8));
  }

  method NormalizeTriples(image: array<Word>, n: nat)
    requires image.Length == 3 * n
    modifies image
    ensures image[..] == Targets(old(image[..]))
  {
    for e := 0 to n
      invariant forall j :: 0 <= j < image.Length ==> image[j] == if j < 3 * e then Wrapped(old(image[j]) + 4 * j) else old(image[j])
    {
      Normalize3(image, 3 * e);
    }
  }

  method DenormalizeTriples(image: array<Word>, n: nat)
    requires image.Length == 3 * n
    modifies image
    ensures image[..] == Relative(old(image[..]))
  {
    for e := 0 to n
      invariant forall j :: 0 <= j < image.Length ==> image[j] == if j < 3 * e then Wrapped(old(image[j]) - 4 * j) else old(image[j])
    {
      Denormalize3(image, 3 * e);
    }
  }

  lemma RearrangedWidth(es: seq<Entry>, rs: seq<Entry>, k: nat)
    requires Rearranged(es, rs) && forall e :: e in es ==> |e| == k
    ensures |rs| == |es| && forall e :: e in rs ==> |e| == k
  {
    assert |es| == |multiset(es)| == |multiset(rs)| == |rs|;
    forall e | e in rs ensures e in es {
      assert e in multiset(rs);
      assert e in multiset(es);
    }
  }

  /** Sort the entries of k words that the image holds, leaving what is left over. */
  method SortEntries(image: array<Word>, k: nat)
    requires k > 0
    modifies image
    ensures Rearranged(Entries(old(image[..]), k), Entries(image[..], k)) && Sorted(Entries(image[..], k))
    ensures LeftOver(image[..], k) == LeftOver(old(image[..]), k)
  {
    var es, rest := Entries(image[..], k), LeftOver(image[..], k);
    JoinedEntries(image[..], k);
    var r := Qsort(es);
    RearrangedWidth(es, r, k);
    JoinedLength(es, k);
    JoinedLength(r, k);
    EntriesJoined(r, rest, k);
    var ws := Joined(r) + rest;
    forall i | 0 <= i < image.Length { image[i] := ws[i]; }
    assert image[..] == ws;
  }

  /** Two words an entry: what each entry points to is kept, and the entries are in order of
      their first target. */
  method SortRelativeTable(image: array<Word>)
    modifies image
    ensures SortedTable(old(image[..]), image[..], 2)
  {
    Normalize(image);
    SortEntries(image, 2);
    RelativeTargets(image[..]);
    Denormalize(image);
  }

  /** Three words an entry. */
  method X86SortRelativeTable(image: array<Word>)
    requires image.Length % 3 == 0
    modifies image
    ensures SortedTable(old(image[..]), image[..], 3)
  {
    NormalizeTriples(image, image.Length / 3);
    SortEntries(image, 3);
    RelativeTargets(image[..]);
    DenormalizeTriples(image, image.Length / 3);
  }
}
