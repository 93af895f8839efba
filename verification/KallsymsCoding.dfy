/** The coding behind the symbol table compression: pairs of bytes, their replacement by a
    token, and the expansion that undoes it. */
module KallsymsCoding {

  type Byte = x: int | 0 <= x < 256

  /** A slot of the best table: free, a byte that occurs in the symbols, or a token that
      stands for two bytes. */
  datatype Entry = Free | Real | Token(first: Byte, second: Byte)

  type Table = t: seq<Entry> | |t| == 256 witness seq(256, _ => Free)

  // ----- Pairs -----

  const KEYS: nat := 0x1_0000

  function Key(a: Byte, b: Byte): (k: nat)
    ensures k < KEYS && k % 256 == a && k / 256 == b
  {
    a + 256 * b
  }

  /** How often the pair with this key occurs at adjacent positions, overlaps included. */
  function PairCount(s: seq<Byte>, k: nat): nat {
    if |s| < 2 then 0
    else PairCount(s[..|s| - 1], k) + if Key(s[|s| - 2], s[|s| - 1]) == k then 1 else 0
  }

  function TotalCount(syms: seq<seq<Byte>>, k: nat): nat {
    if syms == [] then 0 else TotalCount(syms[..|syms| - 1], k) + PairCount(syms[|syms| - 1], k)
  }

  function TotalLength(syms: seq<seq<Byte>>): nat {
    if syms == [] then 0 else TotalLength(syms[..|syms| - 1]) + |syms[|syms| - 1]|
  }

  predicate PairAt(s: seq<Byte>, k: nat, i: int) {
    0 <= i < |s| - 1 && Key(s[i], s[i + 1]) == k
  }

  lemma {:induction false} PairCountPositive(s: seq<Byte>, k: nat)
    ensures PairCount(s, k) > 0 <==> exists i :: PairAt(s, k, i)
  {
    if |s| >= 2 {
      var t := s[..|s| - 1];
      PairCountPositive(t, k);
      if exists i :: PairAt(t, k, i) {
        var i :| PairAt(t, k, i);
        assert PairAt(s, k, i);
      }
      if Key(s[|s| - 2], s[|s| - 1]) == k {
        assert PairAt(s, k, |s| - 2);
      }
      if exists i :: PairAt(s, k, i) {
        var i :| PairAt(s, k, i);
        assert i == |s| - 2 || PairAt(t, k, i);
      }
    }
  }

  /** A pair that is counted occurs somewhere. */
  lemma {:induction false} CountedPairOccurs(syms: seq<seq<Byte>>, k: nat) returns (n: nat, i: nat)
    requires TotalCount(syms, k) > 0
    ensures n < |syms| && PairAt(syms[n], k, i)
  {
    var last := |syms| - 1;
    if TotalCount(syms[..last], k) > 0 {
      n, i := CountedPairOccurs(syms[..last], k);
    } else {
      PairCountPositive(syms[last], k);
      n := last;
      i :| PairAt(syms[last], k, i);
    }
  }

  /** A pair that occurs is counted. */
  lemma {:induction false} OccurringPairCounts(syms: seq<seq<Byte>>, k: nat, n: nat, i: nat)
    requires n < |syms| && PairAt(syms[n], k, i)
    ensures TotalCount(syms, k) > 0
  {
    var last := |syms| - 1;
    if n < last {
      OccurringPairCounts(syms[..last], k, n, i);
    } else {
      PairCountPositive(syms[last], k);
    }
  }

  /** No pair at all is left exactly when every symbol is at most one byte long. */
  lemma NoPairLeft(syms: seq<seq<Byte>>)
    requires forall k :: 0 <= k < KEYS ==> TotalCount(syms, k) == 0
    ensures forall n :: 0 <= n < |syms| ==> |syms[n]| <= 1
  {
    forall n | 0 <= n < |syms| ensures |syms[n]| <= 1 {
      if |syms[n]| > 1 {
        var k := Key(syms[n][0], syms[n][1]);
        OccurringPairCounts(syms, k, n, 0);
      }
    }
  }

  // ----- Replacement -----

  /** Replaces the pair a b by c from left to right, without overlaps. */
  function Replace(s: seq<Byte>, a: Byte, b: Byte, c: Byte): (r: seq<Byte>)
    ensures |r| <= |s|
  {
    if |s| < 2 then s
    else if s[0] == a && s[1] == b then [c] + Replace(s[2..], a, b, c)
    else [s[0]] + Replace(s[1..], a, b, c)
  }

  function ReplaceAll(syms: seq<seq<Byte>>, a: Byte, b: Byte, c: Byte): (r: seq<seq<Byte>>)
    ensures |r| == |syms|
    ensures forall n :: 0 <= n < |syms| ==> r[n] == Replace(syms[n], a, b, c)
  {
    seq(|syms|, n requires 0 <= n < |syms| => Replace(syms[n], a, b, c))
  }

  predicate Matches(s: seq<Byte>, a: Byte, b: Byte, i: int) {
    0 <= i < |s| - 1 && s[i] == a && s[i + 1] == b
  }

  /** Replacement up to the first match, and on behind it. */
  lemma {:induction false} ReplaceFirst(s: seq<Byte>, a: Byte, b: Byte, c: Byte, i: nat)
    requires Matches(s, a, b, i) && forall j :: 0 <= j < i ==> !Matches(s, a, b, j)
    ensures Replace(s, a, b, c) == s[..i] + [c] + Replace(s[i + 2..], a, b, c)
  {
    if i > 0 {
      assert !Matches(s, a, b, 0);
      forall j | 0 <= j < i - 1 ensures !Matches(s[1..], a, b, j) {
        assert !Matches(s, a, b, j + 1);
      }
      ReplaceFirst(s[1..], a, b, c, i - 1);
      var rest := Replace(s[i + 2..], a, b, c);
      assert s[1..][i - 1 + 2..] == s[i + 2..];
      assert [s[0]] + (s[1..][..i - 1] + [c]) == s[..i] + [c];
      assert [s[0]] + ((s[1..][..i - 1] + [c]) + rest) == ([s[0]] + (s[1..][..i - 1] + [c])) + rest;
    }
  }

  lemma {:induction false} ReplaceNone(s: seq<Byte>, a: Byte, b: Byte, c: Byte)
    requires forall j :: !Matches(s, a, b, j)
    ensures Replace(s, a, b, c) == s
  {
    if |s| >= 2 {
      assert !Matches(s, a, b, 0);
      forall j ensures !Matches(s[1..], a, b, j) {
        assert !Matches(s, a, b, j + 1);
      }
      ReplaceNone(s[1..], a, b, c);
    }
  }

  lemma {:induction false} ReplaceShrinks(s: seq<Byte>, a: Byte, b: Byte, c: Byte)
    requires exists j :: Matches(s, a, b, j)
    ensures |Replace(s, a, b, c)| < |s|
  {
    var j :| Matches(s, a, b, j);
    if s[0] != a || s[1] != b {
      assert Matches(s[1..], a, b, j - 1);
      ReplaceShrinks(s[1..], a, b, c);
    }
  }

  /** Only bytes of the symbol and the token occur afterwards. */
  lemma {:induction false} ReplaceBytes(s: seq<Byte>, a: Byte, b: Byte, c: Byte)
    ensures forall x :: x in Replace(s, a, b, c) ==> x in s || x == c
  {
    if |s| >= 2 {
      ReplaceBytes(s[2..], a, b, c);
      ReplaceBytes(s[1..], a, b, c);
    }
  }

  lemma {:induction false} ReplaceAllNoLonger(syms: seq<seq<Byte>>, a: Byte, b: Byte, c: Byte)
    ensures TotalLength(ReplaceAll(syms, a, b, c)) <= TotalLength(syms)
  {
    if syms != [] {
      var rest := syms[..|syms| - 1];
      ReplaceAllNoLonger(rest, a, b, c);
      assert ReplaceAll(syms, a, b, c)[..|rest|] == ReplaceAll(rest, a, b, c);
    }
  }

  /** Replacing a pair that occurs makes the symbols strictly shorter in total. */
  lemma {:induction false} ReplaceAllShrinks(syms: seq<seq<Byte>>, a: Byte, b: Byte, c: Byte)
    requires TotalCount(syms, Key(a, b)) > 0
    ensures TotalLength(ReplaceAll(syms, a, b, c)) < TotalLength(syms)
  {
    var rest, last := syms[..|syms| - 1], syms[|syms| - 1];
    assert ReplaceAll(syms, a, b, c)[..|rest|] == ReplaceAll(rest, a, b, c);
    if TotalCount(rest, Key(a, b)) > 0 {
      ReplaceAllShrinks(rest, a, b, c);
    } else {
      ReplaceAllNoLonger(rest, a, b, c);
      PairCountPositive(last, Key(a, b));
      var i :| PairAt(last, Key(a, b), i);
      assert Matches(last, a, b, i);
      ReplaceShrinks(last, a, b, c);
    }
  }

  // ----- Expansion -----

  /** A part of token i is a real byte or a token placed earlier, in a higher slot. */
  predicate PartOf(t: Table, i: int, part: Byte) {
    t[part].Real? || (t[part].Token? && part > i)
  }

  predicate Founded(t: Table) {
    forall i :: 0 <= i < 256 && t[i].Token? ==> PartOf(t, i, t[i].first) && PartOf(t, i, t[i].second)
  }

  function ExpandByte(t: Table, c: Byte): seq<Byte>
    requires Founded(t)
    decreases if t[c].Token? then 256 - c else 0
  {
    match t[c]
    case Free => []
    case Real => [c]
    case Token(a, b) => ExpandByte(t, a) + ExpandByte(t, b)
  }

  function Expand(t: Table, s: seq<Byte>): seq<Byte>
    requires Founded(t)
  {
    if s == [] then [] else ExpandByte(t, s[0]) + Expand(t, s[1..])
  }

  lemma {:induction false} ExpandConcat(t: Table, r: seq<Byte>, s: seq<Byte>)
    requires Founded(t)
    ensures Expand(t, r + s) == Expand(t, r) + Expand(t, s)
  {
    if r == [] {
      assert r + s == s;
    } else {
      ExpandConcat(t, r[1..], s);
      assert (r + s)[1..] == r[1..] + s && (r + s)[0] == r[0];
      var first, more, last := ExpandByte(t, r[0]), Expand(t, r[1..]), Expand(t, s);
      assert first + (more + last) == (first + more) + last;
    }
  }

  predicate Used(t: Table, s: seq<Byte>) {
    forall c :: c in s ==> !t[c].Free?
  }

  /** Placing a token in a free slot changes the expansion of nothing that is in use. */
  lemma {:induction false} PlacingKeepsByte(t: Table, i: Byte, e: Entry, c: Byte)
    requires Founded(t) && Founded(t[i := e]) && t[i].Free? && !t[c].Free?
    ensures ExpandByte(t[i := e], c) == ExpandByte(t, c)
    decreases if t[c].Token? then 256 - c else 0
  {
    if t[c].Token? {
      PlacingKeepsByte(t, i, e, t[c].first);
      PlacingKeepsByte(t, i, e, t[c].second);
    }
  }

  lemma {:induction false} PlacingKeeps(t: Table, i: Byte, e: Entry, s: seq<Byte>)
    requires Founded(t) && Founded(t[i := e]) && t[i].Free? && Used(t, s)
    ensures Expand(t[i := e], s) == Expand(t, s)
  {
    if s != [] {
      PlacingKeepsByte(t, i, e, s[0]);
      PlacingKeeps(t, i, e, s[1..]);
    }
  }

  /** Replacing a pair by its token does not change the expansion. */
  lemma {:induction false} ReplaceExpands(t: Table, c: Byte, s: seq<Byte>)
    requires Founded(t) && t[c].Token?
    ensures Expand(t, Replace(s, t[c].first, t[c].second, c)) == Expand(t, s)
  {
    var a, b := t[c].first, t[c].second;
    if |s| >= 2 {
      if s[0] == a && s[1] == b {
        ReplaceExpands(t, c, s[2..]);
        assert s[1..][1..] == s[2..];
        assert Expand(t, s) == ExpandByte(t, a) + (ExpandByte(t, b) + Expand(t, s[2..]));
      } else {
        ReplaceExpands(t, c, s[1..]);
      }
    }
  }

  // ----- One round -----

  /** The state between two rounds: originals are what the symbols expand to. */
  ghost predicate Lossless(t: Table, syms: seq<seq<Byte>>, originals: seq<seq<Byte>>) {
    Founded(t) && |syms| == |originals| &&
    forall n :: 0 <= n < |syms| ==> Used(t, syms[n]) && Expand(t, syms[n]) == originals[n]
  }

  /** Every slot below i is still free or real. */
  predicate NoTokenBelow(t: Table, i: int) {
    forall j :: 0 <= j < i && j < 256 ==> !t[j].Token?
  }

  lemma PlacingFounded(t: Table, i: Byte, a: Byte, b: Byte)
    requires Founded(t) && t[i].Free? && NoTokenBelow(t, i) && !t[a].Free? && !t[b].Free?
    ensures Founded(t[i := Token(a, b)])
  {
    var u := t[i := Token(a, b)];
    forall j | 0 <= j < 256 && u[j].Token? ensures PartOf(u, j, u[j].first) && PartOf(u, j, u[j].second) {
      if j != i {
        assert PartOf(t, j, t[j].first) && PartOf(t, j, t[j].second);
      }
    }
  }

  /** A round that places the pair a b in free slot i and replaces it everywhere loses nothing. */
  lemma RoundLossless(t: Table, syms: seq<seq<Byte>>, originals: seq<seq<Byte>>, i: Byte, a: Byte, b: Byte)
    requires Lossless(t, syms, originals)
    requires t[i].Free? && NoTokenBelow(t, i) && !t[a].Free? && !t[b].Free?
    ensures Lossless(t[i := Token(a, b)], ReplaceAll(syms, a, b, i), originals)
  {
    PlacingFounded(t, i, a, b);
    var u := t[i := Token(a, b)];
    var syms' := ReplaceAll(syms, a, b, i);
    forall n | 0 <= n < |syms'| ensures Used(u, syms'[n]) && Expand(u, syms'[n]) == originals[n] {
      PlacingKeeps(t, i, Token(a, b), syms[n]);
      ReplaceExpands(u, i, syms[n]);
      ReplaceBytes(syms[n], a, b, i);
    }
  }

  // ----- Tokens are substrings -----

  predicate OccursAt(s: seq<Byte>, whole: seq<Byte>, i: nat) {
    i + |s| <= |whole| && whole[i..i + |s|] == s
  }

  predicate InsideAt(s: seq<Byte>, originals: seq<seq<Byte>>, n: nat, i: nat) {
    n < |originals| && OccursAt(s, originals[n], i)
  }

  ghost predicate SubstringOfSome(s: seq<Byte>, originals: seq<seq<Byte>>) {
    exists n, i :: InsideAt(s, originals, n, i)
  }

  ghost predicate TokensAreSubstrings(t: Table, originals: seq<seq<Byte>>)
    requires Founded(t)
  {
    forall i: Byte :: t[i].Token? ==> SubstringOfSome(ExpandByte(t, i), originals)
  }

  lemma ExpandPair(t: Table, a: Byte, b: Byte)
    requires Founded(t)
    ensures Expand(t, [a, b]) == ExpandByte(t, a) + ExpandByte(t, b)
  {
    assert [a, b][1..] == [b] && [b][1..] == [];
    assert Expand(t, [b]) == ExpandByte(t, b);
  }

  /** A pair that occurs in a compressed symbol expands to a substring of the original. */
  lemma PairExpandsInside(t: Table, s: seq<Byte>, i: nat)
    requires Founded(t) && i + 1 < |s|
    ensures OccursAt(ExpandByte(t, s[i]) + ExpandByte(t, s[i + 1]), Expand(t, s), |Expand(t, s[..i])|)
  {
    var pair := [s[i], s[i + 1]];
    assert s == (s[..i] + pair) + s[i + 2..];
    ExpandConcat(t, s[..i] + pair, s[i + 2..]);
    ExpandConcat(t, s[..i], pair);
    ExpandPair(t, s[i], s[i + 1]);
  }

  lemma NewTokenInside(t: Table, syms: seq<seq<Byte>>, originals: seq<seq<Byte>>, i: Byte, a: Byte, b: Byte)
    requires Lossless(t, syms, originals)
    requires t[i].Free? && !t[a].Free? && !t[b].Free? && Founded(t[i := Token(a, b)])
    requires TotalCount(syms, Key(a, b)) > 0
    ensures SubstringOfSome(ExpandByte(t[i := Token(a, b)], i), originals)
  {
    var u := t[i := Token(a, b)];
    PlacingKeepsByte(t, i, Token(a, b), a);
    PlacingKeepsByte(t, i, Token(a, b), b);
    var n, p := CountedPairOccurs(syms, Key(a, b));
    PairExpandsInside(t, syms[n], p);
    assert InsideAt(ExpandByte(t, a) + ExpandByte(t, b), originals, n, |Expand(t, syms[n][..p])|);
  }

  lemma RoundTokens(t: Table, syms: seq<seq<Byte>>, originals: seq<seq<Byte>>, i: Byte, a: Byte, b: Byte)
    requires Lossless(t, syms, originals) && TokensAreSubstrings(t, originals)
    requires t[i].Free? && NoTokenBelow(t, i) && !t[a].Free? && !t[b].Free?
    requires TotalCount(syms, Key(a, b)) > 0
    ensures Founded(t[i := Token(a, b)])
    ensures TokensAreSubstrings(t[i := Token(a, b)], originals)
  {
    PlacingFounded(t, i, a, b);
    var u := t[i := Token(a, b)];
    NewTokenInside(t, syms, originals, i, a, b);
    forall j: Byte | u[j].Token? ensures SubstringOfSome(ExpandByte(u, j), originals) {
      if j != i { PlacingKeepsByte(t, i, Token(a, b), j); }
    }
  }

  // ----- All rounds -----

  predicate OccursIn(c: Byte, syms: seq<seq<Byte>>) {
    exists n :: 0 <= n < |syms| && c in syms[n]
  }

  /** The table before compression: a slot is real exactly when its byte occurs. */
  predicate RealBytes(t: Table, syms: seq<seq<Byte>>) {
    forall c: Byte :: t[c] == if OccursIn(c, syms) then Real else Free
  }

  predicate NoneFreeAbove(t: Table, i: int) {
    forall c: Byte :: c > i ==> !t[c].Free?
  }

  function TokenSlots(t: Table): set<Byte> {
    set c: Byte | t[c].Token?
  }

  function Tokens(t: Table): nat {
    |TokenSlots(t)|
  }

  lemma OneMoreToken(t: Table, i: Byte, e: Entry)
    requires !t[i].Token? && e.Token?
    ensures Tokens(t[i := e]) == Tokens(t) + 1
  {
    assert TokenSlots(t[i := e]) == TokenSlots(t) + {i};
  }

  lemma PairIsUsed(t: Table, syms: seq<seq<Byte>>, originals: seq<seq<Byte>>, a: Byte, b: Byte)
    requires Lossless(t, syms, originals) && TotalCount(syms, Key(a, b)) > 0
    ensures !t[a].Free? && !t[b].Free?
  {
    var n, p := CountedPairOccurs(syms, Key(a, b));
    assert syms[n][p] == a && syms[n][p + 1] == b && Used(t, syms[n]);
  }

  /** What compression promises: the symbols expand to the originals, every token to a part of
      one, and each token placed has saved at least one byte. */
  ghost predicate Compressed(t: Table, syms: seq<seq<Byte>>, originals: seq<seq<Byte>>) {
    Lossless(t, syms, originals) && TokensAreSubstrings(t, originals) &&
    TotalLength(syms) + Tokens(t) <= TotalLength(originals)
  }

  /** Slots above i have been dealt with, slots up to i have not. */
  ghost predicate BetweenRounds(t: Table, syms: seq<seq<Byte>>, originals: seq<seq<Byte>>, i: int) {
    Compressed(t, syms, originals) && NoTokenBelow(t, i + 1) && NoneFreeAbove(t, i) && (i >= 0 ==> t[0].Free?)
  }

  lemma BeforeRounds(t: Table, syms: seq<seq<Byte>>)
    requires RealBytes(t, syms) && forall n :: 0 <= n < |syms| ==> 0 !in syms[n]
    ensures BetweenRounds(t, syms, syms, 255)
  {
    forall n | 0 <= n < |syms| ensures Used(t, syms[n]) && Expand(t, syms[n]) == syms[n] {
      forall c | c in syms[n] ensures t[c].Real? { assert OccursIn(c, syms); }
      ExpandReal(t, syms[n]);
    }
    assert TokenSlots(t) == {};
  }

  lemma {:induction false} ExpandReal(t: Table, s: seq<Byte>)
    requires Founded(t) && forall c :: c in s ==> t[c].Real?
    ensures Expand(t, s) == s
  {
    if s != [] { ExpandReal(t, s[1..]); }
  }

  lemma SkipSlot(t: Table, syms: seq<seq<Byte>>, originals: seq<seq<Byte>>, i: Byte)
    requires BetweenRounds(t, syms, originals, i) && !t[i].Free?
    ensures BetweenRounds(t, syms, originals, i - 1)
  {
  }

  /** One round with a pair that occurs. */
  lemma Round(t: Table, syms: seq<seq<Byte>>, originals: seq<seq<Byte>>, i: Byte, a: Byte, b: Byte)
    requires BetweenRounds(t, syms, originals, i) && t[i].Free? && TotalCount(syms, Key(a, b)) > 0
    ensures a != 0 && b != 0
    ensures BetweenRounds(t[i := Token(a, b)], ReplaceAll(syms, a, b, i), originals, i - 1)
    ensures TotalLength(ReplaceAll(syms, a, b, i)) < TotalLength(syms)
  {
    PairIsUsed(t, syms, originals, a, b);
    RoundLossless(t, syms, originals, i, a, b);
    RoundTokens(t, syms, originals, i, a, b);
    ReplaceAllShrinks(syms, a, b, i);
    OneMoreToken(t, i, Token(a, b));
  }
}
