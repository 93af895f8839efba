/** The compressor as it works: symbols in their own buffers, changed in place, with a table
    of pair counts that is corrected along the way. */
module KallsymsTable {
  import opened KallsymsCoding

  // ----- One buffer -----

  /** A buffer holds n bytes; behind them there are only zero bytes, at least one. */
  ghost predicate Holds(buf: array<Byte>, n: nat)
    reads buf
  {
    n < buf.Length && forall j :: n <= j < buf.Length ==> buf[j] == 0
  }

  /** The first match of a b in buf[start..start + size], as an index into buf. */
  method FindToken(buf: array<Byte>, start: nat, size: nat, a: Byte, b: Byte) returns (at: int)
    requires start + size <= buf.Length
    ensures -1 <= at < buf.Length
    ensures at >= 0 ==> start <= at < start + size - 1 && buf[at] == a && buf[at + 1] == b
    ensures forall j :: start <= j < (if at >= 0 then at else start + size - 1) ==> !(buf[j] == a && buf[j + 1] == b)
  {
    var i := start;
    while i + 1 < start + size
      invariant start <= i
      invariant forall j :: start <= j < i && j + 1 < start + size ==> !(buf[j] == a && buf[j + 1] == b)
    {
      if buf[i] == a && buf[i + 1] == b { return i; }
      i := i + 1;
    }
    at := -1;
  }

  /** Moves the size bytes behind p one place down onto p. */
  method MoveDown(buf: array<Byte>, p: nat, size: nat)
    requires p + size < buf.Length
    modifies buf
    ensures forall j :: 0 <= j < p ==> buf[j] == old(buf[j])
    ensures forall j :: p <= j < p + size ==> buf[j] == old(buf[j + 1])
    ensures forall j :: p + size <= j < buf.Length ==> buf[j] == old(buf[j])
  {
    var i := 0;
    while i < size
      invariant 0 <= i <= size
      invariant forall j :: 0 <= j < p ==> buf[j] == old(buf[j])
      invariant forall j :: p <= j < p + i ==> buf[j] == old(buf[j + 1])
      invariant forall j :: p + i <= j < buf.Length ==> buf[j] == old(buf[j])
    {
      buf[p + i] := buf[p + i + 1];
      i := i + 1;
    }
  }

  /** y is x with the pair at position at replaced by c and the rest of len bytes moved down. */
  ghost predicate Placed(x: seq<Byte>, y: seq<Byte>, len: nat, at: nat, c: Byte) {
    |x| == |y| && at + 1 < len <= |x| && y[at] == c &&
    (forall j :: 0 <= j < at ==> y[j] == x[j]) &&
    (forall j :: at < j < len - 1 ==> y[j] == x[j + 1])
  }

  /** Writes the token over the pair at position at, and closes the gap. */
  method PlaceToken(buf: array<Byte>, len: nat, at: nat, size: nat, c: Byte)
    requires Holds(buf, len) && at + 1 < len && len <= at + 1 + size < buf.Length
    modifies buf
    ensures Holds(buf, len - 1) && Placed(old(buf[..]), buf[..], len, at, c)
  {
    buf[at] := c;
    MoveDown(buf, at + 1, size);
  }

  /** The bytes before p are done; the pair is still to be replaced in the bytes from p on. */
  ghost predicate Pending(buf: array<Byte>, p: nat, len: nat, s: seq<Byte>, a: Byte, b: Byte, c: Byte)
    reads buf
  {
    p <= len && Holds(buf, len) && Replace(s, a, b, c) == buf[..p] + Replace(buf[p..len], a, b, c)
  }

  /** The first match in buf[p..len] is at position at; there is none when at is negative. */
  ghost predicate FirstAt(buf: array<Byte>, p: nat, len: nat, at: int, a: Byte, b: Byte)
    reads buf
  {
    p <= len <= buf.Length &&
    (at >= 0 ==> p <= at && at + 1 < len && buf[at] == a && buf[at + 1] == b) &&
    forall j :: p <= j < (if at >= 0 then at else len - 1) ==> !(buf[j] == a && buf[j + 1] == b)
  }

  /** The zero bytes behind the symbol match nothing, so searching over them does no harm. */
  lemma SearchOverZeros(buf: array<Byte>, p: nat, len: nat, size: nat, at: int, a: Byte, b: Byte)
    requires Holds(buf, len) && a != 0 && b != 0 && p <= len <= p + size <= buf.Length
    requires -1 <= at < buf.Length
    requires at >= 0 ==> p <= at < p + size - 1 && buf[at] == a && buf[at + 1] == b
    requires forall j :: p <= j < (if at >= 0 then at else p + size - 1) ==> !(buf[j] == a && buf[j + 1] == b)
    ensures FirstAt(buf, p, len, at, a, b)
  {
  }

  lemma MatchFirst(r: seq<Byte>, k: nat, a: Byte, b: Byte, c: Byte)
    requires k + 1 < |r| && r[k] == a && r[k + 1] == b
    requires forall j :: 0 <= j < k ==> !(r[j] == a && r[j + 1] == b)
    ensures Replace(r, a, b, c) == r[..k] + [c] + Replace(r[k + 2..], a, b, c)
  {
    forall j | 0 <= j < k ensures !Matches(r, a, b, j) {
    }
    ReplaceFirst(r, a, b, c, k);
  }

  lemma MatchNone(r: seq<Byte>, a: Byte, b: Byte, c: Byte)
    requires forall j :: 0 <= j < |r| - 1 ==> !(r[j] == a && r[j + 1] == b)
    ensures Replace(r, a, b, c) == r
  {
    forall j ensures !Matches(r, a, b, j) {
    }
    ReplaceNone(r, a, b, c);
  }

  lemma NothingPending(buf: array<Byte>, p: nat, len: nat, s: seq<Byte>, a: Byte, b: Byte, c: Byte)
    requires Pending(buf, p, len, s, a, b, c) && FirstAt(buf, p, len, -1, a, b)
    ensures buf[..len] == Replace(s, a, b, c)
  {
    MatchNone(buf[p..len], a, b, c);
    assert buf[..len] == buf[..p] + buf[p..len];
  }

  lemma PlacedSlices(x: seq<Byte>, y: seq<Byte>, p: nat, len: nat, at: nat, c: Byte)
    requires p <= at && Placed(x, y, len, at, c)
    ensures x[p..len][at - p + 2..] == y[at + 1..len - 1]
    ensures y[..at + 1] == x[..p] + (x[p..len][..at - p] + [c])
  {
    var done := x[..p] + (x[p..len][..at - p] + [c]);
    assert |done| == at + 1;
    forall j | 0 <= j < at + 1 ensures y[j] == done[j] {
    }
  }

  lemma MatchAt(x: seq<Byte>, p: nat, len: nat, at: nat, a: Byte, b: Byte, c: Byte)
    requires p <= at && at + 1 < len <= |x|
    requires x[at] == a && x[at + 1] == b && forall j :: p <= j < at ==> !(x[j] == a && x[j + 1] == b)
    ensures
      var r := x[p..len];
      Replace(r, a, b, c) == (r[..at - p] + [c]) + Replace(r[at - p + 2..], a, b, c)
  {
    MatchFirst(x[p..len], at - p, a, b, c);
  }

  lemma PlacedPending(x: seq<Byte>, y: seq<Byte>, p: nat, len: nat, at: nat, s: seq<Byte>, a: Byte, b: Byte, c: Byte)
    requires p <= at && Placed(x, y, len, at, c)
    requires Replace(s, a, b, c) == x[..p] + Replace(x[p..len], a, b, c)
    requires x[at] == a && x[at + 1] == b && forall j :: p <= j < at ==> !(x[j] == a && x[j + 1] == b)
    ensures Replace(s, a, b, c) == y[..at + 1] + Replace(y[at + 1..len - 1], a, b, c)
  {
    MatchAt(x, p, len, at, a, b, c);
    PlacedSlices(x, y, p, len, at, c);
    Associative(x[..p], x[p..len][..at - p] + [c], Replace(y[at + 1..len - 1], a, b, c));
  }

  lemma Associative(a: seq<Byte>, b: seq<Byte>, c: seq<Byte>)
    ensures a + (b + c) == (a + b) + c
  {
  }

  /** One turn of the loop: the pair at position at becomes the token. */
  method ReplaceOne(buf: array<Byte>, p: nat, len: nat, at: nat, size: nat, ghost s: seq<Byte>, a: Byte, b: Byte, c: Byte)
    requires Pending(buf, p, len, s, a, b, c) && FirstAt(buf, p, len, at, a, b)
    requires len <= at + 1 + size < buf.Length
    modifies buf
    ensures Pending(buf, at + 1, len - 1, s, a, b, c)
  {
    ghost var x := buf[..];
    assert x[..p] == buf[..p] && x[p..len] == buf[p..len];
    PlaceToken(buf, len, at, size, c);
    ghost var y := buf[..];
    PlacedPending(x, y, p, len, at, s, a, b, c);
    assert y[..at + 1] == buf[..at + 1] && y[at + 1..len - 1] == buf[at + 1..len - 1];
  }

  /** The next match; with less than two bytes left there is none. */
  method NextMatch(buf: array<Byte>, p: nat, len: nat, size: nat, a: Byte, b: Byte) returns (at: int)
    requires Holds(buf, len) && a != 0 && b != 0 && p <= len <= p + size <= buf.Length
    ensures -1 <= at < buf.Length && FirstAt(buf, p, len, at, a, b)
  {
    at := -1;
    if size >= 2 {
      at := FindToken(buf, p, size, a, b);
      SearchOverZeros(buf, p, len, size, at, a, b);
    }
  }

  /** Replaces the pair a b by c in a buffer of n bytes, in place.  The size searched stays
      counted to the old end, over zero bytes that no pair can match. */
  method ReplaceInPlace(buf: array<Byte>, n: nat, first: nat, a: Byte, b: Byte, c: Byte) returns (len: nat)
    requires Holds(buf, n) && a != 0 && b != 0 && FirstAt(buf, 0, n, first, a, b)
    modifies buf
    ensures Holds(buf, len) && buf[..len] == Replace(old(buf[..n]), a, b, c)
  {
    ghost var s := buf[..n];
    var size := n;
    var p1 := 0;
    var p2: int := first;
    len := n;
    assert buf[..0] + Replace(buf[0..n], a, b, c) == Replace(s, a, b, c);
    while p2 >= 0
      invariant p1 + size == n && len <= n < buf.Length
      invariant Pending(buf, p1, len, s, a, b, c) && FirstAt(buf, p1, len, p2, a, b)
      decreases len
    {
      size := size - (p2 + 1 - p1);
      ReplaceOne(buf, p1, len, p2, size, s, a, b, c);
      p1 := p2 + 1;
      len := len - 1;
      p2 := NextMatch(buf, p1, len, size, a, b);
    }
    NothingPending(buf, p1, len, s, a, b, c);
  }

  // ----- Pair counts -----

  lemma NoPairs(s: seq<Byte>)
    requires |s| < 2
    ensures forall k: nat :: PairCount(s, k) == 0
  {
  }

  /** Counts every pair in the first len bytes. */
  method LearnSymbol(profit: array<int>, buf: array<Byte>, len: nat)
    requires profit.Length == KEYS && len < buf.Length && profit as object != buf
    modifies profit
    ensures forall k :: 0 <= k < KEYS ==> profit[k] == old(profit[k]) + PairCount(buf[..len], k)
  {
    var i: nat := 0;
    NoPairs(buf[..i + 1]);
    NoPairs(buf[..0]);
    while i + 1 < len
      invariant i == 0 || i < len
      invariant forall k :: 0 <= k < KEYS ==> profit[k] == old(profit[k]) + PairCount(buf[..i + 1], k)
    {
      var key := Key(buf[i], buf[i + 1]);
      assert buf[..i + 2][..i + 1] == buf[..i + 1];
      profit[key] := profit[key] + 1;
      i := i + 1;
    }
  }

  /** Takes back what learning the same bytes has counted. */
  method ForgetSymbol(profit: array<int>, buf: array<Byte>, len: nat)
    requires profit.Length == KEYS && len < buf.Length && profit as object != buf
    modifies profit
    ensures forall k :: 0 <= k < KEYS ==> profit[k] == old(profit[k]) - PairCount(buf[..len], k)
  {
    var i: nat := 0;
    NoPairs(buf[..i + 1]);
    NoPairs(buf[..0]);
    while i + 1 < len
      invariant i == 0 || i < len
      invariant forall k :: 0 <= k < KEYS ==> profit[k] == old(profit[k]) - PairCount(buf[..i + 1], k)
    {
      var key := Key(buf[i], buf[i + 1]);
      assert buf[..i + 2][..i + 1] == buf[..i + 1];
      profit[key] := profit[key] - 1;
      i := i + 1;
    }
  }

  /** The lowest key with the highest count. */
  method FindBestToken(profit: array<int>) returns (best: nat)
    requires profit.Length == KEYS && forall k :: 0 <= k < KEYS ==> profit[k] >= 0
    ensures best < KEYS && forall k :: 0 <= k < KEYS ==> profit[k] <= profit[best]
    ensures forall k :: 0 <= k < best ==> profit[k] < profit[best]
  {
    var bestProfit := -10000;
    best := 0;
    var i := 0;
    while i < KEYS
      invariant 0 <= i <= KEYS
      invariant if i == 0 then best == 0 && bestProfit == -10000 else best < i && bestProfit == profit[best]
      invariant forall k :: 0 <= k < i ==> profit[k] <= bestProfit
      invariant forall k :: 0 <= k < best ==> profit[k] < bestProfit
    {
      if profit[i] > bestProfit {
        best := i;
        bestProfit := profit[i];
      }
      i := i + 1;
    }
  }

  // ----- The table -----

  lemma {:induction false} TotalCountUpdate(syms: seq<seq<Byte>>, i: nat, x: seq<Byte>, k: nat)
    requires i < |syms|
    ensures TotalCount(syms[i := x], k) == TotalCount(syms, k) - PairCount(syms[i], k) + PairCount(x, k)
  {
    var n := |syms| - 1;
    if i < n {
      assert syms[i := x][..n] == syms[..n][i := x];
      TotalCountUpdate(syms[..n], i, x, k);
    } else {
      assert syms[i := x][..n] == syms[..n];
    }
  }

  /** The positions that are kept. */
  function Kept(valid: seq<bool>): (ks: seq<nat>)
    ensures |ks| <= |valid|
    ensures forall j :: 0 <= j < |ks| ==> j <= ks[j] < |valid| && valid[ks[j]]
    ensures forall j, k :: 0 <= j < k < |ks| ==> ks[j] < ks[k]
  {
    if valid == [] then []
    else
      var n := |valid| - 1;
      Kept(valid[..n]) + if valid[n] then [n] else []
  }

  function Pick<T>(xs: seq<T>, ks: seq<nat>): (r: seq<T>)
    requires forall j :: 0 <= j < |ks| ==> ks[j] < |xs|
    ensures |r| == |ks| && forall j :: 0 <= j < |ks| ==> r[j] == xs[ks[j]]
  {
    seq(|ks|, j requires 0 <= j < |ks| => xs[ks[j]])
  }

  /** Every symbol is in a buffer of its own. */
  ghost predicate Intact(bufs: seq<array<Byte>>, lens: seq<nat>, syms: seq<seq<Byte>>, profit: object)
    reads bufs
  {
    |lens| == |bufs| && |syms| == |bufs| &&
    (forall i :: 0 <= i < |bufs| ==> Apart(bufs, i, profit)) &&
    (forall i :: 0 <= i < |bufs| ==> Holds(bufs[i], lens[i]) && bufs[i][..lens[i]] == syms[i])
  }

  ghost predicate Apart(bufs: seq<array<Byte>>, i: int, profit: object)
    requires 0 <= i < |bufs|
  {
    bufs[i] as object != profit && forall j :: 0 <= j < |bufs| && j != i ==> bufs[i] != bufs[j]
  }

  lemma PickIntact(bufs: seq<array<Byte>>, lens: seq<nat>, syms: seq<seq<Byte>>, profit: object, ks: seq<nat>)
    requires Intact(bufs, lens, syms, profit)
    requires forall j :: 0 <= j < |ks| ==> ks[j] < |bufs|
    requires forall i, j :: 0 <= i < j < |ks| ==> ks[i] < ks[j]
    ensures Intact(Pick(bufs, ks), Pick(lens, ks), Pick(syms, ks), profit)
  {
    var picked := Pick(bufs, ks);
    forall i | 0 <= i < |picked| ensures Apart(picked, i, profit) {
      assert Apart(bufs, ks[i], profit);
    }
    forall i | 0 <= i < |picked| ensures Holds(picked[i], Pick(lens, ks)[i]) && picked[i][..Pick(lens, ks)[i]] == Pick(syms, ks)[i] {
      assert Holds(bufs[ks[i]], lens[ks[i]]);
    }
  }

  /** A buffer of its own for a symbol, with a zero byte behind it. */
  method NewBuffer(symbol: seq<Byte>) returns (buf: array<Byte>)
    ensures fresh(buf) && Holds(buf, |symbol|) && buf[..|symbol|] == symbol
  {
    buf := new Byte[|symbol| + 1](i requires 0 <= i < |symbol| + 1 => if i < |symbol| then symbol[i] else 0);
  }

  lemma OneMoreBuffer(bufs: seq<array<Byte>>, lens: seq<nat>, syms: seq<seq<Byte>>, profit: object, buf: array<Byte>, symbol: seq<Byte>)
    requires Intact(bufs, lens, syms, profit) && Holds(buf, |symbol|) && buf[..|symbol|] == symbol
    requires buf as object != profit && buf !in bufs
    ensures Intact(bufs + [buf], lens + [|symbol|], syms + [symbol], profit)
  {
    forall i | 0 <= i < |bufs| ensures Apart(bufs + [buf], i, profit) {
      assert Apart(bufs, i, profit) && bufs[i] in bufs;
    }
  }

  method NewBuffers(symbols: seq<seq<Byte>>, profit: array<int>) returns (bufs: seq<array<Byte>>, lens: seq<nat>)
    ensures Intact(bufs, lens, symbols, profit) && forall i :: 0 <= i < |bufs| ==> fresh(bufs[i])
  {
    bufs, lens := [], [];
    for n := 0 to |symbols|
      invariant Intact(bufs, lens, symbols[..n], profit) && forall i :: 0 <= i < |bufs| ==> fresh(bufs[i])
    {
      var buf := NewBuffer(symbols[n]);
      assert symbols[..n + 1] == symbols[..n] + [symbols[n]];
      OneMoreBuffer(bufs, lens, symbols[..n], profit, buf, symbols[n]);
      bufs, lens := bufs + [buf], lens + [|symbols[n]|];
    }
    assert symbols[..|symbols|] == symbols;
  }

  class Kallsyms {
    var bufs: seq<array<Byte>>
    var lens: seq<nat>
    const profit: array<int>
    var best: Table
    // what the buffers hold
    ghost var syms: seq<seq<Byte>>

    ghost predicate Valid()
      reads this, bufs
    {
      profit.Length == KEYS && Intact(bufs, lens, syms, profit)
    }

    /** The profit of every pair is its count over all symbols. */
    ghost predicate Exact()
      reads this, profit
    {
      profit.Length == KEYS && forall k :: 0 <= k < KEYS ==> profit[k] == TotalCount(syms, k)
    }

    /** The symbols as they were read, nothing counted and no slot taken. */
    constructor (symbols: seq<seq<Byte>>)
      ensures Valid() && syms == symbols && best == EmptyTable() && fresh(profit)
      ensures forall k :: 0 <= k < KEYS ==> profit[k] == 0
      ensures forall i :: 0 <= i < |bufs| ==> fresh(bufs[i])
    {
      profit := new int[KEYS](_ => 0);
      bufs, lens, syms, best := [], [], [], EmptyTable();
      new;
      bufs, lens := NewBuffers(symbols, profit);
      syms := symbols;
    }

    /** One symbol: its counts are taken out, its buffer is changed, its new counts put in. */
    method CompressSymbol(i: nat, a: Byte, b: Byte, idx: Byte)
      requires Valid() && Exact() && i < |bufs| && a != 0 && b != 0
      modifies this, profit, bufs[i]
      ensures bufs == old(bufs) && best == old(best)
      ensures Valid() && Exact()
      ensures syms == old(syms)[i := Replace(old(syms)[i], a, b, idx)]
    {
      assert Apart(bufs, i, profit);
      var buf, len := bufs[i], lens[i];
      var p2 := FindToken(buf, 0, len, a, b);
      SearchOverZeros(buf, 0, len, len, p2, a, b);
      if p2 < 0 {
        MatchNone(buf[..len], a, b, idx);
        assert syms[i := syms[i]] == syms;
        return;
      }
      ForgetSymbol(profit, buf, len);
      len := ReplaceInPlace(buf, len, p2, a, b, idx);
      lens := lens[i := len];
      LearnSymbol(profit, buf, len);
      forall k | 0 <= k < KEYS {
        TotalCountUpdate(syms, i, buf[..len], k);
      }
      syms := syms[i := buf[..len]];
      forall j | 0 <= j < |bufs| ensures Holds(bufs[j], lens[j]) && bufs[j][..lens[j]] == syms[j] {
        if j != i { assert bufs[j] != buf; }
      }
    }

    method CompressSymbols(a: Byte, b: Byte, idx: Byte)
      requires Valid() && Exact() && a != 0 && b != 0
      modifies this, profit, bufs
      ensures bufs == old(bufs) && best == old(best)
      ensures Valid() && Exact()
      ensures syms == ReplaceAll(old(syms), a, b, idx)
    {
      var i := 0;
      while i < |bufs|
        invariant 0 <= i <= |bufs| && bufs == old(bufs) && best == old(best)
        invariant Valid() && Exact()
        invariant forall j :: 0 <= j < i ==> syms[j] == Replace(old(syms)[j], a, b, idx)
        invariant forall j :: i <= j < |bufs| ==> syms[j] == old(syms)[j]
      {
        CompressSymbol(i, a, b, idx);
        i := i + 1;
      }
    }

    /** Entries before i have been looked at; those to be kept, ks, have moved to the front. */
    ghost predicate Packed(all: seq<array<Byte>>, allLens: seq<nat>, allSyms: seq<seq<Byte>>, ks: seq<nat>, i: nat)
      reads this, profit
    {
      |ks| <= i <= |all| == |bufs| == |lens| == |allLens| == |allSyms| && profit.Length == KEYS &&
      (forall j :: 0 <= j < |ks| ==> ks[j] < |all| && bufs[j] == all[ks[j]] && lens[j] == allLens[ks[j]]) &&
      (forall j :: i <= j < |all| ==> bufs[j] == all[j] && lens[j] == allLens[j]) &&
      (forall k :: 0 <= k < KEYS ==> profit[k] == TotalCount(Pick(allSyms, ks), k))
    }

    /** Keeps entry i: moves it to the front and counts its pairs. */
    method KeepEntry(pos: nat, i: nat, ghost all: seq<array<Byte>>, ghost allLens: seq<nat>,
                     ghost allSyms: seq<seq<Byte>>, ghost ks: seq<nat>)
      requires Packed(all, allLens, allSyms, ks, i) && pos == |ks| && i < |bufs|
      requires Intact(all, allLens, allSyms, profit)
      modifies this, profit
      ensures Packed(all, allLens, allSyms, ks + [i], i + 1) && best == old(best)
      ensures Intact(all, allLens, allSyms, profit)
    {
      assert forall j :: 0 <= j < |all| ==> Apart(all, j, profit);
      bufs, lens := bufs[pos := bufs[i]], lens[pos := lens[i]];
      LearnSymbol(profit, bufs[pos], lens[pos]);
      PickMore(allSyms, ks, i);
    }

    /** Cuts the table down to the entries that were kept. */
    method Shorten(pos: nat, ghost all: seq<array<Byte>>, ghost allLens: seq<nat>, ghost allSyms: seq<seq<Byte>>, ghost ks: seq<nat>)
      requires Packed(all, allLens, allSyms, ks, |all|) && pos == |ks|
      requires Intact(all, allLens, allSyms, profit)
      requires forall i, j :: 0 <= i < j < |ks| ==> ks[i] < ks[j]
      modifies this
      ensures Valid() && Exact() && best == old(best)
      ensures syms == Pick(allSyms, ks) && bufs == Pick(all, ks)
    {
      syms := Pick(allSyms, ks);
      bufs, lens := bufs[..pos], lens[..pos];
      assert bufs == Pick(all, ks) && lens == Pick(allLens, ks);
      PickIntact(all, allLens, allSyms, profit, ks);
    }

    /** Drops the symbols that are not valid and counts the pairs of the others. */
    method BuildInitialTokTable(valid: seq<bool>)
      requires Valid() && |valid| == |bufs| && forall k :: 0 <= k < KEYS ==> profit[k] == 0
      modifies this, profit
      ensures Valid() && Exact() && best == old(best)
      ensures syms == Pick(old(syms), Kept(valid))
      ensures bufs == Pick(old(bufs), Kept(valid))
    {
      ghost var all, allLens, allSyms := bufs, lens, syms;
      var pos, i := 0, 0;
      while i < |bufs|
        invariant 0 <= i <= |bufs| == |valid| && pos == |Kept(valid[..i])| && best == old(best)
        invariant Packed(all, allLens, allSyms, Kept(valid[..i]), i)
        invariant Intact(all, allLens, allSyms, profit)
      {
        assert valid[..i + 1][..i] == valid[..i];
        ghost var ks := Kept(valid[..i]);
        assert Kept(valid[..i + 1]) == if valid[i] then ks + [i] else ks;
        if valid[i] {
          KeepEntry(pos, i, all, allLens, allSyms, ks);
          pos := pos + 1;
        }
        i := i + 1;
      }
      assert valid[..i] == valid;
      Shorten(pos, all, allLens, allSyms, Kept(valid));
    }

    /** Marks the bytes that occur in the symbols. */
    method InsertRealSymbolsInTable()
      requires Valid() && best == EmptyTable()
      modifies this
      ensures bufs == old(bufs) && syms == old(syms) && Valid() && (old(Exact()) ==> Exact())
      ensures RealBytes(best, syms)
    {
      var i := 0;
      while i < |bufs|
        invariant 0 <= i <= |bufs| && bufs == old(bufs) && lens == old(lens) && syms == old(syms)
        invariant RealBytes(best, syms[..i])
      {
        var j := 0;
        assert Holds(bufs[i], lens[i]) && bufs[i][..lens[i]] == syms[i];
        while j < lens[i]
          invariant bufs == old(bufs) && lens == old(lens) && syms == old(syms) && 0 <= j <= lens[i]
          invariant forall c: Byte :: best[c] == if OccursIn(c, syms[..i]) || c in syms[i][..j] then Real else Free
        {
          best := best[bufs[i][j] := Real];
          j := j + 1;
        }
        MoreBytes(syms, i);
        i := i + 1;
      }
      assert syms[..i] == syms;
    }

    /** Fills the free slots from the highest down with the pair that occurs most often. */
    method OptimizeResult()
      requires Valid() && Exact() && RealBytes(best, syms)
      requires forall n :: 0 <= n < |syms| ==> 0 !in syms[n]
      modifies this, profit, bufs
      ensures bufs == old(bufs) && Valid() && Exact()
      ensures Compressed(best, syms, old(syms))
      ensures (forall n :: 0 <= n < |syms| ==> |syms[n]| <= 1) || (forall c: Byte :: !best[c].Free?)
    {
      ghost var originals := syms;
      BeforeRounds(best, syms);
      var i := 255;
      while i >= 0
        invariant -1 <= i <= 255 && bufs == old(bufs) && Valid() && Exact()
        invariant BetweenRounds(best, syms, originals, i)
      {
        if best[i].Free? {
          var key := FindBestToken(profit);
          if profit[key] == 0 {
            NoPairLeft(syms);
            return;
          }
          PlaceBestToken(i, key, originals);
        } else {
          SkipSlot(best, syms, originals, i);
        }
        i := i - 1;
      }
    }

    /** One round: the pair, one of the most frequent, goes into slot i and out of every symbol. */
    method PlaceBestToken(i: Byte, key: nat, ghost originals: seq<seq<Byte>>)
      requires Valid() && Exact() && key < KEYS && profit[key] > 0
      requires forall k :: 0 <= k < KEYS ==> TotalCount(syms, k) <= TotalCount(syms, key)
      requires BetweenRounds(best, syms, originals, i) && best[i].Free?
      modifies this, profit, bufs
      ensures bufs == old(bufs) && Valid() && Exact()
      ensures best == old(best)[i := Token(key % 256, key / 256)]
      ensures syms == ReplaceAll(old(syms), key % 256, key / 256, i)
      ensures BetweenRounds(best, syms, originals, i - 1)
    {
      var a, b := key % 256, key / 256;
      assert Key(a, b) == key;
      Round(best, syms, originals, i, a, b);
      best := best[i := Token(a, b)];
      CompressSymbols(a, b, i);
    }

    /** Undoes the compression of some bytes whose tokens are all above bound. */
    method ExpandSymbol(data: seq<Byte>, ghost bound: int) returns (result: seq<Byte>)
      requires Founded(best) && -1 <= bound < 256
      requires forall c :: c in data && best[c].Token? ==> c > bound
      ensures result == Expand(best, data)
      decreases 256 - bound
    {
      result := [];
      var k := 0;
      while k < |data|
        invariant 0 <= k <= |data| && result == Expand(best, data[..k])
      {
        var c := data[k];
        var part := [];
        match best[c] {
          case Real => part := [c];
          case Token(a, b) =>
            assert PartOf(best, c, a) && PartOf(best, c, b);
            part := ExpandSymbol([a, b], c);
            ExpandPair(best, a, b);
          case Free =>
        }
        assert data[..k + 1] == data[..k] + [c] && [c][1..] == [];
        ExpandConcat(best, data[..k], [c]);
        assert Expand(best, [c]) == ExpandByte(best, c) + [];
        result := result + part;
        k := k + 1;
      }
      assert data[..k] == data;
    }

    /** Everything from reading the symbols to the finished table.  Without any valid symbol
        the program gives up. */
    method OptimizeTokenTable(valid: seq<bool>) returns (ok: bool)
      requires Valid() && |valid| == |bufs| && best == EmptyTable()
      requires forall k :: 0 <= k < KEYS ==> profit[k] == 0
      requires forall n :: 0 <= n < |syms| ==> 0 !in syms[n]
      modifies this, profit, bufs
      ensures ok <==> exists n :: 0 <= n < |valid| && valid[n]
      ensures ok ==> Valid() && Exact() && Compressed(best, syms, Pick(old(syms), Kept(valid)))
    {
      BuildInitialTokTable(valid);
      InsertRealSymbolsInTable();
      forall m | 0 <= m < |valid| && valid[m] { KeptHas(valid, m); }
      ok := |bufs| != 0;
      assert ok ==> valid[Kept(valid)[0]];
      if ok { OptimizeResult(); }
    }
  }

  function EmptyTable(): Table {
    seq(256, _ => Free)
  }

  lemma MoreBytes(syms: seq<seq<Byte>>, i: nat)
    requires i < |syms|
    ensures forall c: Byte :: OccursIn(c, syms[..i + 1]) <==> OccursIn(c, syms[..i]) || c in syms[i][..|syms[i]|]
  {
    forall c: Byte ensures OccursIn(c, syms[..i + 1]) <==> OccursIn(c, syms[..i]) || c in syms[i][..|syms[i]|] {
      if OccursIn(c, syms[..i + 1]) {
        var n :| 0 <= n < i + 1 && c in syms[..i + 1][n];
        assert n < i ==> c in syms[..i][n];
      }
      if OccursIn(c, syms[..i]) {
        var n :| 0 <= n < i && c in syms[..i][n];
        assert c in syms[..i + 1][n];
      }
      if c in syms[i] { assert c in syms[..i + 1][i]; }
    }
  }

  lemma {:induction false} KeptHas(valid: seq<bool>, m: nat)
    requires m < |valid| && valid[m]
    ensures Kept(valid) != []
  {
    var n := |valid| - 1;
    if m < n { KeptHas(valid[..n], m); }
  }

  lemma PickMore<T>(xs: seq<T>, ks: seq<nat>, i: nat)
    requires forall j :: 0 <= j < |ks| ==> ks[j] < |xs|
    requires i < |xs|
    ensures Pick(xs, ks + [i]) == Pick(xs, ks) + [xs[i]]
    ensures (Pick(xs, ks) + [xs[i]])[..|ks|] == Pick(xs, ks)
  {
  }
}
