/** Symbol versions: a symbol's definition with every type it mentions spelled out once, hashed. */
module GenksymsExpand {
  import opened Wrappers

  type Byte = x: int | 0 <= x < 256
  type Str = seq<Byte>

  datatype Tag = Normal | Typedef | Enum | Struct | Union | EnumConst

  /** A word of a definition; a tag other than Normal makes it the name of a type or constant. */
  datatype Token = Token(tag: Tag, text: Str)

  /** Definitions are lists from the last word to the first. */
  datatype Symbol = Symbol(tag: Tag, defn: seq<Token>)

  /** Structs, unions and enums share one name space, everything else another. */
  datatype Key = Key(types: bool, name: Str)

  type Table = map<Key, Symbol>

  function MapToNs(t: Tag): (types: bool) {
    t.Enum? || t.Struct? || t.Union?
  }

  function KeyOf(t: Token): Key {
    Key(MapToNs(t.tag), t.text)
  }

  const STRUCT: Str := [115, 116, 114, 117, 99, 116]
  const UNION: Str := [117, 110, 105, 111, 110]
  const ENUM: Str := [101, 110, 117, 109]
  const UNKNOWN: Str := [85, 78, 75, 78, 79, 87, 78]
  const OPEN: Str := [123]
  const CLOSE: Str := [125]

  function TagName(t: Tag): Str {
    if t.Struct? then STRUCT else if t.Union? then UNION else ENUM
  }

  /** What an undefined struct, union or enum is taken for. */
  function Unknown(t: Token): Symbol {
    Symbol(t.tag, [Token(Normal, CLOSE), Token(Normal, UNKNOWN), Token(Normal, OPEN), Token(Normal, t.text), Token(Normal, TagName(t.tag))])
  }

  function Reversed<T>(s: seq<T>): (r: seq<T>)
    ensures |r| == |s| && forall i :: 0 <= i < |s| ==> r[i] == s[|s| - 1 - i]
  {
    if s == [] then [] else Reversed(s[1..]) + [s[0]]
  }

  // ----- Tables that can be expanded -----

  /** Every name in the words is in the universe; typedefs and enum constants are defined. */
  ghost predicate Within(table: Table, universe: set<Key>, toks: seq<Token>) {
    forall t :: t in toks && !t.tag.Normal? ==> KeyOf(t) in universe && (KeyOf(t) in table || MapToNs(t.tag))
  }

  ghost predicate Closed(table: Table, universe: set<Key>) {
    forall k :: k in table ==> Within(table, universe, table[k].defn)
  }

  lemma InReversed(toks: seq<Token>, t: Token)
    requires t in Reversed(toks)
    ensures t in toks
  {
    var i :| 0 <= i < |toks| && Reversed(toks)[i] == t;
    assert t == toks[|toks| - 1 - i];
  }

  lemma WithinReversed(table: Table, universe: set<Key>, toks: seq<Token>)
    requires Within(table, universe, toks)
    ensures Within(table, universe, Reversed(toks))
  {
    forall t | t in Reversed(toks) ensures t in toks { InReversed(toks, t); }
  }

  lemma WithinMore(table: Table, more: Table, universe: set<Key>, toks: seq<Token>)
    requires Within(table, universe, toks) && table.Keys <= more.Keys
    ensures Within(more, universe, toks)
  {
  }

  /** The table after a name has been looked up: an undefined type is entered as unknown. */
  function Entered(table: Table, t: Token): (r: Table)
    ensures KeyOf(t) in r && table.Keys <= r.Keys && forall k :: k in table ==> r[k] == table[k]
  {
    if KeyOf(t) in table then table else table[KeyOf(t) := Unknown(t)]
  }

  lemma EnteredClosed(table: Table, universe: set<Key>, t: Token)
    requires Closed(table, universe)
    ensures Closed(Entered(table, t), universe)
    ensures Within(Entered(table, t), universe, Entered(table, t)[KeyOf(t)].defn)
  {
    var r := Entered(table, t);
    forall k | k in r ensures Within(r, universe, r[k].defn) {
      if k in table { WithinMore(table, r, universe, table[k].defn); }
    }
  }

  // ----- Expansion -----

  /** The words put out, the symbols expanded so far and the table afterwards. */
  datatype Expansion = Expansion(words: seq<Str>, seen: set<Key>, table: Table)

  /** A symbol that is being or has been expanded is put out by name. */
  function Mention(t: Token): seq<Str> {
    if MapToNs(t.tag) then [TagName(t.tag), t.text] else [t.text]
  }

  lemma Shrinks(universe: set<Key>, seen: set<Key>, k: Key)
    requires k in universe && k !in seen
    ensures |universe - (seen + {k})| < |universe - seen|
  {
    var a, b := universe - seen, universe - (seen + {k});
    assert a == b + {k} && k !in b;
  }

  lemma SmallerOrEqual(a: set<Key>, b: set<Key>)
    requires a <= b
    ensures |a| <= |b|
  {
    assert b == a + (b - a) && a !! (b - a);
  }

  ghost function Expand(table: Table, universe: set<Key>, toks: seq<Token>, seen: set<Key>): (r: Expansion)
    requires Closed(table, universe) && Within(table, universe, toks)
    ensures seen <= r.seen && table.Keys <= r.table.Keys && Closed(r.table, universe)
    decreases |universe - seen|, |toks|
  {
    if toks == [] then Expansion([], seen, table)
    else
      var t := toks[0];
      if t.tag.Normal? then
        var rest := Expand(table, universe, toks[1..], seen);
        rest.(words := [t.text] + rest.words)
      else
        EnteredClosed(table, universe, t);
        var table' := Entered(table, t);
        if KeyOf(t) in seen then
          WithinMore(table, table', universe, toks[1..]);
          var rest := Expand(table', universe, toks[1..], seen);
          rest.(words := Mention(t) + rest.words)
        else
          Shrinks(universe, seen, KeyOf(t));
          WithinReversed(table', universe, table'[KeyOf(t)].defn);
          var inner := Expand(table', universe, Reversed(table'[KeyOf(t)].defn), seen + {KeyOf(t)});
          WithinMore(table, inner.table, universe, toks[1..]);
          SmallerOrEqual(universe - inner.seen, universe - seen);
          var rest := Expand(inner.table, universe, toks[1..], inner.seen);
          rest.(words := inner.words + rest.words)
  }

  // ----- Checksums -----

  type Crc = bv32

  /** One step of the checksum; what it computes plays no role here. */
  type Step = (Byte, Crc) -> Crc

  const SPACE: Byte := 32

  function CrcOfStr(step: Step, s: Str, crc: Crc): Crc {
    if s == [] then crc else CrcOfStr(step, s[1..], step(s[0], crc))
  }

  /** Every word is followed by a space. */
  function CrcOfWords(step: Step, ws: seq<Str>, crc: Crc): Crc {
    if ws == [] then crc else CrcOfWords(step, ws[1..], step(SPACE, CrcOfStr(step, ws[0], crc)))
  }

  lemma {:induction false} CrcOfJoined(step: Step, a: seq<Str>, b: seq<Str>, crc: Crc)
    ensures CrcOfWords(step, a + b, crc) == CrcOfWords(step, b, CrcOfWords(step, a, crc))
    decreases |a|
  {
    if a == [] {
      assert a + b == b;
    } else {
      assert (a + b)[1..] == a[1..] + b;
      CrcOfJoined(step, a[1..], b, step(SPACE, CrcOfStr(step, a[0], crc)));
    }
  }

  // ----- Exports -----

  const START: Crc := 0xffff_ffff

  /** Expanding a symbol by name: its own key counts as seen from the start. */
  ghost function Export(table: Table, universe: set<Key>, name: Str): (r: Option<Expansion>)
    requires Closed(table, universe)
    ensures r.Some? <==> Key(false, name) in table
    ensures r.Some? ==> Closed(r.value.table, universe)
  {
    var key := Key(false, name);
    if key !in table then None
    else
      WithinReversed(table, universe, table[key].defn);
      Some(Expand(table, universe, Reversed(table[key].defn), {key}))
  }

  /** The words of a list of exports, one after the other on the changing table. */
  ghost function Exports(table: Table, universe: set<Key>, names: seq<Str>): (r: seq<Option<seq<Str>>>)
    requires Closed(table, universe)
    ensures |r| == |names|
    decreases |names|
  {
    if names == [] then []
    else
      var e := Export(table, universe, names[0]);
      if e.None? then [None] + Exports(table, universe, names[1..])
      else [Some(e.value.words)] + Exports(e.value.table, universe, names[1..])
  }

  // ----- What an export covers -----

  ghost predicate WordsSeen(toks: seq<Token>, seen: set<Key>) {
    forall t :: t in toks && !t.tag.Normal? ==> KeyOf(t) in seen
  }

  /** The definitions of the keys mention only symbols seen. */
  ghost predicate Covered(table: Table, keys: set<Key>, seen: set<Key>) {
    forall k :: k in keys ==> k in table && WordsSeen(table[k].defn, seen)
  }

  lemma {:induction false} ExpandKeeps(table: Table, universe: set<Key>, toks: seq<Token>, seen: set<Key>, k: Key)
    requires Closed(table, universe) && Within(table, universe, toks) && k in table
    ensures k in Expand(table, universe, toks, seen).table && Expand(table, universe, toks, seen).table[k] == table[k]
    decreases |universe - seen|, |toks|
  {
    if toks != [] {
      var t := toks[0];
      if t.tag.Normal? {
        ExpandKeeps(table, universe, toks[1..], seen, k);
      } else {
        EnteredClosed(table, universe, t);
        var table' := Entered(table, t);
        if KeyOf(t) in seen {
          WithinMore(table, table', universe, toks[1..]);
          ExpandKeeps(table', universe, toks[1..], seen, k);
        } else {
          Shrinks(universe, seen, KeyOf(t));
          WithinReversed(table', universe, table'[KeyOf(t)].defn);
          var defn := Reversed(table'[KeyOf(t)].defn);
          ExpandKeeps(table', universe, defn, seen + {KeyOf(t)}, k);
          var inner := Expand(table', universe, defn, seen + {KeyOf(t)});
          WithinMore(table, inner.table, universe, toks[1..]);
          SmallerOrEqual(universe - inner.seen, universe - seen);
          ExpandKeeps(inner.table, universe, toks[1..], inner.seen, k);
        }
      }
    }
  }

  lemma WordsSeenReversed(toks: seq<Token>, seen: set<Key>)
    requires WordsSeen(Reversed(toks), seen)
    ensures WordsSeen(toks, seen)
  {
    forall t | t in toks ensures t in Reversed(toks) {
      var i :| 0 <= i < |toks| && toks[i] == t;
      assert t == Reversed(toks)[|toks| - 1 - i];
    }
  }

  lemma CoveredJoin(table: Table, more: Table, k: Key, a: set<Key>, b: set<Key>, seen: set<Key>, all: set<Key>)
    requires Covered(table, a, seen) && k in table && WordsSeen(table[k].defn, seen) && Covered(more, b, all) && seen <= all
    requires forall j :: j in table ==> j in more && more[j] == table[j]
    ensures Covered(more, {k} + a + b, all)
  {
  }

  lemma CoveredPart(table: Table, a: set<Key>, b: set<Key>, seen: set<Key>)
    requires Covered(table, b, seen) && a <= b
    ensures Covered(table, a, seen)
  {
  }

  /** Everything mentioned is seen, and so is everything that is mentioned by what is newly seen. */
  lemma {:induction false} ExpandCovers(table: Table, universe: set<Key>, toks: seq<Token>, seen: set<Key>)
    requires Closed(table, universe) && Within(table, universe, toks)
    ensures
      var r := Expand(table, universe, toks, seen);
      WordsSeen(toks, r.seen) && Covered(r.table, r.seen - seen, r.seen)
    decreases |universe - seen|, |toks|
  {
    if toks != [] {
      var t := toks[0];
      if t.tag.Normal? {
        ExpandCovers(table, universe, toks[1..], seen);
      } else {
        EnteredClosed(table, universe, t);
        var table' := Entered(table, t);
        var k := KeyOf(t);
        if k in seen {
          WithinMore(table, table', universe, toks[1..]);
          ExpandCovers(table', universe, toks[1..], seen);
        } else {
          Shrinks(universe, seen, k);
          WithinReversed(table', universe, table'[k].defn);
          var defn := Reversed(table'[k].defn);
          ExpandCovers(table', universe, defn, seen + {k});
          ExpandKeeps(table', universe, defn, seen + {k}, k);
          var inner := Expand(table', universe, defn, seen + {k});
          WordsSeenReversed(table'[k].defn, inner.seen);
          WithinMore(table, inner.table, universe, toks[1..]);
          SmallerOrEqual(universe - inner.seen, universe - seen);
          ExpandCovers(inner.table, universe, toks[1..], inner.seen);
          var rest := Expand(inner.table, universe, toks[1..], inner.seen);
          forall j | j in inner.table ensures j in rest.table && rest.table[j] == inner.table[j] {
            ExpandKeeps(inner.table, universe, toks[1..], inner.seen, j);
          }
          var a, b := inner.seen - (seen + {k}), rest.seen - inner.seen;
          CoveredJoin(inner.table, rest.table, k, a, b, inner.seen, rest.seen);
          CoveredPart(rest.table, rest.seen - seen, {k} + a + b, rest.seen);
        }
      }
    }
  }

  /** Nothing else is seen: any set that holds the words' names and is closed under mention in
      the final table holds everything seen. */
  lemma {:induction false} ExpandLeast(table: Table, universe: set<Key>, toks: seq<Token>, seen: set<Key>, final: Table, all: set<Key>)
    requires Closed(table, universe) && Within(table, universe, toks)
    requires seen <= all && WordsSeen(toks, all)
    requires forall k :: k in all && k in final ==> WordsSeen(final[k].defn, all)
    requires
      var r := Expand(table, universe, toks, seen);
      forall k :: k in r.table ==> k in final && final[k] == r.table[k]
    ensures Expand(table, universe, toks, seen).seen <= all
    decreases |universe - seen|, |toks|
  {
    if toks != [] {
      var t := toks[0];
      if t.tag.Normal? {
        ExpandLeast(table, universe, toks[1..], seen, final, all);
      } else {
        EnteredClosed(table, universe, t);
        var table' := Entered(table, t);
        var k := KeyOf(t);
        if k in seen {
          WithinMore(table, table', universe, toks[1..]);
          ExpandLeast(table', universe, toks[1..], seen, final, all);
        } else {
          Shrinks(universe, seen, k);
          WithinReversed(table', universe, table'[k].defn);
          var defn := Reversed(table'[k].defn);
          var inner := Expand(table', universe, defn, seen + {k});
          WithinMore(table, inner.table, universe, toks[1..]);
          SmallerOrEqual(universe - inner.seen, universe - seen);
          forall j | j in inner.table ensures j in final && final[j] == inner.table[j] {
            ExpandKeeps(inner.table, universe, toks[1..], inner.seen, j);
          }
          ExpandKeeps(table', universe, defn, seen + {k}, k);
          ReversedWordsSeen(table'[k].defn, all);
          ExpandLeast(table', universe, defn, seen + {k}, final, all);
          ExpandLeast(inner.table, universe, toks[1..], inner.seen, final, all);
        }
      }
    }
  }

  lemma ReversedWordsSeen(toks: seq<Token>, seen: set<Key>)
    requires WordsSeen(toks, seen)
    ensures WordsSeen(Reversed(toks), seen)
  {
    forall t | t in Reversed(toks) ensures t in toks { InReversed(toks, t); }
  }

  /** An export expands exactly the symbols reachable from the name: its set is closed under
      mention and the least such set that holds the name. */
  lemma ExportReaches(table: Table, universe: set<Key>, name: Str, all: set<Key>)
    requires Closed(table, universe) && Export(table, universe, name).Some?
    requires Key(false, name) in all
    requires forall k :: k in all && k in Export(table, universe, name).value.table ==>
               WordsSeen(Export(table, universe, name).value.table[k].defn, all)
    ensures
      var r := Export(table, universe, name).value;
      Covered(r.table, r.seen, r.seen) && Key(false, name) in r.seen && r.seen <= all
  {
    var key := Key(false, name);
    var defn := table[key].defn;
    WithinReversed(table, universe, defn);
    var r := Expand(table, universe, Reversed(defn), {key});
    ExpandCovers(table, universe, Reversed(defn), {key});
    ExpandKeeps(table, universe, Reversed(defn), {key}, key);
    WordsSeenReversed(defn, r.seen);
    ReversedWordsSeen(defn, all);
    ExpandLeast(table, universe, Reversed(defn), {key}, r.table, all);
  }
}
