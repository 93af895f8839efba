/** The words of an export, and so its checksum, against the exports before it: they are the same
    exactly when no undefined type was entered before under another tag. */
module GenksymsOrder {
  import opened Wrappers
  import opened GenksymsExpand

  // ----- Undefined types -----

  /** Words without names are put out as they are. */
  lemma {:induction false} ExpandPlain(table: Table, universe: set<Key>, toks: seq<Token>, seen: set<Key>)
    requires Closed(table, universe) && forall t :: t in toks ==> t.tag.Normal?
    ensures Within(table, universe, toks)
    ensures
      var r := Expand(table, universe, toks, seen);
      |r.words| == |toks| && (forall i :: 0 <= i < |toks| ==> r.words[i] == toks[i].text) && r.table == table && r.seen == seen
  {
    if toks != [] { ExpandPlain(table, universe, toks[1..], seen); }
  }

  function UnknownWords(t: Token): seq<Str> {
    [TagName(t.tag), t.text, OPEN, UNKNOWN, CLOSE]
  }

  lemma ExpandUnknown(table: Table, universe: set<Key>, u: Token, seen: set<Key>)
    requires Closed(table, universe)
    ensures
      var toks := Reversed(Unknown(u).defn);
      Within(table, universe, toks) && Expand(table, universe, toks, seen) == Expansion(UnknownWords(u), seen, table)
  {
    var toks := Reversed(Unknown(u).defn);
    ExpandPlain(table, universe, toks, seen);
    assert Expand(table, universe, toks, seen).words == UnknownWords(u);
  }

  // ----- Two tables that differ in what was entered -----

  /** Only undefined types have been entered. */
  ghost predicate Extends(base: Table, more: Table) {
    base.Keys <= more.Keys &&
    forall k :: k in more ==>
      if k in base then more[k] == base[k]
      else k.types && MapToNs(more[k].tag) && more[k] == Unknown(Token(more[k].tag, k.name))
  }

  ghost predicate Kept(table: Table, more: Table) {
    forall k :: k in table ==> k in more && more[k] == table[k]
  }

  /** What neither table had is entered alike in both. */
  ghost predicate EnteredAlike(more: Table, less: Table, more': Table, less': Table) {
    forall k :: k !in more && k !in less ==> (k in more' <==> k in less') && (k in more' ==> more'[k] == less'[k])
  }

  ghost predicate SameOn(a: Table, b: Table, keys: set<Key>) {
    forall k :: k in keys ==> k in a && k in b && a[k] == b[k]
  }

  /** Two expansions of the same words: as long as each other, through the same symbols, and with
      the same words exactly when the symbols newly expanded are the same in both tables. */
  ghost predicate Parallel(base: Table, more: Table, less: Table, seen: set<Key>, a: Expansion, b: Expansion) {
    a.seen == b.seen && seen <= a.seen && |a.words| == |b.words| &&
    a.seen <= a.table.Keys && a.seen <= b.table.Keys &&
    Extends(base, a.table) && Extends(base, b.table) && Kept(more, a.table) && Kept(less, b.table) &&
    EnteredAlike(more, less, a.table, b.table) &&
    (a.words == b.words <==> SameOn(a.table, b.table, a.seen - seen))
  }

  /** Two tables an expansion may start from. */
  ghost predicate Ready(base: Table, more: Table, less: Table, universe: set<Key>, toks: seq<Token>, seen: set<Key>) {
    Extends(base, more) && Extends(base, less) && seen <= more.Keys && seen <= less.Keys &&
    Closed(more, universe) && Closed(less, universe) && Within(more, universe, toks) && Within(less, universe, toks)
  }

  lemma ParallelWords(base: Table, more: Table, less: Table, seen: set<Key>, a: Expansion, b: Expansion, ws: seq<Str>)
    requires Parallel(base, more, less, seen, a, b)
    ensures Parallel(base, more, less, seen, a.(words := ws + a.words), b.(words := ws + b.words))
  {
    SameConcat(ws, a.words, ws, b.words);
  }

  lemma SameConcat<T>(a: seq<T>, b: seq<T>, c: seq<T>, d: seq<T>)
    requires |a| == |c|
    ensures a + b == c + d <==> a == c && b == d
  {
    if a + b == c + d {
      assert a == (a + b)[..|a|] && c == (c + d)[..|a|];
      assert b == (a + b)[|a|..] && d == (c + d)[|a|..];
    }
  }

  /** One expansion after the other, each on the tables the one before left. */
  lemma ParallelJoin(base: Table, more: Table, less: Table, seen: set<Key>, a: Expansion, b: Expansion, a': Expansion, b': Expansion)
    requires Parallel(base, more, less, seen, a, b) && Parallel(base, a.table, b.table, a.seen, a', b')
    ensures Parallel(base, more, less, seen, a'.(words := a.words + a'.words), b'.(words := b.words + b'.words))
  {
    SameConcat(a.words, a'.words, b.words, b'.words);
    SameJoin(a.table, b.table, a'.table, b'.table, seen, a.seen, a'.seen);
  }

  lemma SameJoin(m: Table, l: Table, m': Table, l': Table, s: set<Key>, t: set<Key>, u: set<Key>)
    requires Kept(m, m') && Kept(l, l') && s <= t <= u && t <= m.Keys && t <= l.Keys
    ensures SameOn(m, l, t - s) && SameOn(m', l', u - t) <==> SameOn(m', l', u - s)
  {
    if SameOn(m', l', u - s) {
      forall k | k in t - s ensures m[k] == l[k] {
        assert k in u - s;
      }
    }
  }

  /** A type that is defined is spelled out from the same definition. */
  lemma ParallelDefined(base: Table, more: Table, less: Table, t: Token, seen: set<Key>, a: Expansion, b: Expansion)
    requires KeyOf(t) in base && KeyOf(t) !in seen
    requires Parallel(base, more, less, seen + {KeyOf(t)}, a, b)
    ensures Parallel(base, more, less, seen, a, b)
  {
    assert a.seen - seen == (a.seen - (seen + {KeyOf(t)})) + {KeyOf(t)};
  }

  /** An undefined type is spelled out by the tag under which it was entered. */
  lemma ParallelUnknown(base: Table, more: Table, less: Table, seen: set<Key>, t: Token, a: Expansion, b: Expansion)
    requires Extends(base, more) && Extends(base, less) && seen <= more.Keys && seen <= less.Keys
    requires KeyOf(t) !in base && MapToNs(t.tag) && KeyOf(t) !in seen
    requires
      var more', less' := Entered(more, t), Entered(less, t);
      a == Expansion(UnknownWords(Token(more'[KeyOf(t)].tag, t.text)), seen + {KeyOf(t)}, more') &&
      b == Expansion(UnknownWords(Token(less'[KeyOf(t)].tag, t.text)), seen + {KeyOf(t)}, less')
    ensures Parallel(base, more, less, seen, a, b)
  {
    var k := KeyOf(t);
    EnteredExtends(base, more, t);
    EnteredExtends(base, less, t);
    UnknownWordsTell(Token(a.table[k].tag, t.text), Token(b.table[k].tag, t.text));
    assert a.seen - seen == {k};
    assert SameOn(a.table, b.table, {k}) <==> a.table[k] == b.table[k];
  }

  lemma EnteredExtends(base: Table, more: Table, t: Token)
    requires Extends(base, more) && (KeyOf(t) !in base ==> MapToNs(t.tag))
    ensures Extends(base, Entered(more, t)) && Kept(more, Entered(more, t))
    ensures KeyOf(t) !in base ==> Entered(more, t)[KeyOf(t)] == Unknown(Token(Entered(more, t)[KeyOf(t)].tag, t.text))
    ensures KeyOf(t) !in base ==> MapToNs(Entered(more, t)[KeyOf(t)].tag)
  {
  }

  lemma UnknownWordsTell(s: Token, u: Token)
    requires MapToNs(s.tag) && MapToNs(u.tag) && s.text == u.text
    ensures UnknownWords(s) == UnknownWords(u) <==> Unknown(s) == Unknown(u)
  {
    assert STRUCT[0] == 115 && UNION[0] == 117 && ENUM[0] == 101;
    assert UnknownWords(s)[0] == TagName(s.tag) && UnknownWords(u)[0] == TagName(u.tag);
  }

  lemma EnteredBoth(table: Table, universe: set<Key>, toks: seq<Token>)
    requires Closed(table, universe) && toks != [] && Within(table, universe, toks)
    ensures Closed(Entered(table, toks[0]), universe) && Within(Entered(table, toks[0]), universe, toks[1..])
  {
    EnteredClosed(table, universe, toks[0]);
    WithinMore(table, Entered(table, toks[0]), universe, toks[1..]);
  }

  /** Spelling out a type that has been entered. */
  ghost function SpellOf(table: Table, universe: set<Key>, t: Token, seen: set<Key>): Expansion
    requires Closed(table, universe) && KeyOf(t) in table
  {
    WithinReversed(table, universe, table[KeyOf(t)].defn);
    Expand(table, universe, Reversed(table[KeyOf(t)].defn), seen + {KeyOf(t)})
  }

  lemma ExpandSpelled(table: Table, universe: set<Key>, toks: seq<Token>, seen: set<Key>)
    requires Closed(table, universe) && Within(table, universe, toks)
    requires toks != [] && !toks[0].tag.Normal? && KeyOf(toks[0]) !in seen
    requires Closed(Entered(table, toks[0]), universe)
    ensures
      var inner := SpellOf(Entered(table, toks[0]), universe, toks[0], seen);
      Closed(inner.table, universe) && Within(inner.table, universe, toks[1..]) &&
      var rest := Expand(inner.table, universe, toks[1..], inner.seen);
      Expand(table, universe, toks, seen) == rest.(words := inner.words + rest.words)
  {
    var inner := SpellOf(Entered(table, toks[0]), universe, toks[0], seen);
    WithinMore(table, inner.table, universe, toks[1..]);
  }

  /** What is put out for a word that is not spelled out. */
  function Plainly(t: Token): seq<Str> {
    if t.tag.Normal? then [t.text] else Mention(t)
  }

  lemma ExpandNamed(table: Table, universe: set<Key>, toks: seq<Token>, seen: set<Key>)
    requires Closed(table, universe) && Within(table, universe, toks) && seen <= table.Keys
    requires toks != [] && (toks[0].tag.Normal? || KeyOf(toks[0]) in seen)
    ensures Within(table, universe, toks[1..])
    ensures
      var rest := Expand(table, universe, toks[1..], seen);
      Expand(table, universe, toks, seen) == rest.(words := Plainly(toks[0]) + rest.words)
  {
    WithinMore(table, table, universe, toks[1..]);
  }

  /** What an expansion puts out on two tables that differ in the undefined types entered. */
  lemma {:induction false} ExpandParallel(base: Table, more: Table, less: Table, universe: set<Key>, toks: seq<Token>, seen: set<Key>)
    requires Closed(base, universe) && Within(base, universe, toks) && Ready(base, more, less, universe, toks, seen)
    ensures Parallel(base, more, less, seen, Expand(more, universe, toks, seen), Expand(less, universe, toks, seen))
    decreases |universe - seen|, |toks|, 2
  {
    if toks != [] {
      var t := toks[0];
      if t.tag.Normal? || KeyOf(t) in seen {
        ExpandNamed(more, universe, toks, seen);
        ExpandNamed(less, universe, toks, seen);
        ExpandParallel(base, more, less, universe, toks[1..], seen);
        ParallelWords(base, more, less, seen, Expand(more, universe, toks[1..], seen), Expand(less, universe, toks[1..], seen), Plainly(t));
      } else {
        EnteredBoth(more, universe, toks);
        EnteredBoth(less, universe, toks);
        SpellParallel(base, more, less, universe, toks, seen);
        TailParallel(base, more, less, universe, toks, seen);
      }
    }
  }

  /** What follows a type that is spelled out. */
  lemma {:induction false} TailParallel(base: Table, more: Table, less: Table, universe: set<Key>, toks: seq<Token>, seen: set<Key>)
    requires Closed(base, universe) && Within(base, universe, toks) && Ready(base, more, less, universe, toks, seen)
    requires toks != [] && !toks[0].tag.Normal? && KeyOf(toks[0]) !in seen
    requires Closed(Entered(more, toks[0]), universe) && Closed(Entered(less, toks[0]), universe)
    requires
      var t := toks[0];
      Parallel(base, more, less, seen, SpellOf(Entered(more, t), universe, t, seen), SpellOf(Entered(less, t), universe, t, seen))
    ensures Parallel(base, more, less, seen, Expand(more, universe, toks, seen), Expand(less, universe, toks, seen))
    decreases |universe - seen|, |toks|, 0
  {
    var t := toks[0];
    var a := SpellOf(Entered(more, t), universe, t, seen);
    var b := SpellOf(Entered(less, t), universe, t, seen);
    ExpandSpelled(more, universe, toks, seen);
    ExpandSpelled(less, universe, toks, seen);
    Shrinks(universe, seen, KeyOf(t));
    SmallerOrEqual(universe - a.seen, universe - (seen + {KeyOf(t)}));
    ExpandParallel(base, a.table, b.table, universe, toks[1..], a.seen);
    ParallelJoin(base, more, less, seen, a, b, Expand(a.table, universe, toks[1..], a.seen), Expand(b.table, universe, toks[1..], b.seen));
  }

  lemma {:induction false} SpellParallel(base: Table, more: Table, less: Table, universe: set<Key>, toks: seq<Token>, seen: set<Key>)
    requires Closed(base, universe) && Within(base, universe, toks) && Ready(base, more, less, universe, toks, seen)
    requires toks != [] && !toks[0].tag.Normal? && KeyOf(toks[0]) !in seen
    requires Closed(Entered(more, toks[0]), universe) && Closed(Entered(less, toks[0]), universe)
    ensures
      var t := toks[0];
      Parallel(base, more, less, seen, SpellOf(Entered(more, t), universe, t, seen), SpellOf(Entered(less, t), universe, t, seen))
    decreases |universe - seen|, |toks|, 1
  {
    if KeyOf(toks[0]) in base {
      DefinedParallel(base, more, less, universe, toks[0], seen);
      assert Entered(more, toks[0]) == more && Entered(less, toks[0]) == less;
    } else {
      UndefinedParallel(base, more, less, universe, toks, seen);
    }
  }

  lemma {:induction false} DefinedParallel(base: Table, more: Table, less: Table, universe: set<Key>, t: Token, seen: set<Key>)
    requires Closed(base, universe) && Ready(base, more, less, universe, [], seen)
    requires KeyOf(t) in base && KeyOf(t) in universe && KeyOf(t) !in seen
    ensures KeyOf(t) in more && KeyOf(t) in less
    ensures Parallel(base, more, less, seen, SpellOf(more, universe, t, seen), SpellOf(less, universe, t, seen))
    decreases |universe - seen|, 0, 0
  {
    var k, defn := KeyOf(t), Reversed(base[KeyOf(t)].defn);
    Shrinks(universe, seen, k);
    DefinedReady(base, more, less, universe, k, seen);
    ExpandParallel(base, more, less, universe, defn, seen + {k});
    var a, b := Expand(more, universe, defn, seen + {k}), Expand(less, universe, defn, seen + {k});
    ParallelDefined(base, more, less, t, seen, a, b);
    SpellIs(more, universe, t, seen, defn);
    SpellIs(less, universe, t, seen, defn);
  }

  lemma SpellIs(table: Table, universe: set<Key>, t: Token, seen: set<Key>, defn: seq<Token>)
    requires Closed(table, universe) && KeyOf(t) in table && defn == Reversed(table[KeyOf(t)].defn) && Within(table, universe, defn)
    ensures SpellOf(table, universe, t, seen) == Expand(table, universe, defn, seen + {KeyOf(t)})
  {
  }

  lemma DefinedReady(base: Table, more: Table, less: Table, universe: set<Key>, k: Key, seen: set<Key>)
    requires Closed(base, universe) && Ready(base, more, less, universe, [], seen) && k in base
    ensures Within(base, universe, Reversed(base[k].defn))
    ensures Ready(base, more, less, universe, Reversed(base[k].defn), seen + {k})
    ensures more[k] == base[k] == less[k]
  {
    WithinReversed(base, universe, base[k].defn);
    WithinMore(base, more, universe, Reversed(base[k].defn));
    WithinMore(base, less, universe, Reversed(base[k].defn));
  }

  lemma UndefinedParallel(base: Table, more: Table, less: Table, universe: set<Key>, toks: seq<Token>, seen: set<Key>)
    requires Within(base, universe, toks) && Ready(base, more, less, universe, toks, seen)
    requires toks != [] && !toks[0].tag.Normal? && KeyOf(toks[0]) !in seen && KeyOf(toks[0]) !in base
    requires Closed(Entered(more, toks[0]), universe) && Closed(Entered(less, toks[0]), universe)
    ensures
      var t := toks[0];
      Parallel(base, more, less, seen, SpellOf(Entered(more, t), universe, t, seen), SpellOf(Entered(less, t), universe, t, seen))
  {
    var t, k := toks[0], KeyOf(toks[0]);
    var s, u := Entered(more, t)[k].tag, Entered(less, t)[k].tag;
    EnteredExtends(base, more, t);
    EnteredExtends(base, less, t);
    ExpandUnknown(Entered(more, t), universe, Token(s, t.text), seen + {k});
    ExpandUnknown(Entered(less, t), universe, Token(u, t.text), seen + {k});
    ParallelUnknown(base, more, less, seen, t, SpellOf(Entered(more, t), universe, t, seen), SpellOf(Entered(less, t), universe, t, seen));
  }

  // ----- First tags -----

  ghost function TableAfter(table: Table, universe: set<Key>, name: Str): (r: Table)
    requires Closed(table, universe)
    ensures Closed(r, universe)
  {
    var e := Export(table, universe, name);
    if e.None? then table else e.value.table
  }

  /** The undefined types that a name leads to, each under the tag that leads to it first. */
  ghost function FirstTags(table: Table, universe: set<Key>, name: Str): map<Key, Tag>
    requires Closed(table, universe)
  {
    var after := TableAfter(table, universe, name);
    map k | k in after && k !in table :: after[k].tag
  }

  /** The undefined types that some name leads to, each under the tag of the earliest name. */
  ghost function EarliestTags(table: Table, universe: set<Key>, names: seq<Str>): map<Key, Tag>
    requires Closed(table, universe)
  {
    if names == [] then map[] else EarliestTags(table, universe, names[1..]) + FirstTags(table, universe, names[0])
  }

  ghost predicate SameTags(a: map<Key, Tag>, b: map<Key, Tag>) {
    forall k :: k in a && k in b ==> a[k] == b[k]
  }

  /** The table with undefined types entered. */
  ghost function With(table: Table, tags: map<Key, Tag>): (r: Table)
    ensures r.Keys == table.Keys + tags.Keys
    ensures forall k :: k in table && k !in tags ==> r[k] == table[k]
    ensures forall k :: k in tags ==> r[k] == Unknown(Token(tags[k], k.name))
  {
    table + map k | k in tags :: Unknown(Token(tags[k], k.name))
  }

  /** Tags for types the table does not define. */
  ghost predicate TagsFor(table: Table, tags: map<Key, Tag>) {
    forall k :: k in tags ==> k !in table && k.types && MapToNs(tags[k])
  }

  /** Only what is expanded is entered. */
  lemma {:induction false} EntersSeen(table: Table, universe: set<Key>, toks: seq<Token>, seen: set<Key>)
    requires Closed(table, universe) && Within(table, universe, toks) && seen <= table.Keys
    ensures
      var r := Expand(table, universe, toks, seen);
      r.table.Keys <= table.Keys + r.seen && r.seen <= r.table.Keys
    decreases |universe - seen|, |toks|
  {
    if toks != [] {
      var t := toks[0];
      if t.tag.Normal? || KeyOf(t) in seen {
        EntersSeen(table, universe, toks[1..], seen);
      } else {
        EnteredBoth(table, universe, toks);
        var table' := Entered(table, t);
        var k, defn := KeyOf(t), Reversed(table'[KeyOf(t)].defn);
        Shrinks(universe, seen, k);
        EnteredClosed(table, universe, t);
        WithinReversed(table', universe, table'[k].defn);
        EntersSeen(table', universe, defn, seen + {k});
        var inner := SpellOf(table', universe, t, seen);
        ExpandSpelled(table, universe, toks, seen);
        SmallerOrEqual(universe - inner.seen, universe - (seen + {k}));
        EntersSeen(inner.table, universe, toks[1..], inner.seen);
      }
    }
  }

  /** One export on a table in which undefined types have been entered, against the same export
      on the table alone. */
  lemma ExportParallel(table: Table, universe: set<Key>, tags: map<Key, Tag>, name: Str)
    requires Closed(table, universe) && TagsFor(table, tags) && Closed(With(table, tags), universe)
    requires Key(false, name) in table
    ensures
      var a, b := Export(With(table, tags), universe, name).value, Export(table, universe, name).value;
      Parallel(table, With(table, tags), table, {Key(false, name)}, a, b) && b.table.Keys <= table.Keys + b.seen
  {
    var key := Key(false, name);
    var defn := table[key].defn;
    WithinReversed(table, universe, defn);
    WithinMore(table, With(table, tags), universe, Reversed(defn));
    ExpandParallel(table, With(table, tags), table, universe, Reversed(defn), {key});
    EntersSeen(table, universe, Reversed(defn), {key});
  }

  lemma ExportWithTags(table: Table, universe: set<Key>, tags: map<Key, Tag>, name: Str)
    requires Closed(table, universe) && TagsFor(table, tags) && Closed(With(table, tags), universe)
    requires Key(false, name) in table
    ensures
      var a, b := Export(With(table, tags), universe, name).value, Export(table, universe, name).value;
      var first := FirstTags(table, universe, name);
      TagsFor(table, first) && (a.words == b.words <==> SameTags(first, tags)) && a.table == With(table, first + tags)
  {
    ExportParallel(table, universe, tags, name);
    FirstTagsOf(table, universe, name);
    OutcomeOf(table, tags, Key(false, name), FirstTags(table, universe, name),
      Export(With(table, tags), universe, name).value, Export(table, universe, name).value);
  }

  lemma OutcomeOf(table: Table, tags: map<Key, Tag>, key: Key, first: map<Key, Tag>, a: Expansion, b: Expansion)
    requires TagsFor(table, tags) && key in table
    requires Parallel(table, With(table, tags), table, {key}, a, b) && b.table.Keys <= table.Keys + b.seen
    requires Firsts(table, first, b.table)
    ensures TagsFor(table, first) && (a.words == b.words <==> SameTags(first, tags)) && a.table == With(table, first + tags)
  {
    TagsOutcome(table, tags, {key}, first, a, b);
  }

  lemma TagsOutcome(table: Table, tags: map<Key, Tag>, seen: set<Key>, first: map<Key, Tag>, a: Expansion, b: Expansion)
    requires TagsFor(table, tags) && seen <= table.Keys
    requires Parallel(table, With(table, tags), table, seen, a, b) && b.table.Keys <= table.Keys + b.seen
    requires Firsts(table, first, b.table)
    ensures TagsFor(table, first) && (a.words == b.words <==> SameTags(first, tags)) && a.table == With(table, first + tags)
  {
    TagsDecide(table, tags, seen, first, a, b);
    TablesMatch(table, tags, seen, first, a, b);
  }

  lemma FirstTagsOf(table: Table, universe: set<Key>, name: Str)
    requires Closed(table, universe) && Key(false, name) in table
    ensures Firsts(table, FirstTags(table, universe, name), Export(table, universe, name).value.table)
  {
  }

  lemma TagsJoin(table: Table, first: map<Key, Tag>, tags: map<Key, Tag>)
    requires TagsFor(table, first) && TagsFor(table, tags)
    ensures TagsFor(table, first + tags)
  {
  }

  /** The same for any name: the table only has what was there before and the name's types. */
  lemma NextTags(table: Table, universe: set<Key>, tags: map<Key, Tag>, name: Str)
    requires Closed(table, universe) && TagsFor(table, tags) && Closed(With(table, tags), universe)
    ensures TagsFor(table, FirstTags(table, universe, name) + tags)
    ensures TableAfter(With(table, tags), universe, name) == With(table, FirstTags(table, universe, name) + tags)
    ensures
      Alone(With(table, tags), universe, name) == Alone(table, universe, name) <==>
      SameTags(FirstTags(table, universe, name), tags)
  {
    if Key(false, name) in table {
      ExportWithTags(table, universe, tags, name);
      TagsJoin(table, FirstTags(table, universe, name), tags);
    } else {
      NoTags(table, universe, tags, name);
    }
  }

  lemma NoTags(table: Table, universe: set<Key>, tags: map<Key, Tag>, name: Str)
    requires Closed(table, universe) && TagsFor(table, tags) && Closed(With(table, tags), universe)
    requires Key(false, name) !in table
    ensures FirstTags(table, universe, name) + tags == tags && FirstTags(table, universe, name) == map[]
    ensures Export(table, universe, name) == None == Export(With(table, tags), universe, name)
  {
    assert Key(false, name) !in With(table, tags);
    NothingEntered(table, universe, name);
  }

  lemma NothingEntered(table: Table, universe: set<Key>, name: Str)
    requires Closed(table, universe) && Key(false, name) !in table
    ensures FirstTags(table, universe, name) == map[]
  {
    assert TableAfter(table, universe, name) == table;
  }

  ghost predicate Firsts(table: Table, first: map<Key, Tag>, after: Table) {
    (forall k :: k in first <==> k in after && k !in table) && forall k :: k in first ==> first[k] == after[k].tag
  }

  lemma TagsDecide(table: Table, tags: map<Key, Tag>, seen: set<Key>, first: map<Key, Tag>, a: Expansion, b: Expansion)
    requires TagsFor(table, tags) && seen <= table.Keys
    requires Parallel(table, With(table, tags), table, seen, a, b) && b.table.Keys <= table.Keys + b.seen
    requires Firsts(table, first, b.table)
    ensures a.words == b.words <==> SameTags(first, tags)
  {
    if SameTags(first, tags) {
      forall k | k in a.seen - seen ensures a.table[k] == b.table[k] {
        if k !in table && k in tags { assert k in first; }
      }
    }
    if SameOn(a.table, b.table, a.seen - seen) {
      forall k | k in first && k in tags ensures first[k] == tags[k] {
        assert k in a.seen - seen;
        assert k in With(table, tags) && With(table, tags)[k].tag == tags[k];
      }
    }
  }

  lemma FirstsFor(table: Table, first: map<Key, Tag>, b: Table)
    requires Extends(table, b) && Firsts(table, first, b)
    ensures TagsFor(table, first)
  {
  }

  lemma TablesMatch(table: Table, tags: map<Key, Tag>, seen: set<Key>, first: map<Key, Tag>, a: Expansion, b: Expansion)
    requires TagsFor(table, tags) && Parallel(table, With(table, tags), table, seen, a, b)
    requires Firsts(table, first, b.table)
    ensures TagsFor(table, first) && a.table == With(table, first + tags)
  {
    FirstsFor(table, first, b.table);
    SameTables(table, tags, first, a.table, b.table);
  }

  lemma SameTables(table: Table, tags: map<Key, Tag>, first: map<Key, Tag>, a: Table, b: Table)
    requires TagsFor(table, tags) && Extends(table, b) && Firsts(table, first, b)
    requires Kept(With(table, tags), a) && EnteredAlike(With(table, tags), table, a, b)
    ensures a == With(table, first + tags)
  {
    var w := With(table, first + tags);
    forall k ensures k in a <==> k in w {
      KeyMatches(table, tags, first, a, b, k);
    }
    forall k | k in a ensures a[k] == w[k] {
      KeyMatches(table, tags, first, a, b, k);
    }
  }

  lemma KeyMatches(table: Table, tags: map<Key, Tag>, first: map<Key, Tag>, a: Table, b: Table, k: Key)
    requires TagsFor(table, tags) && Extends(table, b) && Firsts(table, first, b)
    requires Kept(With(table, tags), a) && EnteredAlike(With(table, tags), table, a, b)
    ensures k in a <==> k in table || k in first || k in tags
    ensures k in a ==> a[k] == With(table, first + tags)[k]
  {
    if k in table || k in tags {
      assert k in With(table, tags);
    }
  }

  // ----- Lists of exports -----

  lemma ExportsLater(table: Table, universe: set<Key>, names: seq<Str>, i: nat)
    requires Closed(table, universe) && 0 < i < |names|
    ensures Exports(table, universe, names)[i] == Exports(TableAfter(table, universe, names[0]), universe, names[1..])[i - 1]
  {
  }

  ghost function Alone(table: Table, universe: set<Key>, name: Str): Option<seq<Str>>
    requires Closed(table, universe)
  {
    var e := Export(table, universe, name);
    if e.None? then None else Some(e.value.words)
  }

  lemma ExportsHead(table: Table, universe: set<Key>, names: seq<Str>)
    requires Closed(table, universe) && names != []
    ensures Exports(table, universe, names)[0] == Alone(table, universe, names[0])
  {
  }

  /** The words for the i-th name are those for it alone exactly when the tags agree. */
  ghost predicate TagsTell(table: Table, universe: set<Key>, tags: map<Key, Tag>, names: seq<Str>, i: nat)
    requires Closed(table, universe) && Closed(With(table, tags), universe) && i < |names|
  {
    Exports(With(table, tags), universe, names)[i] == Alone(table, universe, names[i]) <==>
    SameTags(FirstTags(table, universe, names[i]), EarliestTags(table, universe, names[..i]) + tags)
  }

  lemma TagsTellHead(table: Table, universe: set<Key>, tags: map<Key, Tag>, names: seq<Str>)
    requires Closed(table, universe) && TagsFor(table, tags) && Closed(With(table, tags), universe) && names != []
    ensures TagsTell(table, universe, tags, names, 0)
  {
    NextTags(table, universe, tags, names[0]);
    ExportsHead(With(table, tags), universe, names);
    NoEarlier(table, universe, names, tags);
  }

  lemma TagsTellLater(table: Table, universe: set<Key>, tags: map<Key, Tag>, next: map<Key, Tag>, names: seq<Str>, i: nat)
    requires Closed(table, universe) && Closed(With(table, tags), universe) && Closed(With(table, next), universe) && 0 < i < |names|
    requires next == FirstTags(table, universe, names[0]) + tags
    requires TableAfter(With(table, tags), universe, names[0]) == With(table, next)
    requires TagsTell(table, universe, next, names[1..], i - 1)
    ensures TagsTell(table, universe, tags, names, i)
  {
    ExportsLater(With(table, tags), universe, names, i);
    EarliestTail(table, universe, names, i, tags);
  }

  lemma StepTags(table: Table, universe: set<Key>, tags: map<Key, Tag>, name: Str) returns (next: map<Key, Tag>)
    requires Closed(table, universe) && TagsFor(table, tags) && Closed(With(table, tags), universe)
    ensures next == FirstTags(table, universe, name) + tags && TagsFor(table, next)
    ensures TableAfter(With(table, tags), universe, name) == With(table, next) && Closed(With(table, next), universe)
  {
    NextTags(table, universe, tags, name);
    next := FirstTags(table, universe, name) + tags;
  }

  lemma {:induction false} ExportsWithTags(table: Table, universe: set<Key>, tags: map<Key, Tag>, names: seq<Str>, i: nat)
    requires Closed(table, universe) && TagsFor(table, tags) && Closed(With(table, tags), universe) && i < |names|
    ensures TagsTell(table, universe, tags, names, i)
    decreases |names|
  {
    if i == 0 {
      TagsTellHead(table, universe, tags, names);
    } else {
      var next := StepTags(table, universe, tags, names[0]);
      ExportsWithTags(table, universe, next, names[1..], i - 1);
      TagsTellLater(table, universe, tags, next, names, i);
    }
  }

  lemma NoEarlier(table: Table, universe: set<Key>, names: seq<Str>, tags: map<Key, Tag>)
    requires Closed(table, universe)
    ensures EarliestTags(table, universe, names[..0]) + tags == tags
  {
    assert names[..0] == [];
    assert EarliestTags(table, universe, []) == map[];
  }

  lemma EarliestTail(table: Table, universe: set<Key>, names: seq<Str>, i: nat, tags: map<Key, Tag>)
    requires Closed(table, universe) && 0 < i < |names|
    ensures names[1..][i - 1] == names[i]
    ensures
      EarliestTags(table, universe, names[1..][..i - 1]) + (FirstTags(table, universe, names[0]) + tags) ==
      EarliestTags(table, universe, names[..i]) + tags
  {
    assert names[1..][..i - 1] == names[..i][1..];
    var later, first := EarliestTags(table, universe, names[..i][1..]), FirstTags(table, universe, names[0]);
    assert later + (first + tags) == (later + first) + tags;
  }

  /** What is put out for a name behind other exports is what is put out for it alone exactly when
      the undefined types that it shares with them are first met under the same tags: by the
      name itself, and by the earliest export that leads to them. */
  lemma ExportsIndependentExactly(table: Table, universe: set<Key>, names: seq<Str>, i: nat)
    requires Closed(table, universe) && i < |names|
    ensures
      Exports(table, universe, names)[i] == Alone(table, universe, names[i]) <==>
      SameTags(FirstTags(table, universe, names[i]), EarliestTags(table, universe, names[..i]))
  {
    assert With(table, map[]) == table;
    ExportsWithTags(table, universe, map[], names, i);
    assert EarliestTags(table, universe, names[..i]) + map[] == EarliestTags(table, universe, names[..i]);
  }

  // ----- One tag for each undefined type -----

  /** Each undefined type is referred to by one tag only. */
  ghost predicate TagsAgree(table: Table, tags: map<Key, Tag>) {
    forall k :: k in table ==> WordsAgree(table, tags, table[k].defn)
  }

  ghost predicate WordsAgree(table: Table, tags: map<Key, Tag>, toks: seq<Token>) {
    forall t :: t in toks && !t.tag.Normal? && KeyOf(t) !in table ==> KeyOf(t) in tags && tags[KeyOf(t)] == t.tag
  }

  /** Only undefined types have been entered, each under its tag. */
  ghost predicate Grown(table: Table, more: Table, tags: map<Key, Tag>) {
    table.Keys <= more.Keys &&
    forall k :: k in more ==>
      if k in table then more[k] == table[k] else k.types && k in tags && more[k] == Unknown(Token(tags[k], k.name))
  }

  lemma EnteredAgrees(table: Table, tags: map<Key, Tag>, t: Token)
    requires TagsAgree(table, tags)
    ensures WordsAgree(table, tags, Reversed(Entered(table, t)[KeyOf(t)].defn))
  {
    var defn := Entered(table, t)[KeyOf(t)].defn;
    assert WordsAgree(table, tags, defn);
    forall u | u in Reversed(defn) ensures u in defn { InReversed(defn, u); }
  }

  lemma {:induction false} EntersTags(table: Table, more: Table, tags: map<Key, Tag>, universe: set<Key>, toks: seq<Token>, seen: set<Key>)
    requires TagsAgree(table, tags) && WordsAgree(table, tags, toks) && Grown(table, more, tags) && seen <= more.Keys
    requires Closed(more, universe) && Within(more, universe, toks)
    ensures Grown(table, Expand(more, universe, toks, seen).table, tags)
    decreases |universe - seen|, |toks|, 1
  {
    if toks != [] {
      var t := toks[0];
      if t.tag.Normal? || KeyOf(t) in seen {
        ExpandNamed(more, universe, toks, seen);
        EntersTags(table, more, tags, universe, toks[1..], seen);
      } else {
        EnteredBoth(more, universe, toks);
        EntersTagsSpelled(table, more, tags, universe, toks, seen);
        ExpandSpelled(more, universe, toks, seen);
        var inner := SpellOf(Entered(more, t), universe, t, seen);
        Shrinks(universe, seen, KeyOf(t));
        SmallerOrEqual(universe - inner.seen, universe - (seen + {KeyOf(t)}));
        EntersTags(table, inner.table, tags, universe, toks[1..], inner.seen);
      }
    }
  }

  lemma EnteredGrown(table: Table, more: Table, tags: map<Key, Tag>, t: Token)
    requires Grown(table, more, tags) && !t.tag.Normal? && (KeyOf(t) in more || MapToNs(t.tag))
    requires KeyOf(t) !in table ==> KeyOf(t) in tags && tags[KeyOf(t)] == t.tag
    ensures Grown(table, Entered(more, t), tags) && Entered(more, t)[KeyOf(t)] == Entered(table, t)[KeyOf(t)]
  {
  }

  lemma {:induction false} EntersTagsSpelled(table: Table, more: Table, tags: map<Key, Tag>, universe: set<Key>, toks: seq<Token>, seen: set<Key>)
    requires TagsAgree(table, tags) && WordsAgree(table, tags, toks) && Grown(table, more, tags) && seen <= more.Keys
    requires Closed(more, universe) && Within(more, universe, toks) && toks != [] && !toks[0].tag.Normal? && KeyOf(toks[0]) !in seen
    requires Closed(Entered(more, toks[0]), universe)
    ensures
      var inner := SpellOf(Entered(more, toks[0]), universe, toks[0], seen);
      Grown(table, inner.table, tags) && inner.seen <= inner.table.Keys
    decreases |universe - seen|, |toks|, 0
  {
    var t := toks[0];
    var more', k := Entered(more, t), KeyOf(t);
    EnteredGrown(table, more, tags, t);
    var defn := Reversed(more'[k].defn);
    EnteredAgrees(table, tags, t);
    Shrinks(universe, seen, k);
    EnteredClosed(more, universe, t);
    WithinReversed(more', universe, more'[k].defn);
    EntersTags(table, more', tags, universe, defn, seen + {k});
    EntersSeen(more', universe, defn, seen + {k});
  }

  lemma FirstTagsAgree(table: Table, tags: map<Key, Tag>, universe: set<Key>, name: Str)
    requires TagsAgree(table, tags) && Closed(table, universe)
    ensures forall k :: k in FirstTags(table, universe, name) ==> k in tags && FirstTags(table, universe, name)[k] == tags[k]
  {
    var key := Key(false, name);
    if key in table {
      EnteredAgrees(table, tags, Token(Typedef, name));
      WithinReversed(table, universe, table[key].defn);
      EntersTags(table, table, tags, universe, Reversed(table[key].defn), {key});
    }
  }

  lemma {:induction false} EarliestTagsAgree(table: Table, tags: map<Key, Tag>, universe: set<Key>, names: seq<Str>)
    requires TagsAgree(table, tags) && Closed(table, universe)
    ensures forall k :: k in EarliestTags(table, universe, names) ==> k in tags && EarliestTags(table, universe, names)[k] == tags[k]
    decreases |names|
  {
    if names != [] {
      FirstTagsAgree(table, tags, universe, names[0]);
      EarliestTagsAgree(table, tags, universe, names[1..]);
    }
  }

  /** When no undefined type is referred to by two tags, no export depends on those before it. */
  lemma ExportsIndependent(table: Table, tags: map<Key, Tag>, universe: set<Key>, names: seq<Str>, i: nat)
    requires TagsAgree(table, tags) && Closed(table, universe) && i < |names|
    ensures Exports(table, universe, names)[i] == Alone(table, universe, names[i])
  {
    ExportsIndependentExactly(table, universe, names, i);
    FirstTagsAgree(table, tags, universe, names[i]);
    EarliestTagsAgree(table, tags, universe, names[..i]);
  }

  /** Nothing is undefined. */
  ghost predicate Complete(table: Table) {
    forall k, t :: k in table && t in table[k].defn && !t.tag.Normal? ==> KeyOf(t) in table
  }

  lemma CompleteAgrees(table: Table)
    requires Complete(table)
    ensures TagsAgree(table, map[])
  {
    forall k | k in table ensures WordsAgree(table, map[], table[k].defn) {
    }
  }

  const FOO: Str := [102, 111, 111]
  const A: Str := [97]
  const B: Str := [98]

  /** One undefined type called a struct in one place and a union in another. */
  function Mixed(): Table {
    map[Key(false, A) := Symbol(Normal, [Token(Struct, FOO)]), Key(false, B) := Symbol(Normal, [Token(Union, FOO)])]
  }

  /** A symbol that only mentions a type taken for unknown is put out as that type. */
  lemma ExportLone(table: Table, universe: set<Key>, name: Str, t: Token, u: Token)
    requires Closed(table, universe) && MapToNs(t.tag) && Key(false, name) in table && table[Key(false, name)].defn == [t]
    requires Entered(table, t)[KeyOf(t)] == Unknown(u)
    ensures Export(table, universe, name).Some?
    ensures Export(table, universe, name).value.words == UnknownWords(u)
    ensures Export(table, universe, name).value.table == Entered(table, t)
  {
    var key := Key(false, name);
    assert Reversed([t]) == [t] && [t][1..] == [];
    WithinReversed(table, universe, [t]);
    var table' := Entered(table, t);
    EnteredClosed(table, universe, t);
    WithinReversed(table', universe, Unknown(u).defn);
    ExpandUnknown(table', universe, u, {key, KeyOf(t)});
    assert {key} + {KeyOf(t)} == {key, KeyOf(t)};
    assert Expand(table', universe, [], {key, KeyOf(t)}) == Expansion([], {key, KeyOf(t)}, table');
    assert UnknownWords(u) + [] == UnknownWords(u);
  }

  lemma ExportsFirst(table: Table, universe: set<Key>, a: Str)
    requires Closed(table, universe) && Export(table, universe, a).Some?
    ensures Exports(table, universe, [a])[0] == Some(Export(table, universe, a).value.words)
  {
  }

  lemma ExportsSecond(table: Table, universe: set<Key>, a: Str, b: Str)
    requires Closed(table, universe) && Export(table, universe, a).Some?
    requires Export(Export(table, universe, a).value.table, universe, b).Some?
    ensures Exports(table, universe, [a, b])[1] == Some(Export(Export(table, universe, a).value.table, universe, b).value.words)
  {
    assert [a, b][1..] == [b];
    ExportsFirst(Export(table, universe, a).value.table, universe, b);
  }

  lemma UnknownWordsDiffer(s: Token, u: Token)
    requires s.tag.Struct? && u.tag.Union?
    ensures UnknownWords(s) != UnknownWords(u)
  {
    assert UnknownWords(s)[0] != UnknownWords(u)[0] by { assert STRUCT[0] != UNION[0]; }
  }

  lemma MixedClosed()
    ensures Closed(Mixed(), {Key(true, FOO)})
  {
  }

  /** With two tags the order of the exports shows: b exported behind a differs from b alone. */
  lemma MixedTagsMatter()
    ensures Closed(Mixed(), {Key(true, FOO)})
    ensures Exports(Mixed(), {Key(true, FOO)}, [A, B])[1] != Exports(Mixed(), {Key(true, FOO)}, [B])[0]
  {
    var universe := {Key(true, FOO)};
    var s, u := Token(Struct, FOO), Token(Union, FOO);
    MixedClosed();
    ExportLone(Mixed(), universe, A, s, s);
    EnteredClosed(Mixed(), universe, s);
    ExportLone(Entered(Mixed(), s), universe, B, u, s);
    ExportLone(Mixed(), universe, B, u, u);
    ExportsSecond(Mixed(), universe, A, B);
    ExportsFirst(Mixed(), universe, B);
    UnknownWordsDiffer(s, u);
  }
}
