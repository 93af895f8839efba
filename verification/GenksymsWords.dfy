/** The words put out for an export, spelled out: what is on the trail is put out by name, what is
    not by its definition, and the checksum is that of one line of text. */
module GenksymsWords {
  import opened GenksymsExpand
  import opened Wrappers

  // ----- Mentions -----

  /** The words of a definition whose names are all passed, in letters: "struct", "union" or "enum"
      in front of the name of such a type, any other word alone. */
  function Spelled(toks: seq<Token>): (ws: seq<Str>) {
    if toks == [] then []
    else
      (match toks[0].tag
       case Struct => [[115, 116, 114, 117, 99, 116], toks[0].text]
       case Union => [[117, 110, 105, 111, 110], toks[0].text]
       case Enum => [[101, 110, 117, 109], toks[0].text]
       case _ => [toks[0].text]) + Spelled(toks[1..])
  }

  ghost predicate Passed(table: Table, toks: seq<Token>, seen: set<Key>) {
    forall t :: t in toks && !t.tag.Normal? ==> KeyOf(t) in seen && KeyOf(t) in table
  }

  lemma FirstOf(a: seq<Token>, b: seq<Token>)
    requires a != []
    ensures (a + b)[0] == a[0] && (a + b)[1..] == a[1..] + b
  {
  }

  lemma Regrouped(x: seq<Str>, y: seq<Str>, z: seq<Str>)
    ensures x + (y + z) == (x + y) + z
  {
  }

  lemma MentionSpelled(toks: seq<Token>)
    requires toks != []
    ensures Spelled(toks) == (if toks[0].tag.Normal? then [toks[0].text] else Mention(toks[0])) + Spelled(toks[1..])
  {
  }

  /** Words that mention only what is passed are put out as they are spelled; the expansion goes on
      behind them as from there. */
  lemma {:induction false} PassedBySpelling(table: Table, universe: set<Key>, a: seq<Token>, b: seq<Token>, seen: set<Key>)
    requires Closed(table, universe) && Within(table, universe, a + b) && Within(table, universe, b) && Passed(table, a, seen)
    ensures
      var e, r := Expand(table, universe, a + b, seen), Expand(table, universe, b, seen);
      e == r.(words := Spelled(a) + r.words)
    decreases |a|
  {
    if a == [] {
      assert a + b == b;
    } else {
      FirstOf(a, b);
      assert a[0] in a;
      PassedBySpelling(table, universe, a[1..], b, seen);
      MentionSpelled(a);
      var r := Expand(table, universe, b, seen);
      Regrouped(if a[0].tag.Normal? then [a[0].text] else Mention(a[0]), Spelled(a[1..]), r.words);
    }
  }

  lemma PassedAlone(table: Table, universe: set<Key>, a: seq<Token>, seen: set<Key>)
    requires Closed(table, universe) && Within(table, universe, a) && Passed(table, a, seen)
    ensures Expand(table, universe, a, seen) == Expansion(Spelled(a), seen, table)
  {
    assert a + [] == a;
    PassedBySpelling(table, universe, a, [], seen);
    assert Spelled(a) + [] == Spelled(a);
  }

  // ----- First mentions -----

  /** A name that is not on the trail is put out by its definition, from the first word to the last. */
  lemma FirstMention(table: Table, universe: set<Key>, t: Token, b: seq<Token>, seen: set<Key>)
    requires Closed(table, universe) && Within(table, universe, [t] + b) && Within(table, universe, b)
    requires !t.tag.Normal? && KeyOf(t) in table && KeyOf(t) !in seen
    requires Within(table, universe, Reversed(table[KeyOf(t)].defn))
    requires Passed(table, Reversed(table[KeyOf(t)].defn), seen + {KeyOf(t)})
    ensures
      var e, r := Expand(table, universe, [t] + b, seen), Expand(table, universe, b, seen + {KeyOf(t)});
      e == r.(words := Spelled(Reversed(table[KeyOf(t)].defn)) + r.words)
  {
    assert ([t] + b)[1..] == b;
    Shrinks(universe, seen, KeyOf(t));
    PassedAlone(table, universe, Reversed(table[KeyOf(t)].defn), seen + {KeyOf(t)});
  }

  lemma {:induction false} PlainSpelled(d: seq<Token>)
    requires forall i :: 0 <= i < |d| ==> d[i].tag.Normal?
    ensures |Spelled(d)| == |d| && forall i :: 0 <= i < |d| ==> Spelled(d)[i] == d[i].text
  {
    if d != [] { PlainSpelled(d[1..]); }
  }

  lemma UnknownDefinition(t: Token)
    ensures
      Reversed(Unknown(t).defn) ==
      [Token(Normal, TagName(t.tag)), Token(Normal, t.text), Token(Normal, [123]), Token(Normal, [85, 78, 75, 78, 79, 87, 78]), Token(Normal, [125])]
  {
  }

  lemma UnknownSpelled(t: Token)
    requires MapToNs(t.tag)
    ensures Passed(map[], Reversed(Unknown(t).defn), {})
    ensures Spelled(Reversed(Unknown(t).defn)) == Spelled([t]) + [[123], [85, 78, 75, 78, 79, 87, 78], [125]]
  {
    UnknownDefinition(t);
    PlainSpelled(Reversed(Unknown(t).defn));
    MentionSpelled([t]);
    assert [t][1..] == [] && Spelled([t]) == [TagName(t.tag), t.text];
  }

  lemma PassedMore(table: Table, more: Table, toks: seq<Token>, seen: set<Key>, all: set<Key>)
    requires Passed(table, toks, seen) && table.Keys <= more.Keys && seen <= all
    ensures Passed(more, toks, all)
  {
  }

  /** A type that is declared nowhere is put out as "struct", "union" or "enum", its name and "{ UNKNOWN }". */
  lemma UndefinedSpelled(table: Table, universe: set<Key>, t: Token)
    requires Closed(table, universe) && Within(table, universe, [t]) && MapToNs(t.tag) && KeyOf(t) !in table
    ensures
      Expand(table, universe, [t], {}).words == Spelled([t]) + [[123], [85, 78, 75, 78, 79, 87, 78], [125]]
  {
    EnteredClosed(table, universe, t);
    var table' := Entered(table, t);
    WithinReversed(table', universe, Unknown(t).defn);
    UnknownSpelled(t);
    PassedMore(map[], table', Reversed(Unknown(t).defn), {}, {} + {KeyOf(t)});
    AloneMention(table', universe, t);
    EnteredFirst(table, universe, t);
  }

  lemma AloneMention(table: Table, universe: set<Key>, t: Token)
    requires Closed(table, universe) && Within(table, universe, [t]) && !t.tag.Normal? && KeyOf(t) in table
    requires Within(table, universe, Reversed(table[KeyOf(t)].defn))
    requires Passed(table, Reversed(table[KeyOf(t)].defn), {} + {KeyOf(t)})
    ensures Expand(table, universe, [t], {}).words == Spelled(Reversed(table[KeyOf(t)].defn))
  {
    assert [t] + [] == [t];
    FirstMention(table, universe, t, [], {});
  }

  /** Entering an undefined type beforehand changes nothing about its expansion. */
  lemma EnteredFirst(table: Table, universe: set<Key>, t: Token)
    requires Closed(table, universe) && Within(table, universe, [t]) && !t.tag.Normal?
    requires Closed(Entered(table, t), universe) && Within(Entered(table, t), universe, [t])
    ensures Expand(table, universe, [t], {}) == Expand(Entered(table, t), universe, [t], {})
  {
  }

  // ----- A struct that mentions itself -----

  predicate AllPlain(toks: seq<Token>) {
    forall t :: t in toks ==> t.tag.Normal?
  }

  /** Words that mention at most the type of this key. */
  predicate MentionsOnly(toks: seq<Token>, k: Key) {
    forall t :: t in toks ==> t.tag.Normal? || KeyOf(t) == k
  }

  lemma PassedOnly(table: Table, toks: seq<Token>, k: Key, seen: set<Key>)
    requires MentionsOnly(toks, k) && k in table && k in seen
    ensures Passed(table, toks, seen)
  {
  }

  lemma WithinOnly(table: Table, universe: set<Key>, toks: seq<Token>, k: Key)
    requires MentionsOnly(toks, k) && k in table && k in universe
    ensures Within(table, universe, toks)
  {
  }

  lemma OnlyReversed(toks: seq<Token>, k: Key)
    requires MentionsOnly(toks, k)
    ensures MentionsOnly(Reversed(toks), k)
  {
    forall t | t in Reversed(toks) ensures t in toks { InReversed(toks, t); }
  }

  lemma OnlyParts(a: seq<Token>, t: Token, b: seq<Token>)
    requires AllPlain(a) && AllPlain(b)
    ensures MentionsOnly(a + ([t] + b), KeyOf(t)) && MentionsOnly([t] + b, KeyOf(t)) && MentionsOnly(b, KeyOf(t))
  {
  }

  /** An export that mentions a struct once, between plain words, where the struct mentions itself any number of
      times: the words before it, the struct's definition with "struct" and the name for every
      mention of itself, and the words behind it. */
  lemma SelfReferential(table: Table, universe: set<Key>, name: Str, a: seq<Token>, t: Token, b: seq<Token>)
    requires Closed(table, universe) && Key(false, name) in table && KeyOf(t) in table && KeyOf(t) in universe && MapToNs(t.tag)
    requires Reversed(table[Key(false, name)].defn) == a + ([t] + b) && AllPlain(a) && AllPlain(b)
    requires MentionsOnly(table[KeyOf(t)].defn, KeyOf(t))
    ensures
      Export(table, universe, name).value.words ==
      Spelled(a) + (Spelled(Reversed(table[KeyOf(t)].defn)) + Spelled(b))
  {
    var k, seen := KeyOf(t), {Key(false, name)};
    OnlyParts(a, t, b);
    OnlyReversed(table[k].defn, k);
    WithinOnly(table, universe, a + ([t] + b), k);
    WithinOnly(table, universe, [t] + b, k);
    WithinOnly(table, universe, b, k);
    WithinOnly(table, universe, Reversed(table[k].defn), k);
    PassedBySpelling(table, universe, a, [t] + b, seen);
    PassedOnly(table, Reversed(table[k].defn), k, seen + {k});
    FirstMention(table, universe, t, b, seen);
    PassedAlone(table, universe, b, seen + {k});
  }

  // ----- The line that is hashed -----

  /** Every word and one blank behind it. */
  function Line(ws: seq<Str>): (s: Str) {
    if ws == [] then [] else ws[0] + ([32] + Line(ws[1..]))
  }

  lemma {:induction false} CrcOfBytes(step: Step, a: Str, b: Str, crc: Crc)
    ensures CrcOfStr(step, a + b, crc) == CrcOfStr(step, b, CrcOfStr(step, a, crc))
    decreases |a|
  {
    if a == [] {
      assert a + b == b;
    } else {
      assert (a + b)[0] == a[0] && (a + b)[1..] == a[1..] + b;
      CrcOfBytes(step, a[1..], b, step(a[0], crc));
    }
  }

  /** The checksum of words is that of the text they make. */
  lemma {:induction false} CrcOfLine(step: Step, ws: seq<Str>, crc: Crc)
    ensures CrcOfWords(step, ws, crc) == CrcOfStr(step, Line(ws), crc)
  {
    if ws != [] {
      var crc' := CrcOfStr(step, ws[0], crc);
      CrcOfBytes(step, ws[0], [32] + Line(ws[1..]), crc);
      assert ([32] + Line(ws[1..]))[1..] == Line(ws[1..]);
      CrcOfLine(step, ws[1..], step(32, crc'));
    }
  }
}
