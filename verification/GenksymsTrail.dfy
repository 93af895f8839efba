/** The expansion as it runs: symbols link themselves into a trail, which is taken apart again
    after each export. */
module GenksymsTrail {
  import opened GenksymsExpand
  import opened Wrappers

  /** A symbol's expansion_trail when it is on the trail: the end mark or the next symbol. */
  datatype Link = End | At(key: Key)

  /** The trail is the list of the keys in order, each linked to the next. */
  ghost predicate Linked(trail: map<Key, Link>, head: Link, order: seq<Key>)
    decreases |order|
  {
    if order == [] then head == End
    else head == At(order[0]) && order[0] in trail && Linked(trail, trail[order[0]], order[1..])
  }

  ghost predicate Distinct(order: seq<Key>) {
    order == [] || (order[0] !in order[1..] && Distinct(order[1..]))
  }

  /** A trail that holds exactly the linked symbols, each once. */
  ghost predicate Trail(trail: map<Key, Link>, head: Link, order: seq<Key>) {
    Linked(trail, head, order) && Distinct(order) && forall k :: k in trail <==> k in order
  }

  lemma {:induction false} LinkedElsewhere(trail: map<Key, Link>, head: Link, order: seq<Key>, k: Key, l: Link)
    requires Linked(trail, head, order) && k !in order
    ensures Linked(trail[k := l], head, order)
    decreases |order|
  {
    if order != [] { LinkedElsewhere(trail, trail[order[0]], order[1..], k, l); }
  }

  lemma Pushed(trail: map<Key, Link>, head: Link, order: seq<Key>, k: Key)
    requires Trail(trail, head, order) && k !in trail
    ensures Trail(trail[k := head], At(k), [k] + order)
  {
    LinkedElsewhere(trail, head, order, k, head);
    assert ([k] + order)[1..] == order;
  }

  lemma {:induction false} LinkedWithout(trail: map<Key, Link>, head: Link, order: seq<Key>, k: Key)
    requires Linked(trail, head, order) && k !in order
    ensures Linked(trail - {k}, head, order)
    decreases |order|
  {
    if order != [] { LinkedWithout(trail, trail[order[0]], order[1..], k); }
  }

  lemma Popped(trail: map<Key, Link>, head: Link, order: seq<Key>)
    requires Trail(trail, head, order) && order != []
    ensures head == At(order[0]) && order[0] in trail
    ensures Trail(trail - {order[0]}, trail[order[0]], order[1..])
  {
    LinkedWithout(trail, trail[order[0]], order[1..], order[0]);
  }

  class Genksyms {
    /** The declared symbols. */
    var symtab: Table
    /** The symbols whose expansion_trail is not NULL. */
    var trail: map<Key, Link>
    /** The last symbol put on the trail. */
    var head: Link
    ghost var order: seq<Key>
    ghost var universe: set<Key>

    constructor (symtab: Table, ghost universe: set<Key>)
      requires Closed(symtab, universe)
      ensures Valid() && this.symtab == symtab && this.universe == universe && trail == map[]
    {
      this.symtab, this.universe := symtab, universe;
      trail, head, order := map[], End, [];
    }

    ghost predicate Valid()
      reads this
    {
      Closed(symtab, universe) && Trail(trail, head, order)
    }

    method PartialCrc32(step: Step, s: Str, crc: Crc) returns (c: Crc)
      ensures c == CrcOfStr(step, s, crc)
    {
      c := crc;
      assert s[0..] == s;
      for i := 0 to |s|
        invariant CrcOfStr(step, s[i..], c) == CrcOfStr(step, s, crc)
      {
        assert s[i..][1..] == s[i + 1..];
        c := step(s[i], c);
      }
    }

    method Word(step: Step, s: Str, crc: Crc) returns (c: Crc)
      ensures c == CrcOfWords(step, [s], crc)
    {
      c := PartialCrc32(step, s, crc);
      c := step(SPACE, c);
      assert CrcOfWords(step, [s], crc) == step(SPACE, CrcOfStr(step, s, crc)) by { assert [s][1..] == []; }
    }

    method MentionCrc(step: Step, t: Token, crc: Crc) returns (c: Crc)
      ensures c == CrcOfWords(step, Mention(t), crc)
    {
      c := crc;
      if MapToNs(t.tag) {
        c := Word(step, TagName(t.tag), c);
        CrcOfJoined(step, [TagName(t.tag)], [t.text], crc);
      }
      c := Word(step, t.text, c);
    }

    /** The definition from the first word to the last. */
    method InOrder(defn: seq<Token>) returns (b: seq<Token>)
      ensures b == Reversed(defn)
    {
      b := [];
      assert defn[0..] == defn && Reversed(defn) + [] == Reversed(defn);
      for i := 0 to |defn|
        invariant Reversed(defn[i..]) + b == Reversed(defn)
      {
        assert defn[i..][1..] == defn[i + 1..];
        assert Reversed(defn[i + 1..]) + [defn[i]] + b == Reversed(defn[i + 1..]) + ([defn[i]] + b);
        b := [defn[i]] + b;
      }
      assert b == Reversed(defn);
    }

    /** Put a symbol on the trail. */
    method Push(k: Key)
      requires Valid() && k !in trail
      modifies `trail, `head, `order
      ensures Valid() && trail.Keys == old(trail.Keys) + {k}
    {
      Pushed(trail, head, order, k);
      trail, head := trail[k := head], At(k);
      order := [k] + order;
    }

    /** The symbol a word names; an undefined type is added as unknown. */
    method FindSymbol(t: Token)
      requires Valid() && !t.tag.Normal? && Within(symtab, universe, [t])
      modifies `symtab
      ensures Valid() && symtab == Entered(old(symtab), t)
    {
      EnteredClosed(symtab, universe, t);
      if KeyOf(t) !in symtab { symtab := symtab[KeyOf(t) := Unknown(t)]; }
    }

    /** What is still to come from the words ahead. */
    ghost function Ahead(toks: seq<Token>): Expansion
      requires Valid() && Within(symtab, universe, toks)
      reads this
    {
      Expand(symtab, universe, toks, trail.Keys)
    }

    /** What spelling out a symbol that is not on the trail comes to. */
    ghost function Spelled(k: Key): Expansion
      requires Valid() && k in symtab
      reads this
    {
      WithinReversed(symtab, universe, symtab[k].defn);
      Expand(symtab, universe, Reversed(symtab[k].defn), trail.Keys + {k})
    }

    method SpellOut(step: Step, k: Key, crc: Crc) returns (c: Crc)
      requires Valid() && k in symtab && k !in trail && k in universe
      modifies `symtab, `trail, `head, `order
      ensures Valid() && old(trail.Keys) <= trail.Keys && old(symtab.Keys) <= symtab.Keys
      ensures
        var e := old(Spelled(k));
        symtab == e.table && trail.Keys == e.seen && c == CrcOfWords(step, e.words, crc)
      decreases |universe - trail.Keys|, 0
    {
      Shrinks(universe, trail.Keys, k);
      Push(k);
      WithinReversed(symtab, universe, symtab[k].defn);
      c := ExpandAndCrcSym(step, k, crc);
    }

    /** One word of a definition, in front of more to come. */
    method ExpandWord(step: Step, t: Token, crc: Crc, ghost more: seq<Token>) returns (c: Crc)
      requires Valid() && Within(symtab, universe, [t] + more)
      modifies `symtab, `trail, `head, `order
      ensures Valid() && Within(symtab, universe, more) && old(trail.Keys) <= trail.Keys
      ensures Ahead(more).table == old(Ahead([t] + more).table) && Ahead(more).seen == old(Ahead([t] + more).seen)
      ensures CrcOfWords(step, Ahead(more).words, c) == CrcOfWords(step, old(Ahead([t] + more).words), crc)
      decreases |universe - trail.Keys|, 1
    {
      assert ([t] + more)[1..] == more;
      ghost var table := symtab;
      if t.tag.Normal? {
        CrcOfJoined(step, [t.text], Ahead(more).words, crc);
        c := Word(step, t.text, crc);
      } else {
        assert t in [t] + more;
        FindSymbol(t);
        WithinMore(table, symtab, universe, more);
        if KeyOf(t) in trail {
          CrcOfJoined(step, Mention(t), Ahead(more).words, crc);
          c := MentionCrc(step, t, crc);
        } else {
          ghost var inner := Spelled(KeyOf(t));
          table := symtab;
          c := SpellOut(step, KeyOf(t), crc);
          WithinMore(table, symtab, universe, more);
          CrcOfJoined(step, inner.words, Ahead(more).words, crc);
        }
      }
    }

    method ExpandAndCrcSym(step: Step, key: Key, crc: Crc) returns (c: Crc)
      requires Valid() && key in symtab
      requires Within(symtab, universe, Reversed(symtab[key].defn))
      modifies `symtab, `trail, `head, `order
      ensures Valid()
      ensures
        var e := old(Ahead(Reversed(symtab[key].defn)));
        symtab == e.table && trail.Keys == e.seen && c == CrcOfWords(step, e.words, crc)
      decreases |universe - trail.Keys|, 2
    {
      var b := InOrder(symtab[key].defn);
      ghost var want := Ahead(b);
      c := crc;
      var i := 0;
      assert b[0..] == b;
      while i < |b|
        invariant Valid() && i <= |b| && old(trail.Keys) <= trail.Keys && Within(symtab, universe, b[i..])
        invariant Ahead(b[i..]).table == want.table && Ahead(b[i..]).seen == want.seen
        invariant CrcOfWords(step, Ahead(b[i..]).words, c) == CrcOfWords(step, want.words, crc)
      {
        assert [b[i]] + b[i + 1..] == b[i..];
        SmallerOrEqual(universe - trail.Keys, universe - old(trail.Keys));
        c := ExpandWord(step, b[i], c, b[i + 1..]);
        i := i + 1;
      }
    }

    /** Take the trail apart. */
    method ClearTrail()
      requires Valid()
      modifies `trail, `head, `order
      ensures Valid() && trail == map[] && head == End
    {
      while head != End
        invariant Valid()
        decreases |order|
      {
        Popped(trail, head, order);
        var next := trail[head.key];
        trail := trail - {head.key};
        head := next;
        order := order[1..];
      }
    }

    /** The checksum of a symbol, or none if it is not defined.  Between exports no symbol is on
        the trail. */
    method ExportSymbol(step: Step, name: Str) returns (crc: Option<Crc>)
      requires Valid() && trail == map[]
      modifies `symtab, `trail, `head, `order
      ensures Valid() && trail == map[]
      ensures
        var e := Export(old(symtab), universe, name);
        if e.None? then crc == None && symtab == old(symtab)
        else symtab == e.value.table && crc == Some(CrcOfWords(step, e.value.words, START) ^ START)
    {
      var key := Key(false, name);
      if key !in symtab { return None; }
      head, order := End, [];
      WithinReversed(symtab, universe, symtab[key].defn);
      Push(key);
      assert trail.Keys == {key};
      var c := ExpandAndCrcSym(step, key, START);
      ClearTrail();
      crc := Some(c ^ START);
    }
  }
}
