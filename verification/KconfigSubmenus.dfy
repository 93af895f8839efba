/** The automatic submenus, with the dependencies that decide them. */
module KconfigSubmenus {
  import opened Wrappers
  import opened KconfigExpr
  import opened KconfigTransform
  import opened KconfigMenu

  /** Of each node the symbol, the dependency by which it is judged, and the condition of its
      prompt, by which its followers are. */
  datatype Entries = Entries(sym: Menu -> Symbol, dep: Menu -> Option<Expr>, base: Menu -> Option<Expr>)

  function TestOf(es: Entries): Test {
    (p: Menu, m: Menu) => GoesInSubmenu(es.dep(m), es.sym(p), es.base(p))
  }

  /** What menu_finalize nests automatically, each node with its new parent. */
  function Nested(c: Chain, t: Test): seq<(Menu, Menu)>
    requires c.Node?
    decreases KconfigMenu.Size(c), 0
  {
    if c.list.Node? then AllNested(c.list, t) else if c.id.hasSym then TakenNested(c.id, c.next, t) else []
  }

  function AllNested(c: Chain, t: Test): seq<(Menu, Menu)>
    decreases KconfigMenu.Size(c), 1
  {
    if c.Nil? then [] else Nested(c, t) + AllNested(Finalized(c, t).next, t)
  }

  function TakenNested(p: Menu, c: Chain, t: Test): seq<(Menu, Menu)>
    decreases KconfigMenu.Size(c), 1
  {
    if c.Nil? || !t(p, c.id) then [] else Nested(c, t) + [(p, c.id)] + TakenNested(p, Finalized(c, t).next, t)
  }

  /** The nodes of the chain itself. */
  function Tops(c: Chain): seq<Menu> {
    if c.Nil? then [] else [c.id] + Tops(c.next)
  }

  ghost predicate AllPass(pairs: seq<(Menu, Menu)>, t: Test) {
    forall x :: x in pairs ==> t(x.0, x.1)
  }

  /** Everything nested in a run has passed the test with its new parent. */
  lemma {:induction false} NestedPass(c: Chain, t: Test)
    requires c.Node?
    ensures AllPass(Nested(c, t), t)
    decreases KconfigMenu.Size(c), 0
  {
    if c.list.Node? { AllNestedPass(c.list, t); } else if c.id.hasSym { TakenNestedPass(c.id, c.next, t); }
  }

  lemma {:induction false} AllNestedPass(c: Chain, t: Test)
    ensures AllPass(AllNested(c, t), t)
    decreases KconfigMenu.Size(c), 1
  {
    if c.Node? {
      NestedPass(c, t);
      AllNestedPass(Finalized(c, t).next, t);
    }
  }

  lemma {:induction false} TakenNestedPass(p: Menu, c: Chain, t: Test)
    ensures AllPass(TakenNested(p, c, t), t)
    decreases KconfigMenu.Size(c), 1
  {
    if c.Node? && t(p, c.id) {
      NestedPass(c, t);
      TakenNestedPass(p, Finalized(c, t).next, t);
    }
  }

  /** The chain taken below p holds nodes nested under p, and what follows it fails the test. */
  lemma {:induction false} TakenIsNested(p: Menu, c: Chain, t: Test)
    ensures forall m :: m in Tops(Taken(p, c, t).0) ==> (p, m) in TakenNested(p, c, t)
    ensures Taken(p, c, t).1.Node? ==> !t(p, Taken(p, c, t).1.id)
    decreases KconfigMenu.Size(c), 1
  {
    if c.Node? && t(p, c.id) {
      var f := Finalized(c, t);
      TakenIsNested(p, f.next, t);
      var rest := TakenNested(p, f.next, t);
      assert TakenNested(p, c, t) == Nested(c, t) + [(p, c.id)] + rest;
    }
  }

  /** What the conditions of a pair have to meet for comparison with n to read them rightly. */
  predicate Readable(es: Entries, p: Menu, m: Menu, v: Valuation) {
    TriTyped(es.sym(p)) && PlainOpt(v, es.dep(m)) && PlainOpt(v, es.base(p)) &&
    (es.dep(m).Some? ==> TwoValued(es.dep(m).value, v)) && (es.base(p).Some? ==> TwoValued(es.base(p).value, v))
  }

  /** In every run, a node nested automatically is n whenever both the symbol of its new parent
      and the condition that symbol's prompt stands under are n. */
  lemma NestedIsSubject(es: Entries, c: Chain, v: Valuation, p: Menu, m: Menu)
    requires c.Node? && (p, m) in Nested(c, TestOf(es)) && Readable(es, p, m, v)
    requires TriValue(v, es.sym(p)) == 0 && CalcOpt(es.base(p), v) == 0
    ensures CalcOpt(es.dep(m), v) == 0
  {
    NestedPass(c, TestOf(es));
    assert TestOf(es)(p, m);
    GoesInSubmenuSound(es.dep(m), es.sym(p), es.base(p), v);
  }
}
