/** Rendering a grammar as a decoder program: in-line elements on the spot, the others later from a
    work list, with jumps to where they will be. */
module Asn1Render {
  import opened Wrappers

  datatype Kind = NotCompound | Any | TypeRef | TagOverride | Sequence | SequenceOf | Set | SetOf | Choice

  /** A grammar element: multi when its type is used more than once, bare for a reference without
      a tag of its own; refers names the element of a referenced type. */
  datatype Element = Element(
    kind: Kind, skippable: bool, conditional: bool, tagSpecified: bool, action: bool, multi: bool, bare: bool,
    children: seq<nat>, refers: nat)

  type Grammar = seq<Element>

  /** One entry of the program.  A jump carries the element it leads to beside the number put out. */
  datatype Op =
    | Match(cond: bool, jump: bool, act: bool, skip: bool)
    | MatchAny(cond: bool, act: bool, skip: bool)
    | Tag(of: nat, method_: nat)
    | JumpTo(element: nat, target: nat)
    | JumpBack(target: nat)
    | EndSeq(act: bool) | EndSeqOf(act: bool) | EndSet(act: bool) | EndSetOf(act: bool)
    | CondFail
    | Act(maybe: bool)
    | Action(of: nat)
    | Complete
    | Return

  // ----- What rendering one element amounts to -----

  /** Put out an entry, render another element on the spot, jump to an element that is rendered
      later, render one in a loop, or give up. */
  datatype Item = Emit(op: Op) | Sub(element: nat, tag: Option<nat>) | Jump(element: nat) | Loop(element: nat, end: Op) | Fail

  datatype Plan = Done | Do(item: Item, rest: Plan)

  predicate Skippable(g: Grammar, e: nat, tag: Option<nat>)
    requires e < |g| && (tag.Some? ==> tag.value < |g|)
  {
    g[e].skippable || (tag.Some? && g[tag.value].skippable)
  }

  predicate OutOfLine(g: Grammar, e: nat, tag: Option<nat>)
    requires e < |g| && (tag.Some? ==> tag.value < |g|)
  {
    g[e].multi || Skippable(g, e, tag)
  }

  predicate Conditional(g: Grammar, e: nat, tag: Option<nat>)
    requires e < |g| && (tag.Some? ==> tag.value < |g|)
  {
    g[e].conditional || (tag.Some? && g[tag.value].conditional)
  }

  /** The tag put out is the overriding one if it was specified. */
  function TagOp(g: Grammar, e: nat, tag: Option<nat>): Op
    requires e < |g| && (tag.Some? ==> tag.value < |g|)
  {
    Tag(if tag.Some? && g[tag.value].tagSpecified then tag.value else e, e)
  }

  function Subs(cs: seq<nat>, tagged: bool, then_: Plan): Plan {
    if cs == [] then then_ else Do(Sub(cs[0], if tagged then Some(cs[0]) else None), Subs(cs[1..], tagged, then_))
  }

  function When(b: bool, op: Op, then_: Plan): Plan {
    if b then Do(Emit(op), then_) else then_
  }

  function EndOf(kind: Kind, act: bool): Op {
    match kind
    case SequenceOf => EndSeqOf(act)
    case SetOf => EndSetOf(act)
    case Set => EndSet(act)
    case _ => EndSeq(act)
  }

  predicate WellFormed(g: Grammar) {
    forall e :: 0 <= e < |g| ==> GoodElement(g, e)
  }

  predicate GoodElement(g: Grammar, e: nat)
    requires e < |g|
  {
    g[e].refers < |g| && (forall c :: c in g[e].children ==> c < |g|) &&
    (g[e].kind.TagOverride? || g[e].kind.SequenceOf? || g[e].kind.SetOf? ==> g[e].children != [])
  }

  predicate InGrammar(g: Grammar, e: nat, tag: Option<nat>) {
    WellFormed(g) && e < |g| && (tag.Some? ==> tag.value < |g|)
  }

  /** Whatever was rendered, the action comes last. */
  function LastPlan(g: Grammar, e: nat): Plan
    requires e < |g|
  {
    When(g[e].action, Action(e), Done)
  }

  /** The operation and the tag. */
  function HeadPlan(g: Grammar, e: nat, tag: Option<nat>, jump: bool, act: bool, then_: Plan): Plan
    requires InGrammar(g, e, tag)
  {
    Do(Emit(Match(Conditional(g, e, tag), jump, act, Skippable(g, e, tag))), Do(Emit(TagOp(g, e, tag)), then_))
  }

  function RefPlan(g: Grammar, e: nat, tag: Option<nat>): Plan
    requires InGrammar(g, e, tag)
  {
    var x := g[e];
    var after := When(x.action, Act(Skippable(g, e, tag)), LastPlan(g, e));
    if x.bare then Do(Sub(x.refers, tag), after)
    else HeadPlan(g, e, tag, false, x.action, Do(Sub(x.refers, None), after))
  }

  function ChoicePlan(g: Grammar, e: nat, tag: Option<nat>): Plan
    requires InGrammar(g, e, tag)
  {
    Subs(g[e].children, true, When(!Skippable(g, e, tag), CondFail, When(g[e].action, Act(false), LastPlan(g, e))))
  }

  function SequencePlan(g: Grammar, e: nat, tag: Option<nat>): Plan
    requires InGrammar(g, e, tag)
  {
    var late := OutOfLine(g, e, tag);
    HeadPlan(g, e, tag, late, false,
      if late then Do(Jump(e), Done) else Subs(g[e].children, false, Do(Emit(EndSeq(g[e].action)), LastPlan(g, e))))
  }

  function RepeatPlan(g: Grammar, e: nat, tag: Option<nat>): Plan
    requires InGrammar(g, e, tag) && g[e].children != []
  {
    var late := OutOfLine(g, e, tag);
    HeadPlan(g, e, tag, late, false,
      if late then Do(Jump(e), Done) else Do(Loop(g[e].children[0], EndOf(g[e].kind, g[e].action)), LastPlan(g, e)))
  }

  /** The SET type is not supported. */
  function SetPlan(g: Grammar, e: nat, tag: Option<nat>): Plan
    requires InGrammar(g, e, tag)
  {
    HeadPlan(g, e, tag, OutOfLine(g, e, tag), false, Do(Fail, Done))
  }

  function PlanOf(g: Grammar, e: nat, tag: Option<nat>): Plan
    requires InGrammar(g, e, tag)
  {
    var x := g[e];
    assert GoodElement(g, e);
    match x.kind
    case Any => Do(Emit(MatchAny(Conditional(g, e, tag), x.action, Skippable(g, e, tag))), LastPlan(g, e))
    case TagOverride => Do(Sub(x.children[0], Some(e)), Done)
    case NotCompound => HeadPlan(g, e, tag, false, x.action, LastPlan(g, e))
    case TypeRef => RefPlan(g, e, tag)
    case Choice => ChoicePlan(g, e, tag)
    case Sequence => SequencePlan(g, e, tag)
    case Set => SetPlan(g, e, tag)
    case SequenceOf => RepeatPlan(g, e, tag)
    case SetOf => RepeatPlan(g, e, tag)
  }

  // ----- Which grammars can be rendered -----

  /** An element with the element whose tag overrides its own. */
  datatype Place = Place(element: nat, tag: Option<nat>)

  const ROOT := Place(0, None)

  type Ranks = map<Place, nat>

  /** What is rendered on the spot has a smaller rank; what is jumped to can be rendered later. */
  predicate Below(p: Plan, bodies: set<nat>, rank: Ranks, bound: nat) {
    match p
    case Done => true
    case Do(item, rest) => ItemBelow(item, bodies, rank, bound) && Below(rest, bodies, rank, bound)
  }

  predicate ItemBelow(item: Item, bodies: set<nat>, rank: Ranks, bound: nat) {
    match item
    case Emit(_) => true
    case Sub(e, tag) => Place(e, tag) in rank && rank[Place(e, tag)] < bound
    case Jump(e) => e in bodies
    case Loop(e, _) => Place(e, None) in rank && rank[Place(e, None)] < bound
    case Fail => true
  }

  /** The elements whose body can be rendered: the children have ranks. */
  ghost function Bodies(g: Grammar, rank: Ranks): (r: set<nat>)
    ensures forall e: nat :: e in r <==> e < |g| && forall c :: c in g[e].children ==> Place(c, None) in rank
  {
    set e: nat | e < |g| && forall c :: c in g[e].children ==> Place(c, None) in rank
  }

  /** From the root and from the bodies on the work list no cycle of places that are all rendered
      on the spot can be reached: there are ranks that fall. */
  ghost predicate Ranked(g: Grammar, rank: Ranks) {
    WellFormed(g) && ROOT in rank && forall p :: p in rank ==> RankFalls(g, rank, p)
  }

  ghost predicate RankFalls(g: Grammar, rank: Ranks, p: Place)
    requires WellFormed(g) && p in rank
  {
    InGrammar(g, p.element, p.tag) && Below(PlanOf(g, p.element, p.tag), Bodies(g, rank), rank, rank[p])
  }

  // ----- Running the plans -----

  /** The program so far, the work list, the elements ever put on it, the links between them, the
      order in which they were taken off, and where the body of each began; dead after a failure. */
  datatype State = State(out: seq<Op>, queue: seq<nat>, rendered: set<nat>, links: map<nat, nat>,
                         visited: seq<nat>, entry: map<nat, nat>, dead: bool)

  function EntryOf(entry: map<nat, nat>, e: nat): nat {
    if e in entry then entry[e] else 0
  }

  function Emitted(st: State, op: Op): State {
    st.(out := st.out + [op])
  }

  function Last(q: seq<nat>): nat
    requires q != []
  {
    q[|q| - 1]
  }

  /** An element goes on the list once. */
  function Queued(st: State, e: nat): State {
    if e in st.rendered then st
    else st.(rendered := st.rendered + {e}, queue := st.queue + [e],
             links := if st.queue == [] then st.links else st.links[Last(st.queue) := e])
  }

  /** What is still to come from the work list. */
  ghost function Pending(st: State, bodies: set<nat>): nat {
    |bodies - st.rendered| + |st.queue|
  }

  lemma QueuedPending(st: State, e: nat, bodies: set<nat>)
    requires e in bodies
    ensures Pending(Queued(st, e), bodies) == Pending(st, bodies)
  {
    if e !in st.rendered {
      var a, b := bodies - st.rendered, bodies - (st.rendered + {e});
      assert a == b + {e} && e !in b;
    }
  }

  ghost function Run(g: Grammar, rank: Ranks, st: State, p: Plan, bound: nat): (r: State)
    requires Ranked(g, rank) && Below(p, Bodies(g, rank), rank, bound)
    ensures Pending(r, Bodies(g, rank)) == Pending(st, Bodies(g, rank))
    decreases bound, p, 0
  {
    match p
    case Done => st
    case Do(item, rest) => Run(g, rank, RunItem(g, rank, st, item, bound), rest, bound)
  }

  /** The end of a loop that began at st. */
  function Looped(st: State, r: State, end: Op): State {
    if r.dead then r else Emitted(Emitted(r, end), JumpBack(|st.out|))
  }

  ghost function RunItem(g: Grammar, rank: Ranks, st: State, item: Item, bound: nat): (r: State)
    requires Ranked(g, rank) && ItemBelow(item, Bodies(g, rank), rank, bound)
    ensures Pending(r, Bodies(g, rank)) == Pending(st, Bodies(g, rank))
    decreases bound, item, 0
  {
    if st.dead then st
    else
      match item
      case Emit(op) => Emitted(st, op)
      case Sub(e, tag) => Run(g, rank, st, PlanOf(g, e, tag), rank[Place(e, tag)])
      case Jump(e) => QueuedPending(Emitted(st, JumpTo(e, EntryOf(st.entry, e))), e, Bodies(g, rank));
                      Queued(Emitted(st, JumpTo(e, EntryOf(st.entry, e))), e)
      case Loop(e, end) =>
        var r := Run(g, rank, st, PlanOf(g, e, None), rank[Place(e, None)]);
        Looped(st, r, end)
      case Fail => st.(dead := true)
  }

  // ----- The work list -----

  function ClosePlan(g: Grammar, e: nat): Plan
    requires e < |g|
  {
    When(g[e].action, Action(e), Do(Emit(Return), Done))
  }

  /** The end of an element's body: of its kind, with a jump back for a repetition that starts at
      entry, its action and the return. */
  function EndPlan(g: Grammar, e: nat, entry: nat): Plan
    requires e < |g|
  {
    var x := g[e];
    match x.kind
    case Sequence => Do(Emit(EndSeq(x.action)), ClosePlan(g, e))
    case SequenceOf => Do(Emit(EndSeqOf(x.action)), Do(Emit(JumpBack(entry)), ClosePlan(g, e)))
    case Set => Do(Emit(EndSet(x.action)), ClosePlan(g, e))
    case SetOf => Do(Emit(EndSetOf(x.action)), Do(Emit(JumpBack(entry)), ClosePlan(g, e)))
    case _ => ClosePlan(g, e)
  }

  /** An element's children, then the end. */
  function BodyPlan(g: Grammar, e: nat, entry: nat): Plan
    requires e < |g|
  {
    Subs(g[e].children, false, EndPlan(g, e, entry))
  }

  /** Above every rank. */
  ghost function Top(rank: Ranks): (t: nat)
    ensures forall p :: p in rank ==> rank[p] < t
    decreases |rank|
  {
    if rank == map[] then 0
    else
      var p :| p in rank;
      var rest := rank - {p};
      assert rest.Keys == rank.Keys - {p};
      var t := Top(rest);
      assert forall q :: q in rank && q != p ==> q in rest;
      if t > rank[p] then t else rank[p] + 1
  }

  lemma {:induction false} SubsBelow(cs: seq<nat>, then_: Plan, bodies: set<nat>, rank: Ranks, bound: nat)
    requires Below(then_, bodies, rank, bound)
    requires forall c :: c in cs ==> Place(c, None) in rank && rank[Place(c, None)] < bound
    ensures Below(Subs(cs, false, then_), bodies, rank, bound)
  {
    if cs != [] {
      assert cs[0] in cs;
      assert forall c :: c in cs[1..] ==> c in cs;
      SubsBelow(cs[1..], then_, bodies, rank, bound);
    }
  }

  lemma EndBelow(g: Grammar, rank: Ranks, e: nat, entry: nat)
    requires e < |g|
    ensures Below(ClosePlan(g, e), Bodies(g, rank), rank, Top(rank)) && Below(EndPlan(g, e, entry), Bodies(g, rank), rank, Top(rank))
  {
    assert Below(Do(Emit(Return), Done), Bodies(g, rank), rank, Top(rank));
    assert Below(Do(Emit(JumpBack(entry)), ClosePlan(g, e)), Bodies(g, rank), rank, Top(rank));
  }

  lemma BodyBelow(g: Grammar, rank: Ranks, e: nat, entry: nat)
    requires e in Bodies(g, rank)
    ensures Below(BodyPlan(g, e, entry), Bodies(g, rank), rank, Top(rank))
  {
    EndBelow(g, rank, e, entry);
    SubsBelow(g[e].children, EndPlan(g, e, entry), Bodies(g, rank), rank, Top(rank));
  }

  predicate Distinct(q: seq<nat>) {
    forall i, j :: 0 <= i < j < |q| ==> q[i] != q[j]
  }

  /** Everything ever queued is on the list or was taken off it, once. */
  ghost predicate Accounted(st: State, bodies: set<nat>) {
    (forall e :: e in st.rendered ==> e in bodies) &&
    (forall e :: e in st.rendered <==> e in st.queue || e in st.visited) &&
    (forall e :: e in st.queue ==> e !in st.visited) &&
    Distinct(st.queue) && Distinct(st.visited) && (forall e :: e in st.visited ==> e in st.entry)
  }

  /** The links lead along the list, and its last element has none yet. */
  ghost predicate Chained(queue: seq<nat>, links: map<nat, nat>, rendered: set<nat>) {
    (forall i :: 0 <= i < |queue| - 1 ==> queue[i] in links && links[queue[i]] == queue[i + 1]) &&
    (queue != [] ==> Last(queue) !in links) &&
    (forall k :: k in links ==> k in rendered)
  }

  ghost predicate Valid(st: State, bodies: set<nat>) {
    Accounted(st, bodies) && Chained(st.queue, st.links, st.rendered)
  }

  lemma ChainedMore(queue: seq<nat>, links: map<nat, nat>, rendered: set<nat>, e: nat)
    requires Chained(queue, links, rendered) && Distinct(queue) && e !in rendered && forall x :: x in queue ==> x in rendered
    ensures Chained(queue + [e], if queue == [] then links else links[Last(queue) := e], rendered + {e})
  {
    var q, l := queue + [e], if queue == [] then links else links[Last(queue) := e];
    forall i | 0 <= i < |q| - 1 ensures q[i] in l && l[q[i]] == q[i + 1] {
      if i < |queue| - 1 { assert queue[i] in links && queue[i] != Last(queue); }
    }
  }

  lemma AccountedMore(st: State, e: nat, bodies: set<nat>)
    requires Accounted(st, bodies) && e in bodies
    ensures Accounted(Queued(st, e), bodies)
  {
  }

  lemma QueuedValid(st: State, e: nat, bodies: set<nat>)
    requires Valid(st, bodies) && e in bodies
    ensures Valid(Queued(st, e), bodies)
  {
    AccountedMore(st, e, bodies);
    if e !in st.rendered { ChainedMore(st.queue, st.links, st.rendered, e); }
  }

  lemma EmittedValid(st: State, op: Op, bodies: set<nat>)
    requires Valid(st, bodies)
    ensures Valid(Emitted(st, op), bodies)
  {
  }

  lemma {:induction false} RunValid(g: Grammar, rank: Ranks, st: State, p: Plan, bound: nat)
    requires Ranked(g, rank) && Below(p, Bodies(g, rank), rank, bound) && Valid(st, Bodies(g, rank))
    ensures Valid(Run(g, rank, st, p, bound), Bodies(g, rank))
    decreases bound, p, 0
  {
    if p.Do? {
      ItemValid(g, rank, st, p.item, bound);
      RunValid(g, rank, RunItem(g, rank, st, p.item, bound), p.rest, bound);
    }
  }

  lemma {:induction false} ItemValid(g: Grammar, rank: Ranks, st: State, item: Item, bound: nat)
    requires Ranked(g, rank) && ItemBelow(item, Bodies(g, rank), rank, bound) && Valid(st, Bodies(g, rank))
    ensures Valid(RunItem(g, rank, st, item, bound), Bodies(g, rank))
    decreases bound, item, 0
  {
    if !st.dead {
      match item
      case Emit(op) => EmittedValid(st, op, Bodies(g, rank));
      case Sub(e, tag) => RunValid(g, rank, st, PlanOf(g, e, tag), rank[Place(e, tag)]);
      case Jump(e) =>
        var op := JumpTo(e, EntryOf(st.entry, e));
        EmittedValid(st, op, Bodies(g, rank));
        QueuedValid(Emitted(st, op), e, Bodies(g, rank));
      case Loop(e, end) =>
        var r := Run(g, rank, st, PlanOf(g, e, None), rank[Place(e, None)]);
        RunValid(g, rank, st, PlanOf(g, e, None), rank[Place(e, None)]);
        EmittedValid(r, end, Bodies(g, rank));
        EmittedValid(Emitted(r, end), JumpBack(|st.out|), Bodies(g, rank));
      case Fail =>
    }
  }

  /** Taking the first element off: its body starts here. */
  function Popped(st: State): State
    requires st.queue != []
  {
    var e := st.queue[0];
    st.(queue := st.queue[1..], visited := st.visited + [e], entry := st.entry[e := |st.out|])
  }

  lemma ChainedLess(queue: seq<nat>, links: map<nat, nat>, rendered: set<nat>)
    requires Chained(queue, links, rendered) && queue != []
    ensures Chained(queue[1..], links, rendered)
  {
    if queue[1..] != [] { assert Last(queue[1..]) == Last(queue); }
  }

  lemma DistinctMore(q: seq<nat>, e: nat)
    requires Distinct(q) && e !in q
    ensures Distinct(q + [e])
  {
  }

  lemma AccountedLess(st: State, bodies: set<nat>)
    requires Accounted(st, bodies) && st.queue != []
    ensures Accounted(Popped(st), bodies)
  {
    var e, r := st.queue[0], Popped(st);
    assert e in st.queue;
    DistinctMore(st.visited, e);
    assert forall x :: x in st.queue <==> x == e || x in r.queue;
    assert forall x :: x in r.visited <==> x == e || x in st.visited;
  }

  lemma PoppedValid(st: State, bodies: set<nat>)
    requires Valid(st, bodies) && st.queue != []
    ensures Valid(Popped(st), bodies) && Pending(Popped(st), bodies) == Pending(st, bodies) - 1
  {
    AccountedLess(st, bodies);
    ChainedLess(st.queue, st.links, st.rendered);
  }

  ghost function Next(g: Grammar, rank: Ranks, st: State): (r: State)
    requires Ranked(g, rank) && Valid(st, Bodies(g, rank)) && st.queue != []
    ensures Valid(r, Bodies(g, rank)) && Pending(r, Bodies(g, rank)) < Pending(st, Bodies(g, rank))
  {
    var e := st.queue[0];
    PoppedValid(st, Bodies(g, rank));
    BodyBelow(g, rank, e, |st.out|);
    RunValid(g, rank, Popped(st), BodyPlan(g, e, |st.out|), Top(rank));
    Run(g, rank, Popped(st), BodyPlan(g, e, |st.out|), Top(rank))
  }

  /** render_out_of_line_list: until the list is empty. */
  ghost function RunList(g: Grammar, rank: Ranks, st: State): (r: State)
    requires Ranked(g, rank) && Valid(st, Bodies(g, rank))
    ensures Valid(r, Bodies(g, rank)) && (r.dead || r.queue == [])
    decreases Pending(st, Bodies(g, rank))
  {
    if st.dead || st.queue == [] then st else RunList(g, rank, Next(g, rank, st))
  }

  /** The state before a pass; entry holds what an earlier pass found. */
  function Start(entry: map<nat, nat>): State {
    State([], [], {}, map[], [], entry, false)
  }

  /** The in-line part of a pass: the root and the entry that completes it. */
  ghost function Inline(g: Grammar, rank: Ranks, entry: map<nat, nat>): (r: State)
    requires Ranked(g, rank)
    ensures Valid(r, Bodies(g, rank))
  {
    RunValid(g, rank, Start(entry), PlanOf(g, 0, None), rank[ROOT]);
    var st := Run(g, rank, Start(entry), PlanOf(g, 0, None), rank[ROOT]);
    EmittedValid(st, Complete, Bodies(g, rank));
    if st.dead then st else Emitted(st, Complete)
  }

  /** One pass over the grammar. */
  ghost function Pass(g: Grammar, rank: Ranks, entry: map<nat, nat>): (r: State)
    requires Ranked(g, rank)
    ensures Valid(r, Bodies(g, rank)) && (r.dead || r.queue == [])
  {
    RunList(g, rank, Inline(g, rank, entry))
  }

  // ----- What the rest of a pass leaves alone -----

  /** Later states: links once made stay, elements taken off get no link and no new entry, and
      what has been put out stays in front. */
  ghost predicate Later(a: State, b: State) {
    (forall k :: k in a.links ==> k in b.links && b.links[k] == a.links[k]) &&
    (forall k :: k in a.visited && k !in a.links ==> k !in b.links) &&
    a.visited <= b.visited && (forall k :: k in a.visited && k in a.entry ==> k in b.entry && b.entry[k] == a.entry[k]) &&
    a.out <= b.out && (a.dead ==> b == a)
  }

  lemma LaterTransitive(a: State, b: State, c: State)
    requires Later(a, b) && Later(b, c)
    ensures Later(a, c)
  {
    assert forall k :: k in a.visited ==> k in b.visited;
  }

  lemma QueuedLater(st: State, e: nat, bodies: set<nat>)
    requires Valid(st, bodies) && !st.dead
    ensures Later(st, Queued(st, e))
  {
  }

  lemma {:induction false} RunLater(g: Grammar, rank: Ranks, st: State, p: Plan, bound: nat)
    requires Ranked(g, rank) && Below(p, Bodies(g, rank), rank, bound) && Valid(st, Bodies(g, rank))
    ensures Later(st, Run(g, rank, st, p, bound))
    ensures Run(g, rank, st, p, bound).visited == st.visited && Run(g, rank, st, p, bound).entry == st.entry
    decreases bound, p, 0
  {
    if p.Do? {
      var r := RunItem(g, rank, st, p.item, bound);
      ItemLater(g, rank, st, p.item, bound);
      ItemValid(g, rank, st, p.item, bound);
      RunLater(g, rank, r, p.rest, bound);
      LaterTransitive(st, r, Run(g, rank, st, p, bound));
    }
  }

  lemma {:induction false} ItemLater(g: Grammar, rank: Ranks, st: State, item: Item, bound: nat)
    requires Ranked(g, rank) && ItemBelow(item, Bodies(g, rank), rank, bound) && Valid(st, Bodies(g, rank))
    ensures Later(st, RunItem(g, rank, st, item, bound))
    ensures RunItem(g, rank, st, item, bound).visited == st.visited && RunItem(g, rank, st, item, bound).entry == st.entry
    decreases bound, item, 0
  {
    if !st.dead {
      match item
      case Emit(op) => EmittedLater(st, op);
      case Sub(e, tag) => RunLater(g, rank, st, PlanOf(g, e, tag), rank[Place(e, tag)]);
      case Jump(e) => JumpLater(st, e, Bodies(g, rank));
      case Loop(e, end) =>
        var r := Run(g, rank, st, PlanOf(g, e, None), rank[Place(e, None)]);
        RunLater(g, rank, st, PlanOf(g, e, None), rank[Place(e, None)]);
        LoopLater(st, r, end);
      case Fail => DeadLater(st);
    }
  }

  lemma EmittedLater(st: State, op: Op)
    requires !st.dead
    ensures Later(st, Emitted(st, op))
  {
  }

  lemma DeadLater(st: State)
    requires !st.dead
    ensures Later(st, st.(dead := true))
  {
  }

  lemma JumpLater(st: State, e: nat, bodies: set<nat>)
    requires Valid(st, bodies) && !st.dead
    ensures
      var r := Queued(Emitted(st, JumpTo(e, EntryOf(st.entry, e))), e);
      Later(st, r) && r.visited == st.visited && r.entry == st.entry
  {
    var s1 := Emitted(st, JumpTo(e, EntryOf(st.entry, e)));
    EmittedValid(st, JumpTo(e, EntryOf(st.entry, e)), bodies);
    QueuedLater(s1, e, bodies);
    LaterTransitive(st, s1, Queued(s1, e));
  }

  lemma LoopLater(st: State, r: State, end: Op)
    requires Later(st, r) && !st.dead
    ensures Later(st, Looped(st, r, end)) && Looped(st, r, end).visited == r.visited && Looped(st, r, end).entry == r.entry
  {
    if !r.dead {
      EmittedLater(r, end);
      EmittedLater(Emitted(r, end), JumpBack(|st.out|));
      LaterTransitive(r, Emitted(r, end), Looped(st, r, end));
      LaterTransitive(st, r, Looped(st, r, end));
    }
  }

  lemma PoppedLater(st: State, bodies: set<nat>)
    requires Valid(st, bodies) && st.queue != [] && !st.dead
    ensures Later(st, Popped(st))
  {
    assert st.queue[0] in st.queue;
  }

  lemma NextLater(g: Grammar, rank: Ranks, st: State)
    requires Ranked(g, rank) && Valid(st, Bodies(g, rank)) && st.queue != [] && !st.dead
    ensures Later(Popped(st), Next(g, rank, st)) && Later(st, Next(g, rank, st))
    ensures Next(g, rank, st).entry == Popped(st).entry && Next(g, rank, st).visited == Popped(st).visited
  {
    var e := st.queue[0];
    PoppedValid(st, Bodies(g, rank));
    PoppedLater(st, Bodies(g, rank));
    BodyBelow(g, rank, e, |st.out|);
    RunLater(g, rank, Popped(st), BodyPlan(g, e, |st.out|), Top(rank));
    LaterTransitive(st, Popped(st), Next(g, rank, st));
  }

  lemma {:induction false} ListLater(g: Grammar, rank: Ranks, st: State)
    requires Ranked(g, rank) && Valid(st, Bodies(g, rank))
    ensures Later(st, RunList(g, rank, st))
    decreases Pending(st, Bodies(g, rank))
  {
    if !st.dead && st.queue != [] {
      NextLater(g, rank, st);
      ListLater(g, rank, Next(g, rank, st));
      LaterTransitive(st, Next(g, rank, st), RunList(g, rank, st));
    }
  }

  // ----- The two passes agree -----

  /** Entries that differ at most in the number of a jump to the same element. */
  predicate SameOp(a: Op, b: Op) {
    a == b || (a.JumpTo? && b.JumpTo? && a.element == b.element)
  }

  ghost predicate SameOut(a: seq<Op>, b: seq<Op>) {
    |a| == |b| && forall i :: 0 <= i < |a| ==> SameOp(a[i], b[i])
  }

  /** States that differ only in entries and jump numbers. */
  ghost predicate Same(a: State, b: State) {
    a.queue == b.queue && a.rendered == b.rendered && a.links == b.links && a.visited == b.visited && a.dead == b.dead &&
    SameOut(a.out, b.out)
  }

  lemma EmittedSame(a: State, b: State, x: Op, y: Op)
    requires Same(a, b) && SameOp(x, y)
    ensures Same(Emitted(a, x), Emitted(b, y))
  {
  }

  lemma QueuedSame(a: State, b: State, e: nat)
    requires Same(a, b)
    ensures Same(Queued(a, e), Queued(b, e))
  {
  }

  lemma {:induction false} RunSame(g: Grammar, rank: Ranks, a: State, b: State, p: Plan, bound: nat)
    requires Ranked(g, rank) && Below(p, Bodies(g, rank), rank, bound) && Same(a, b)
    ensures Same(Run(g, rank, a, p, bound), Run(g, rank, b, p, bound))
    decreases bound, p, 0
  {
    if p.Do? {
      ItemSame(g, rank, a, b, p.item, bound);
      RunSame(g, rank, RunItem(g, rank, a, p.item, bound), RunItem(g, rank, b, p.item, bound), p.rest, bound);
    }
  }

  lemma {:induction false} ItemSame(g: Grammar, rank: Ranks, a: State, b: State, item: Item, bound: nat)
    requires Ranked(g, rank) && ItemBelow(item, Bodies(g, rank), rank, bound) && Same(a, b)
    ensures Same(RunItem(g, rank, a, item, bound), RunItem(g, rank, b, item, bound))
    decreases bound, item, 0
  {
    if !a.dead {
      match item
      case Emit(op) => EmittedSame(a, b, op, op);
      case Sub(e, tag) => RunSame(g, rank, a, b, PlanOf(g, e, tag), rank[Place(e, tag)]);
      case Jump(e) =>
        var x, y := JumpTo(e, EntryOf(a.entry, e)), JumpTo(e, EntryOf(b.entry, e));
        EmittedSame(a, b, x, y);
        QueuedSame(Emitted(a, x), Emitted(b, y), e);
      case Loop(e, end) =>
        var p := PlanOf(g, e, None);
        var r, s := Run(g, rank, a, p, rank[Place(e, None)]), Run(g, rank, b, p, rank[Place(e, None)]);
        RunSame(g, rank, a, b, p, rank[Place(e, None)]);
        EmittedSame(r, s, end, end);
        EmittedSame(Emitted(r, end), Emitted(s, end), JumpBack(|a.out|), JumpBack(|b.out|));
      case Fail =>
    }
  }

  lemma NextSame(g: Grammar, rank: Ranks, a: State, b: State)
    requires Ranked(g, rank) && Valid(a, Bodies(g, rank)) && Valid(b, Bodies(g, rank)) && Same(a, b) && a.queue != []
    ensures Same(Next(g, rank, a), Next(g, rank, b))
  {
    var e := a.queue[0];
    PoppedValid(a, Bodies(g, rank));
    PoppedValid(b, Bodies(g, rank));
    BodyBelow(g, rank, e, |a.out|);
    RunSame(g, rank, Popped(a), Popped(b), BodyPlan(g, e, |a.out|), Top(rank));
  }

  /** The rest of two passes in step; what the first found is what the second finds. */
  lemma {:induction false} ListSame(g: Grammar, rank: Ranks, a: State, b: State)
    requires Ranked(g, rank) && Valid(a, Bodies(g, rank)) && Valid(b, Bodies(g, rank)) && Same(a, b)
    ensures Same(RunList(g, rank, a), RunList(g, rank, b))
    ensures b.entry == RunList(g, rank, a).entry && !a.dead ==> RunList(g, rank, b).entry == b.entry
    decreases Pending(a, Bodies(g, rank))
  {
    if !a.dead && a.queue != [] {
      var e, a', b' := a.queue[0], Next(g, rank, a), Next(g, rank, b);
      NextSame(g, rank, a, b);
      NextLater(g, rank, a);
      NextLater(g, rank, b);
      ListSame(g, rank, a', b');
      ListLater(g, rank, a');
      EntryKept(a, a', b, b', RunList(g, rank, a), e);
    }
  }

  /** The entry the second pass makes is there already. */
  lemma EntryKept(a: State, a': State, b: State, b': State, final: State, e: nat)
    requires e in a'.visited && e in a'.entry && a'.entry[e] == |a.out| == |b.out| && Later(a', final)
    requires b'.entry == b.entry[e := |b.out|]
    ensures b.entry == final.entry ==> b'.entry == b.entry
  {
    if b.entry == final.entry {
      assert e in final.entry && final.entry[e] == |b.out|;
    }
  }

  lemma InlineSame(g: Grammar, rank: Ranks, x: map<nat, nat>, y: map<nat, nat>)
    requires Ranked(g, rank)
    ensures Same(Inline(g, rank, x), Inline(g, rank, y))
    ensures Inline(g, rank, x).entry == x
  {
    var p := PlanOf(g, 0, None);
    RunSame(g, rank, Start(x), Start(y), p, rank[ROOT]);
    RunLater(g, rank, Start(x), p, rank[ROOT]);
    EmittedSame(Run(g, rank, Start(x), p, rank[ROOT]), Run(g, rank, Start(y), p, rank[ROOT]), Complete, Complete);
  }

  /** The second pass, given what the first found, puts out as many entries, of the same shape,
      takes the same elements off the list in the same order, and finds every body where the
      first pass found it. */
  lemma PassesAgree(g: Grammar, rank: Ranks)
    requires Ranked(g, rank)
    ensures
      var one := Pass(g, rank, map[]);
      var two := Pass(g, rank, one.entry);
      Same(one, two) && (!one.dead ==> two.entry == one.entry)
  {
    var one := Pass(g, rank, map[]);
    var a, b := Inline(g, rank, map[]), Inline(g, rank, one.entry);
    InlineSame(g, rank, map[], one.entry);
    InlineSame(g, rank, one.entry, map[]);
    ListSame(g, rank, a, b);
  }

  // ----- Jumps lead where they should -----

  /** Every jump carries the recorded place of an element that was put on the list. */
  ghost predicate TrueJumps(out: seq<Op>, entry: map<nat, nat>, rendered: set<nat>) {
    forall op :: op in out && op.JumpTo? ==> op.target == EntryOf(entry, op.element) && op.element in rendered
  }

  ghost predicate JumpsTrue(st: State) {
    TrueJumps(st.out, st.entry, st.rendered)
  }

  lemma EmittedTrue(st: State, op: Op)
    requires JumpsTrue(st) && !op.JumpTo?
    ensures JumpsTrue(Emitted(st, op))
  {
  }

  lemma JumpTrue(st: State, e: nat)
    requires JumpsTrue(st)
    ensures JumpsTrue(Queued(Emitted(st, JumpTo(e, EntryOf(st.entry, e))), e))
  {
  }

  /** No plan puts out a jump to an element by itself. */
  predicate NoJump(p: Plan) {
    p.Do? ==> (p.item.Emit? ==> !p.item.op.JumpTo?) && (p.item.Loop? ==> !p.item.end.JumpTo?) && NoJump(p.rest)
  }

  lemma {:induction false} SubsNoJump(cs: seq<nat>, tagged: bool, then_: Plan)
    requires NoJump(then_)
    ensures NoJump(Subs(cs, tagged, then_))
  {
    if cs != [] { SubsNoJump(cs[1..], tagged, then_); }
  }

  lemma HeadNoJump(g: Grammar, e: nat, tag: Option<nat>, jump: bool, act: bool, then_: Plan)
    requires InGrammar(g, e, tag) && NoJump(then_)
    ensures NoJump(HeadPlan(g, e, tag, jump, act, then_))
  {
    assert NoJump(Do(Emit(TagOp(g, e, tag)), then_));
  }

  lemma WhenNoJump(b: bool, op: Op, then_: Plan)
    requires !op.JumpTo? && NoJump(then_)
    ensures NoJump(When(b, op, then_))
  {
  }

  lemma PlanNoJump(g: Grammar, e: nat, tag: Option<nat>)
    requires InGrammar(g, e, tag)
    ensures NoJump(PlanOf(g, e, tag))
  {
    var x, skip, late := g[e], Skippable(g, e, tag), OutOfLine(g, e, tag);
    assert GoodElement(g, e);
    var last := LastPlan(g, e);
    WhenNoJump(x.action, Action(e), Done);
    match x.kind
    case Any =>
    case TagOverride =>
    case NotCompound => HeadNoJump(g, e, tag, false, x.action, last);
    case TypeRef =>
      var after := When(x.action, Act(skip), last);
      WhenNoJump(x.action, Act(skip), last);
      HeadNoJump(g, e, tag, false, x.action, Do(Sub(x.refers, None), after));
    case Choice =>
      WhenNoJump(x.action, Act(false), last);
      WhenNoJump(!skip, CondFail, When(x.action, Act(false), last));
      SubsNoJump(x.children, true, When(!skip, CondFail, When(x.action, Act(false), last)));
    case Sequence =>
      SubsNoJump(x.children, false, Do(Emit(EndSeq(x.action)), last));
      HeadNoJump(g, e, tag, late, false,
        if late then Do(Jump(e), Done) else Subs(x.children, false, Do(Emit(EndSeq(x.action)), last)));
    case Set => HeadNoJump(g, e, tag, late, false, Do(Fail, Done));
    case SequenceOf =>
      HeadNoJump(g, e, tag, late, false, if late then Do(Jump(e), Done) else Do(Loop(x.children[0], EndSeqOf(x.action)), last));
    case SetOf =>
      HeadNoJump(g, e, tag, late, false, if late then Do(Jump(e), Done) else Do(Loop(x.children[0], EndSetOf(x.action)), last));
  }

  lemma BodyNoJump(g: Grammar, e: nat, entry: nat)
    requires e < |g|
    ensures NoJump(BodyPlan(g, e, entry))
  {
    WhenNoJump(g[e].action, Action(e), Do(Emit(Return), Done));
    assert NoJump(Do(Emit(JumpBack(entry)), ClosePlan(g, e)));
    SubsNoJump(g[e].children, false, EndPlan(g, e, entry));
  }

  lemma {:induction false} RunTrue(g: Grammar, rank: Ranks, st: State, p: Plan, bound: nat)
    requires Ranked(g, rank) && Below(p, Bodies(g, rank), rank, bound) && NoJump(p) && JumpsTrue(st)
    ensures JumpsTrue(Run(g, rank, st, p, bound))
    decreases bound, p, 0
  {
    if p.Do? {
      ItemTrue(g, rank, st, p.item, bound);
      RunTrue(g, rank, RunItem(g, rank, st, p.item, bound), p.rest, bound);
    }
  }

  lemma {:induction false} ItemTrue(g: Grammar, rank: Ranks, st: State, item: Item, bound: nat)
    requires Ranked(g, rank) && ItemBelow(item, Bodies(g, rank), rank, bound) && JumpsTrue(st)
    requires (item.Emit? ==> !item.op.JumpTo?) && (item.Loop? ==> !item.end.JumpTo?)
    ensures JumpsTrue(RunItem(g, rank, st, item, bound))
    decreases bound, item, 0
  {
    if !st.dead {
      match item
      case Emit(op) => EmittedTrue(st, op);
      case Sub(e, tag) =>
        PlanNoJump(g, e, tag);
        RunTrue(g, rank, st, PlanOf(g, e, tag), rank[Place(e, tag)]);
      case Jump(e) => JumpTrue(st, e);
      case Loop(e, end) =>
        PlanNoJump(g, e, None);
        RunTrue(g, rank, st, PlanOf(g, e, None), rank[Place(e, None)]);
        var r := Run(g, rank, st, PlanOf(g, e, None), rank[Place(e, None)]);
        EmittedTrue(r, end);
        EmittedTrue(Emitted(r, end), JumpBack(|st.out|));
      case Fail =>
    }
  }

  lemma {:induction false} ListTrue(g: Grammar, rank: Ranks, st: State)
    requires Ranked(g, rank) && Valid(st, Bodies(g, rank)) && JumpsTrue(st) && RunList(g, rank, st).entry == st.entry
    ensures JumpsTrue(RunList(g, rank, st))
    decreases Pending(st, Bodies(g, rank))
  {
    if !st.dead && st.queue != [] {
      var e := st.queue[0];
      NextLater(g, rank, st);
      ListLater(g, rank, Next(g, rank, st));
      EntryKept(st, Next(g, rank, st), st, Next(g, rank, st), RunList(g, rank, st), e);
      BodyBelow(g, rank, e, |st.out|);
      BodyNoJump(g, e, |st.out|);
      assert Popped(st).entry == st.entry;
      RunTrue(g, rank, Popped(st), BodyPlan(g, e, |st.out|), Top(rank));
      ListTrue(g, rank, Next(g, rank, st));
    }
  }

  /** In the second pass every jump leads to the place where, in that same pass, the body of the
      element it names begins; and every element put on the list has one body. */
  lemma JumpsLand(g: Grammar, rank: Ranks)
    requires Ranked(g, rank) && !Pass(g, rank, map[]).dead
    ensures
      var two := Pass(g, rank, Pass(g, rank, map[]).entry);
      Distinct(two.visited) && (forall e :: e in two.rendered <==> e in two.visited) &&
      forall op :: op in two.out && op.JumpTo? ==> op.element in two.visited && op.element in two.entry && op.target == two.entry[op.element]
  {
    var one := Pass(g, rank, map[]);
    var st := Inline(g, rank, one.entry);
    PassesAgree(g, rank);
    PlanNoJump(g, 0, None);
    RunTrue(g, rank, Start(one.entry), PlanOf(g, 0, None), rank[ROOT]);
    EmittedTrue(Run(g, rank, Start(one.entry), PlanOf(g, 0, None), rank[ROOT]), Complete);
    InlineSame(g, rank, one.entry, map[]);
    ListTrue(g, rank, st);
  }

  /** Where the body of an element begins: the state in which it was first on the list, whose
      program ends there and goes on with its body. */
  lemma {:induction false} BodyBegins(g: Grammar, rank: Ranks, st: State, e: nat) returns (s: State)
    requires Ranked(g, rank) && Valid(st, Bodies(g, rank)) && e in RunList(g, rank, st).visited && e !in st.visited
    ensures Valid(s, Bodies(g, rank)) && s.queue != [] && s.queue[0] == e
    ensures e in RunList(g, rank, st).entry && RunList(g, rank, st).entry[e] == |s.out|
    ensures Next(g, rank, s).out <= RunList(g, rank, st).out
    decreases Pending(st, Bodies(g, rank))
  {
    var next := Next(g, rank, st);
    NextLater(g, rank, st);
    ListLater(g, rank, next);
    if e == st.queue[0] {
      s := st;
      assert e in next.visited;
    } else {
      assert next.visited == st.visited + [st.queue[0]];
      s := BodyBegins(g, rank, next, e);
    }
  }
}
