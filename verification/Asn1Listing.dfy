/** The listing of a rendered decoder, read off the grammar element by element: every entry with
    its tag, and every jump by the element it leads to or the way it goes back. */
module Asn1Listing {
  import opened Wrappers
  import opened Asn1Render

  // ----- What the grammar asks for -----

  /** May the element be left out, by itself or by the element whose tag it has? */
  predicate MayBeLeftOut(g: Grammar, p: Place)
    requires InGrammar(g, p.element, p.tag)
  {
    g[p.element].skippable || (p.tag.Some? && g[p.tag.value].skippable)
  }

  predicate IsConditional(g: Grammar, p: Place)
    requires InGrammar(g, p.element, p.tag)
  {
    g[p.element].conditional || (p.tag.Some? && g[p.tag.value].conditional)
  }

  /** Is the content rendered later, because it is used more than once or may be left out? */
  predicate ContentLater(g: Grammar, p: Place)
    requires InGrammar(g, p.element, p.tag)
  {
    g[p.element].kind in {Sequence, SequenceOf, Set, SetOf} && (g[p.element].multi || MayBeLeftOut(g, p))
  }

  /** A line of the listing: an entry, a jump to the body of an element, or a jump back over so
      many entries. */
  datatype Line = Entry(op: Op) | To(element: nat) | Back(distance: int)

  /** The match for an element that is matched by a tag, with that tag: that of the overriding
      element if it was specified there and the element's own if not, put together with the
      element's method. */
  function Opening(g: Grammar, p: Place): seq<Line>
    requires InGrammar(g, p.element, p.tag)
  {
    var x := g[p.element];
    if x.kind == Any then [Entry(MatchAny(IsConditional(g, p), x.action, MayBeLeftOut(g, p)))]
    else if x.kind in {TagOverride, Choice} || (x.kind == TypeRef && x.bare) then []
    else
      var of := if p.tag.Some? && g[p.tag.value].tagSpecified then p.tag.value else p.element;
      var act := x.action && x.kind in {NotCompound, TypeRef};
      [Entry(Match(IsConditional(g, p), ContentLater(g, p), act, MayBeLeftOut(g, p))), Entry(Tag(of, p.element))]
  }

  function ActionOf(g: Grammar, e: nat): seq<Line>
    requires e < |g|
  {
    if g[e].action then [Entry(Action(e))] else []
  }

  /** What comes behind the content, which takes size entries: the end of a sequence, for a
      repetition with the way back to its beginning, what an element does that has been found or
      not, and the action; or the jump to content that is rendered later. */
  function Closing(g: Grammar, p: Place, size: nat): seq<Line>
    requires InGrammar(g, p.element, p.tag)
  {
    var x := g[p.element];
    if x.kind == Set then []
    else if ContentLater(g, p) then [To(p.element)]
    else
      match x.kind
      case TagOverride => []
      case Sequence => [Entry(EndSeq(x.action))] + ActionOf(g, p.element)
      case SequenceOf => [Entry(EndSeqOf(x.action)), Back(size + 1)] + ActionOf(g, p.element)
      case SetOf => [Entry(EndSetOf(x.action)), Back(size + 1)] + ActionOf(g, p.element)
      case Choice =>
        (if MayBeLeftOut(g, p) then [] else [Entry(CondFail)]) + (if x.action then [Entry(Act(false))] else []) + ActionOf(g, p.element)
      case TypeRef => (if x.action then [Entry(Act(MayBeLeftOut(g, p)))] else []) + ActionOf(g, p.element)
      case _ => ActionOf(g, p.element)
  }

  function Alone(cs: seq<nat>): (r: seq<Place>)
    ensures |r| == |cs| && forall i :: 0 <= i < |cs| ==> r[i] == Place(cs[i], None)
  {
    seq(|cs|, i requires 0 <= i < |cs| => Place(cs[i], None))
  }

  function Tagged(cs: seq<nat>): (r: seq<Place>)
    ensures |r| == |cs| && forall i :: 0 <= i < |cs| ==> r[i] == Place(cs[i], Some(cs[i]))
  {
    seq(|cs|, i requires 0 <= i < |cs| => Place(cs[i], Some(cs[i])))
  }

  /** The elements rendered on the spot inside this one, with the elements whose tags they have:
      an override gives its own, a reference without a tag hands on the one it has, each
      alternative of a choice has its own. */
  function Inside(g: Grammar, p: Place): seq<Place>
    requires InGrammar(g, p.element, p.tag)
  {
    var x := g[p.element];
    assert GoodElement(g, p.element);
    match x.kind
    case TagOverride => [Place(x.children[0], Some(p.element))]
    case TypeRef => [Place(x.refers, if x.bare then p.tag else None)]
    case Choice => Tagged(x.children)
    case Sequence => if ContentLater(g, p) then [] else Alone(x.children)
    case SequenceOf => if ContentLater(g, p) then [] else [Place(x.children[0], None)]
    case SetOf => if ContentLater(g, p) then [] else [Place(x.children[0], None)]
    case _ => []
  }

  predicate Smaller(rank: Ranks, ps: seq<Place>, bound: nat) {
    forall p :: p in ps ==> p in rank && rank[p] < bound
  }

  lemma {:induction false} SubsSmaller(cs: seq<nat>, tagged: bool, then_: Plan, bodies: set<nat>, rank: Ranks, bound: nat)
    requires Below(Subs(cs, tagged, then_), bodies, rank, bound)
    ensures Smaller(rank, if tagged then Tagged(cs) else Alone(cs), bound) && Below(then_, bodies, rank, bound)
  {
    if cs != [] {
      SubsSmaller(cs[1..], tagged, then_, bodies, rank, bound);
      assert cs == [cs[0]] + cs[1..];
      forall i | 0 <= i < |cs| ensures Place(cs[i], if tagged then Some(cs[i]) else None) in rank &&
          rank[Place(cs[i], if tagged then Some(cs[i]) else None)] < bound
      {
        if i > 0 {
          assert cs[i] == cs[1..][i - 1];
          assert (if tagged then Tagged(cs[1..]) else Alone(cs[1..]))[i - 1] == Place(cs[i], if tagged then Some(cs[i]) else None);
        }
      }
    }
  }

  lemma InsideSmaller(g: Grammar, rank: Ranks, p: Place)
    requires Ranked(g, rank) && p in rank
    ensures InGrammar(g, p.element, p.tag) && Smaller(rank, Inside(g, p), rank[p])
  {
    assert RankFalls(g, rank, p) && GoodElement(g, p.element);
    var x, e, tag, bodies, bound := g[p.element], p.element, p.tag, Bodies(g, rank), rank[p];
    var late, last := OutOfLine(g, e, tag), LastPlan(g, e);
    match x.kind
    case Choice =>
      SubsSmaller(x.children, true, When(!Skippable(g, e, tag), CondFail, When(x.action, Act(false), last)), bodies, rank, bound);
    case Sequence =>
      var close := Do(Emit(EndSeq(x.action)), last);
      HeadThen(g, e, tag, late, false, if late then Do(Jump(e), Done) else Subs(x.children, false, close), bodies, rank, bound);
      if !late { SubsSmaller(x.children, false, close, bodies, rank, bound); }
    case SequenceOf => RepeatSmaller(g, e, tag, bodies, rank, bound);
    case SetOf => RepeatSmaller(g, e, tag, bodies, rank, bound);
    case TypeRef =>
      var after := When(x.action, Act(Skippable(g, e, tag)), last);
      if !x.bare { HeadThen(g, e, tag, false, x.action, Do(Sub(x.refers, None), after), bodies, rank, bound); }
    case _ =>
  }

  lemma RepeatSmaller(g: Grammar, e: nat, tag: Option<nat>, bodies: set<nat>, rank: Ranks, bound: nat)
    requires InGrammar(g, e, tag) && g[e].children != [] && Below(RepeatPlan(g, e, tag), bodies, rank, bound)
    ensures !OutOfLine(g, e, tag) ==> Place(g[e].children[0], None) in rank && rank[Place(g[e].children[0], None)] < bound
  {
    var late := OutOfLine(g, e, tag);
    HeadThen(g, e, tag, late, false,
      if late then Do(Jump(e), Done) else Do(Loop(g[e].children[0], EndOf(g[e].kind, g[e].action)), LastPlan(g, e)), bodies, rank, bound);
  }

  lemma HeadThen(g: Grammar, e: nat, tag: Option<nat>, jump: bool, act: bool, then_: Plan, bodies: set<nat>, rank: Ranks, bound: nat)
    requires InGrammar(g, e, tag) && Below(HeadPlan(g, e, tag, jump, act, then_), bodies, rank, bound)
    ensures Below(then_, bodies, rank, bound)
  {
    assert Below(Do(Emit(TagOp(g, e, tag)), then_), bodies, rank, bound);
  }

  /** The listing of a place and everything rendered inside it. */
  ghost function Code(g: Grammar, rank: Ranks, p: Place): seq<Line>
    requires Ranked(g, rank) && p in rank
    decreases rank[p], 1, 0
  {
    InsideSmaller(g, rank, p);
    var content := AllCode(g, rank, Inside(g, p), rank[p]);
    Opening(g, p) + content + Closing(g, p, |content|)
  }

  ghost function AllCode(g: Grammar, rank: Ranks, ps: seq<Place>, bound: nat): seq<Line>
    requires Ranked(g, rank) && Smaller(rank, ps, bound)
    decreases bound, 0, |ps|
  {
    if ps == [] then []
    else
      assert ps[0] in ps && forall p :: p in ps[1..] ==> p in ps;
      Code(g, rank, ps[0]) + AllCode(g, rank, ps[1..], bound)
  }

  /** The end of the kind, and the way back for a repetition. */
  function KindEnd(g: Grammar, e: nat, size: nat): seq<Line>
    requires e < |g|
  {
    var x := g[e];
    match x.kind
    case Sequence => [Entry(EndSeq(x.action))]
    case SequenceOf => [Entry(EndSeqOf(x.action)), Back(size + 1)]
    case Set => [Entry(EndSet(x.action))]
    case SetOf => [Entry(EndSetOf(x.action)), Back(size + 1)]
    case _ => []
  }

  /** The end of a body that has size entries so far. */
  function BodyEnd(g: Grammar, e: nat, size: nat): seq<Line>
    requires e < |g|
  {
    KindEnd(g, e, size) + (ActionOf(g, e) + [Entry(Return)])
  }

  /** The body of an element rendered later: all its children. */
  ghost function Body(g: Grammar, rank: Ranks, e: nat): seq<Line>
    requires Ranked(g, rank) && e in Bodies(g, rank)
  {
    var content := AllCode(g, rank, Alone(g[e].children), Top(rank));
    content + BodyEnd(g, e, |content|)
  }

  ghost function AllBodies(g: Grammar, rank: Ranks, es: seq<nat>): seq<Line>
    requires Ranked(g, rank) && forall e :: e in es ==> e in Bodies(g, rank)
    decreases |es|
  {
    if es == [] then []
    else
      assert es[0] in es && forall e :: e in es[1..] ==> e in es;
      Body(g, rank, es[0]) + AllBodies(g, rank, es[1..])
  }

  // ----- What is put out -----

  /** The entry at i as a line. */
  function LineOf(op: Op, i: nat): Line {
    match op
    case JumpTo(e, _) => To(e)
    case JumpBack(t) => Back(i - t)
    case _ => Entry(op)
  }

  function Lines(out: seq<Op>): (ls: seq<Line>)
    ensures |ls| == |out| && forall i :: 0 <= i < |out| ==> ls[i] == LineOf(out[i], i)
  {
    seq(|out|, i requires 0 <= i < |out| => LineOf(out[i], i))
  }

  lemma LinesOne(out: seq<Op>, op: Op)
    ensures Lines(out + [op]) == Lines(out) + [LineOf(op, |out|)]
  {
  }

  /** Nothing is put out that depends on where it stands. */
  predicate Steady(p: Plan) {
    match p
    case Done => true
    case Do(item, rest) =>
      (item.Emit? ==> !item.op.JumpTo? && !item.op.JumpBack?) && (item.Loop? ==> !item.end.JumpTo? && !item.end.JumpBack?) && Steady(rest)
  }

  /** Content with its end and the way back. */
  function Looping(content: seq<Line>, end: Op): seq<Line> {
    content + [Entry(end), Back(|content| + 1)]
  }

  /** The lines that a plan comes to, where code is what places come to. */
  function PlanCode(code: Place -> seq<Line>, p: Plan): seq<Line> {
    match p
    case Done => []
    case Do(item, rest) => ItemCode(code, item) + PlanCode(code, rest)
  }

  function ItemCode(code: Place -> seq<Line>, item: Item): seq<Line> {
    match item
    case Emit(op) => [Entry(op)]
    case Sub(e, tag) => code(Place(e, tag))
    case Jump(e) => [To(e)]
    case Loop(e, end) => Looping(code(Place(e, None)), end)
    case Fail => []
  }

  function AllOf(code: Place -> seq<Line>, ps: seq<Place>): seq<Line> {
    if ps == [] then [] else code(ps[0]) + AllOf(code, ps[1..])
  }

  lemma Regrouped<T>(a: seq<T>, b: seq<T>, c: seq<T>)
    ensures a + (b + c) == (a + b) + c
  {
  }

  function Places(cs: seq<nat>, tagged: bool): (ps: seq<Place>)
    ensures |ps| == |cs| && forall i :: 0 <= i < |cs| ==> ps[i] == Place(cs[i], if tagged then Some(cs[i]) else None)
  {
    if tagged then Tagged(cs) else Alone(cs)
  }

  lemma FirstPlace(cs: seq<nat>, tagged: bool)
    requires cs != []
    ensures Places(cs, tagged)[0] == Place(cs[0], if tagged then Some(cs[0]) else None)
    ensures Places(cs, tagged)[1..] == Places(cs[1..], tagged)
  {
  }

  lemma {:induction false} SubsCode(code: Place -> seq<Line>, cs: seq<nat>, tagged: bool, then_: Plan)
    requires Steady(then_)
    ensures Steady(Subs(cs, tagged, then_))
    ensures PlanCode(code, Subs(cs, tagged, then_)) == AllOf(code, Places(cs, tagged)) + PlanCode(code, then_)
  {
    if cs == [] {
      assert [] + PlanCode(code, then_) == PlanCode(code, then_);
    } else {
      FirstPlace(cs, tagged);
      SubsCode(code, cs[1..], tagged, then_);
      Regrouped(code(Places(cs, tagged)[0]), AllOf(code, Places(cs[1..], tagged)), PlanCode(code, then_));
    }
  }

  lemma WhenCode(code: Place -> seq<Line>, b: bool, op: Op, then_: Plan)
    requires !op.JumpTo? && !op.JumpBack? && Steady(then_)
    ensures Steady(When(b, op, then_)) && PlanCode(code, When(b, op, then_)) == (if b then [Entry(op)] else []) + PlanCode(code, then_)
  {
    assert [] + PlanCode(code, then_) == PlanCode(code, then_);
  }

  lemma LastCode(code: Place -> seq<Line>, g: Grammar, e: nat)
    requires e < |g|
    ensures Steady(LastPlan(g, e)) && PlanCode(code, LastPlan(g, e)) == ActionOf(g, e)
  {
    WhenCode(code, g[e].action, Action(e), Done);
  }

  /** What an element does that has been found, and its action. */
  lemma ActCode(code: Place -> seq<Line>, g: Grammar, e: nat, act: Op)
    requires e < |g| && act.Act?
    ensures Steady(When(g[e].action, act, LastPlan(g, e)))
    ensures PlanCode(code, When(g[e].action, act, LastPlan(g, e))) == (if g[e].action then [Entry(act)] else []) + ActionOf(g, e)
  {
    LastCode(code, g, e);
    WhenCode(code, g[e].action, act, LastPlan(g, e));
  }

  /** The end of a sequence, and the action. */
  lemma EndCode(code: Place -> seq<Line>, g: Grammar, e: nat, end: Op)
    requires e < |g| && !end.JumpTo? && !end.JumpBack?
    ensures Steady(Do(Emit(end), LastPlan(g, e))) && PlanCode(code, Do(Emit(end), LastPlan(g, e))) == [Entry(end)] + ActionOf(g, e)
  {
    LastCode(code, g, e);
  }

  /** An element matched by a tag. */
  predicate Matched(x: Element) {
    x.kind !in {Any, TagOverride, Choice} && !(x.kind == TypeRef && x.bare)
  }

  lemma HeadCode(code: Place -> seq<Line>, g: Grammar, p: Place, jump: bool, act: bool, then_: Plan)
    requires InGrammar(g, p.element, p.tag) && Matched(g[p.element]) && Steady(then_)
    requires jump == ContentLater(g, p) && act == (g[p.element].action && g[p.element].kind in {NotCompound, TypeRef})
    ensures Steady(HeadPlan(g, p.element, p.tag, jump, act, then_))
    ensures PlanCode(code, HeadPlan(g, p.element, p.tag, jump, act, then_)) == Opening(g, p) + PlanCode(code, then_)
  {
    var m, t := Match(Conditional(g, p.element, p.tag), jump, act, Skippable(g, p.element, p.tag)), TagOp(g, p.element, p.tag);
    assert Opening(g, p) == [Entry(m)] + [Entry(t)];
    assert PlanCode(code, Do(Emit(t), then_)) == [Entry(t)] + PlanCode(code, then_);
    Regrouped([Entry(m)], [Entry(t)], PlanCode(code, then_));
  }

  lemma OneCode(code: Place -> seq<Line>, q: Place)
    ensures AllOf(code, [q]) == code(q)
  {
    assert [q][1..] == [] && code(q) + [] == code(q);
  }

  // ----- The plan of a place -----

  /** What a place comes to in terms of what is rendered inside it. */
  function Made(code: Place -> seq<Line>, g: Grammar, p: Place): seq<Line>
    requires InGrammar(g, p.element, p.tag)
  {
    var content := AllOf(code, Inside(g, p));
    Opening(g, p) + (content + Closing(g, p, |content|))
  }

  lemma PlanIs(code: Place -> seq<Line>, g: Grammar, p: Place)
    requires InGrammar(g, p.element, p.tag)
    ensures Steady(PlanOf(g, p.element, p.tag)) && PlanCode(code, PlanOf(g, p.element, p.tag)) == Made(code, g, p)
  {
    var x, e, tag := g[p.element], p.element, p.tag;
    assert GoodElement(g, e);
    match x.kind
    case Any => LastCode(code, g, e);
    case TagOverride => OneCode(code, Place(x.children[0], Some(e)));
    case NotCompound =>
      LastCode(code, g, e);
      HeadCode(code, g, p, false, x.action, LastPlan(g, e));
    case TypeRef => RefIs(code, g, p);
    case Choice => ChoiceIs(code, g, p);
    case Sequence => SequenceIs(code, g, p);
    case Set => HeadCode(code, g, p, OutOfLine(g, e, tag), false, Do(Fail, Done));
    case SequenceOf => RepeatIs(code, g, p);
    case SetOf => RepeatIs(code, g, p);
  }

  lemma RefIs(code: Place -> seq<Line>, g: Grammar, p: Place)
    requires InGrammar(g, p.element, p.tag) && g[p.element].kind == TypeRef
    ensures Steady(RefPlan(g, p.element, p.tag)) && PlanCode(code, RefPlan(g, p.element, p.tag)) == Made(code, g, p)
  {
    var x, e, tag := g[p.element], p.element, p.tag;
    var q, after := Place(x.refers, if x.bare then tag else None), When(x.action, Act(Skippable(g, e, tag)), LastPlan(g, e));
    OneCode(code, q);
    ActCode(code, g, e, Act(Skippable(g, e, tag)));
    if !x.bare { HeadCode(code, g, p, false, x.action, Do(Sub(x.refers, None), after)); }
  }

  lemma ChoiceIs(code: Place -> seq<Line>, g: Grammar, p: Place)
    requires InGrammar(g, p.element, p.tag) && g[p.element].kind == Choice
    ensures Steady(ChoicePlan(g, p.element, p.tag)) && PlanCode(code, ChoicePlan(g, p.element, p.tag)) == Made(code, g, p)
  {
    var x, e, skip := g[p.element], p.element, Skippable(g, p.element, p.tag);
    var act := When(x.action, Act(false), LastPlan(g, e));
    ActCode(code, g, e, Act(false));
    WhenCode(code, !skip, CondFail, act);
    SubsCode(code, x.children, true, When(!skip, CondFail, act));
    Regrouped(if skip then [] else [Entry(CondFail)], if x.action then [Entry(Act(false))] else [], ActionOf(g, e));
  }

  lemma SequenceIs(code: Place -> seq<Line>, g: Grammar, p: Place)
    requires InGrammar(g, p.element, p.tag) && g[p.element].kind == Sequence
    ensures Steady(SequencePlan(g, p.element, p.tag)) && PlanCode(code, SequencePlan(g, p.element, p.tag)) == Made(code, g, p)
  {
    var x, e, late := g[p.element], p.element, OutOfLine(g, p.element, p.tag);
    var close := Do(Emit(EndSeq(x.action)), LastPlan(g, e));
    EndCode(code, g, e, EndSeq(x.action));
    SubsCode(code, x.children, false, close);
    HeadCode(code, g, p, late, false, if late then Do(Jump(e), Done) else Subs(x.children, false, close));
  }

  lemma RepeatIs(code: Place -> seq<Line>, g: Grammar, p: Place)
    requires InGrammar(g, p.element, p.tag) && g[p.element].kind in {SequenceOf, SetOf} && g[p.element].children != []
    ensures Steady(RepeatPlan(g, p.element, p.tag)) && PlanCode(code, RepeatPlan(g, p.element, p.tag)) == Made(code, g, p)
  {
    var x, e, late := g[p.element], p.element, OutOfLine(g, p.element, p.tag);
    var end, q := EndOf(x.kind, x.action), Place(x.children[0], None);
    OneCode(code, q);
    LastCode(code, g, e);
    Regrouped(code(q), [Entry(end), Back(|code(q)| + 1)], ActionOf(g, e));
    HeadCode(code, g, p, late, false, if late then Do(Jump(e), Done) else Do(Loop(x.children[0], end), LastPlan(g, e)));
  }

  // ----- The code of all places -----

  ghost function CodeOf(g: Grammar, rank: Ranks): Place -> seq<Line>
    requires Ranked(g, rank)
  {
    (p: Place) => if p in rank then Code(g, rank, p) else []
  }

  lemma {:induction false} AllIsAllOf(g: Grammar, rank: Ranks, ps: seq<Place>, bound: nat)
    requires Ranked(g, rank) && Smaller(rank, ps, bound)
    ensures AllCode(g, rank, ps, bound) == AllOf(CodeOf(g, rank), ps)
    decreases |ps|
  {
    if ps != [] {
      assert ps[0] in ps && forall p :: p in ps[1..] ==> p in ps;
      AllIsAllOf(g, rank, ps[1..], bound);
    }
  }

  lemma CodeIsMade(g: Grammar, rank: Ranks, p: Place)
    requires Ranked(g, rank) && p in rank
    ensures InGrammar(g, p.element, p.tag) && Code(g, rank, p) == Made(CodeOf(g, rank), g, p)
  {
    InsideSmaller(g, rank, p);
    AllIsAllOf(g, rank, Inside(g, p), rank[p]);
    var content := AllCode(g, rank, Inside(g, p), rank[p]);
    Regrouped(Opening(g, p), content, Closing(g, p, |content|));
  }

  // ----- What a pass puts out -----

  lemma {:induction false} DeadStays(g: Grammar, rank: Ranks, st: State, p: Plan, bound: nat)
    requires Ranked(g, rank) && Below(p, Bodies(g, rank), rank, bound) && st.dead
    ensures Run(g, rank, st, p, bound) == st
    decreases p
  {
    if p.Do? { DeadStays(g, rank, st, p.rest, bound); }
  }

  /** The program has grown by these lines. */
  ghost predicate Grows(st: State, r: State, more: seq<Line>) {
    (st.dead ==> r.dead) && (!r.dead ==> Lines(r.out) == Lines(st.out) + more)
  }

  lemma GrowsOn(a: State, b: State, c: State, x: seq<Line>, y: seq<Line>)
    requires Grows(a, b, x) && Grows(b, c, y)
    ensures Grows(a, c, x + y)
  {
    if !c.dead { Regrouped(Lines(a.out), x, y); }
  }

  lemma {:induction false} RunLines(g: Grammar, rank: Ranks, st: State, p: Plan, bound: nat)
    requires Ranked(g, rank) && Below(p, Bodies(g, rank), rank, bound) && Steady(p)
    ensures Grows(st, Run(g, rank, st, p, bound), PlanCode(CodeOf(g, rank), p))
    decreases bound, p, 1
  {
    if p.Do? {
      var s := RunItem(g, rank, st, p.item, bound);
      ItemLines(g, rank, st, p.item, bound);
      RunLines(g, rank, s, p.rest, bound);
      GrowsOn(st, s, Run(g, rank, s, p.rest, bound), ItemCode(CodeOf(g, rank), p.item), PlanCode(CodeOf(g, rank), p.rest));
    }
  }

  lemma {:induction false} ItemLines(g: Grammar, rank: Ranks, st: State, item: Item, bound: nat)
    requires Ranked(g, rank) && ItemBelow(item, Bodies(g, rank), rank, bound)
    requires (item.Emit? ==> !item.op.JumpTo? && !item.op.JumpBack?) && (item.Loop? ==> !item.end.JumpTo? && !item.end.JumpBack?)
    ensures Grows(st, RunItem(g, rank, st, item, bound), ItemCode(CodeOf(g, rank), item))
    decreases bound, item, 0
  {
    if !st.dead {
      match item
      case Emit(op) => LinesOne(st.out, op);
      case Sub(e, tag) => PlaceLines(g, rank, st, Place(e, tag), bound);
      case Jump(e) => LinesOne(st.out, JumpTo(e, EntryOf(st.entry, e)));
      case Loop(e, end) => LoopItemLines(g, rank, st, e, end, bound);
      case Fail =>
    }
  }

  lemma {:induction false} LoopItemLines(g: Grammar, rank: Ranks, st: State, e: nat, end: Op, bound: nat)
    requires Ranked(g, rank) && Place(e, None) in rank && rank[Place(e, None)] < bound && !st.dead && !end.JumpTo? && !end.JumpBack?
    ensures InGrammar(g, e, None) && RankFalls(g, rank, Place(e, None))
    ensures
      var r := Run(g, rank, st, PlanOf(g, e, None), rank[Place(e, None)]);
      Grows(st, Looped(st, r, end), Looping(Code(g, rank, Place(e, None)), end))
    decreases rank[Place(e, None)], PlanOf(g, e, None), 3
  {
    PlaceLines(g, rank, st, Place(e, None), bound);
    LoopLines(st, Run(g, rank, st, PlanOf(g, e, None), rank[Place(e, None)]), end, Code(g, rank, Place(e, None)));
  }

  lemma {:induction false} PlaceLines(g: Grammar, rank: Ranks, st: State, p: Place, bound: nat)
    requires Ranked(g, rank) && p in rank && rank[p] < bound
    ensures InGrammar(g, p.element, p.tag) && RankFalls(g, rank, p)
    ensures Grows(st, Run(g, rank, st, PlanOf(g, p.element, p.tag), rank[p]), Code(g, rank, p))
    decreases rank[p], PlanOf(g, p.element, p.tag), 2
  {
    assert RankFalls(g, rank, p);
    PlanIs(CodeOf(g, rank), g, p);
    CodeIsMade(g, rank, p);
    RunLines(g, rank, st, PlanOf(g, p.element, p.tag), rank[p]);
  }

  /** The end of a loop goes back to where it began. */
  lemma LoopLines(st: State, r: State, end: Op, content: seq<Line>)
    requires Grows(st, r, content) && !st.dead && !end.JumpTo? && !end.JumpBack?
    ensures Grows(st, Looped(st, r, end), Looping(content, end))
  {
    if !r.dead {
      LinesOne(r.out, end);
      LinesOne(r.out + [end], JumpBack(|st.out|));
      assert |r.out| == |st.out| + |content| by { assert |Lines(r.out)| == |Lines(st.out)| + |content|; }
      assert Lines(st.out) + content + [Entry(end)] + [Back(|content| + 1)] == Lines(st.out) + (content + [Entry(end), Back(|content| + 1)]);
    }
  }

  // ----- Bodies -----

  /** Children first, then whatever comes behind them. */
  lemma {:induction false} RunSubs(g: Grammar, rank: Ranks, st: State, cs: seq<nat>, tagged: bool, then_: Plan, bound: nat)
    requires Ranked(g, rank) && Below(Subs(cs, tagged, then_), Bodies(g, rank), rank, bound)
    ensures Below(Subs(cs, tagged, Done), Bodies(g, rank), rank, bound) && Below(then_, Bodies(g, rank), rank, bound)
    ensures Run(g, rank, st, Subs(cs, tagged, then_), bound) ==
            Run(g, rank, Run(g, rank, st, Subs(cs, tagged, Done), bound), then_, bound)
    decreases |cs|
  {
    if cs != [] {
      var item := Sub(cs[0], if tagged then Some(cs[0]) else None);
      RunSubs(g, rank, RunItem(g, rank, st, item, bound), cs[1..], tagged, then_, bound);
    }
  }

  lemma RunEmit(g: Grammar, rank: Ranks, st: State, op: Op, rest: Plan, bound: nat)
    requires Ranked(g, rank) && Below(rest, Bodies(g, rank), rank, bound) && !st.dead
    ensures Below(Do(Emit(op), rest), Bodies(g, rank), rank, bound)
    ensures Run(g, rank, st, Do(Emit(op), rest), bound) == Run(g, rank, Emitted(st, op), rest, bound)
  {
  }

  lemma CloseLines(g: Grammar, rank: Ranks, st: State, e: nat)
    requires Ranked(g, rank) && e < |g|
    ensures Below(ClosePlan(g, e), Bodies(g, rank), rank, Top(rank))
    ensures Grows(st, Run(g, rank, st, ClosePlan(g, e), Top(rank)), ActionOf(g, e) + [Entry(Return)])
  {
    EndBelow(g, rank, e, 0);
    WhenCode(CodeOf(g, rank), g[e].action, Action(e), Do(Emit(Return), Done));
    RunLines(g, rank, st, ClosePlan(g, e), Top(rank));
  }

  lemma OneEnd(g: Grammar, rank: Ranks, st: State, e: nat, end: Op)
    requires Ranked(g, rank) && e < |g| && !st.dead && !end.JumpTo? && !end.JumpBack?
    ensures Below(Do(Emit(end), ClosePlan(g, e)), Bodies(g, rank), rank, Top(rank))
    ensures Grows(st, Run(g, rank, st, Do(Emit(end), ClosePlan(g, e)), Top(rank)), [Entry(end)] + (ActionOf(g, e) + [Entry(Return)]))
  {
    var s := Emitted(st, end);
    CloseLines(g, rank, s, e);
    RunEmit(g, rank, st, end, ClosePlan(g, e), Top(rank));
    LinesOne(st.out, end);
    GrowsOn(st, s, Run(g, rank, s, ClosePlan(g, e), Top(rank)), [Entry(end)], ActionOf(g, e) + [Entry(Return)]);
  }

  lemma TwoEnds(g: Grammar, rank: Ranks, st: State, e: nat, end: Op, entry: nat, size: nat)
    requires Ranked(g, rank) && e < |g| && !st.dead && !end.JumpTo? && !end.JumpBack? && |st.out| == entry + size
    ensures Below(Do(Emit(end), Do(Emit(JumpBack(entry)), ClosePlan(g, e))), Bodies(g, rank), rank, Top(rank))
    ensures Grows(st, Run(g, rank, st, Do(Emit(end), Do(Emit(JumpBack(entry)), ClosePlan(g, e))), Top(rank)),
                  [Entry(end), Back(size + 1)] + (ActionOf(g, e) + [Entry(Return)]))
  {
    var s := Emitted(Emitted(st, end), JumpBack(entry));
    CloseLines(g, rank, s, e);
    RunEmit(g, rank, Emitted(st, end), JumpBack(entry), ClosePlan(g, e), Top(rank));
    RunEmit(g, rank, st, end, Do(Emit(JumpBack(entry)), ClosePlan(g, e)), Top(rank));
    TwoLines(st.out, end, entry, size);
    GrowsOn(st, s, Run(g, rank, s, ClosePlan(g, e), Top(rank)), [Entry(end), Back(size + 1)], ActionOf(g, e) + [Entry(Return)]);
  }

  lemma TwoLines(out: seq<Op>, end: Op, entry: nat, size: nat)
    requires |out| == entry + size && !end.JumpTo? && !end.JumpBack?
    ensures Lines(out + [end] + [JumpBack(entry)]) == Lines(out) + [Entry(end), Back(size + 1)]
  {
    LinesOne(out, end);
    LinesOne(out + [end], JumpBack(entry));
  }

  lemma EndLines(g: Grammar, rank: Ranks, st: State, e: nat, entry: nat, size: nat)
    requires Ranked(g, rank) && e < |g| && !st.dead && |st.out| == entry + size
    ensures Below(EndPlan(g, e, entry), Bodies(g, rank), rank, Top(rank))
    ensures Grows(st, Run(g, rank, st, EndPlan(g, e, entry), Top(rank)), BodyEnd(g, e, size))
  {
    EndBelow(g, rank, e, entry);
    if g[e].kind in {SequenceOf, SetOf} {
      TwoEnds(g, rank, st, e, EndOf(g[e].kind, g[e].action), entry, size);
    } else if g[e].kind in {Sequence, Set} {
      OneEnd(g, rank, st, e, EndOf(g[e].kind, g[e].action));
    } else {
      CloseLines(g, rank, st, e);
      assert [] + (ActionOf(g, e) + [Entry(Return)]) == ActionOf(g, e) + [Entry(Return)];
    }
  }

  lemma NextLines(g: Grammar, rank: Ranks, st: State)
    requires Ranked(g, rank) && Valid(st, Bodies(g, rank)) && st.queue != [] && !st.dead
    ensures st.queue[0] in Bodies(g, rank) && Grows(st, Next(g, rank, st), Body(g, rank, st.queue[0]))
  {
    var e := st.queue[0];
    assert e in st.queue;
    BodyBelow(g, rank, e, |st.out|);
    BodyLines(g, rank, Popped(st), e);
  }

  lemma BodyLines(g: Grammar, rank: Ranks, st: State, e: nat)
    requires Ranked(g, rank) && e in Bodies(g, rank) && !st.dead && Below(BodyPlan(g, e, |st.out|), Bodies(g, rank), rank, Top(rank))
    ensures Grows(st, Run(g, rank, st, BodyPlan(g, e, |st.out|), Top(rank)), Body(g, rank, e))
  {
    var entry, cs, top := |st.out|, g[e].children, Top(rank);
    RunSubs(g, rank, st, cs, false, EndPlan(g, e, entry), top);
    SubsCode(CodeOf(g, rank), cs, false, Done);
    SubsSmaller(cs, false, Done, Bodies(g, rank), rank, top);
    AllIsAllOf(g, rank, Alone(cs), top);
    RunLines(g, rank, st, Subs(cs, false, Done), top);
    var content, s := AllCode(g, rank, Alone(cs), top), Run(g, rank, st, Subs(cs, false, Done), top);
    assert content + [] == content;
    if s.dead {
      DeadStays(g, rank, s, EndPlan(g, e, entry), top);
    } else {
      assert |s.out| == entry + |content| by { assert |Lines(s.out)| == |Lines(st.out)| + |content|; }
      EndLines(g, rank, s, e, entry, |content|);
    }
    GrowsOn(st, s, Run(g, rank, s, EndPlan(g, e, entry), top), content, BodyEnd(g, e, |content|));
  }

  // ----- The whole program -----

  /** The elements taken off the list from here on. */
  ghost function Ahead(g: Grammar, rank: Ranks, st: State): seq<nat>
    requires Ranked(g, rank) && Valid(st, Bodies(g, rank))
    decreases Pending(st, Bodies(g, rank))
  {
    if st.dead || st.queue == [] then [] else [st.queue[0]] + Ahead(g, rank, Next(g, rank, st))
  }

  lemma {:induction false} ListLines(g: Grammar, rank: Ranks, st: State)
    requires Ranked(g, rank) && Valid(st, Bodies(g, rank))
    ensures forall e :: e in Ahead(g, rank, st) ==> e in Bodies(g, rank)
    ensures !RunList(g, rank, st).dead ==> RunList(g, rank, st).visited == st.visited + Ahead(g, rank, st)
    ensures Grows(st, RunList(g, rank, st), AllBodies(g, rank, Ahead(g, rank, st)))
    decreases Pending(st, Bodies(g, rank))
  {
    if st.dead || st.queue == [] {
      assert st.visited + [] == st.visited;
    } else {
      var next, e := Next(g, rank, st), st.queue[0];
      NextLines(g, rank, st);
      NextLater(g, rank, st);
      ListLines(g, rank, next);
      ListStep(g, rank, st, next, RunList(g, rank, next), e, Ahead(g, rank, next));
    }
  }

  lemma ListStep(g: Grammar, rank: Ranks, st: State, next: State, final: State, e: nat, more: seq<nat>)
    requires Ranked(g, rank) && e in Bodies(g, rank) && (forall x :: x in more ==> x in Bodies(g, rank))
    requires Grows(st, next, Body(g, rank, e)) && Grows(next, final, AllBodies(g, rank, more))
    requires next.visited == st.visited + [e] && (!final.dead ==> final.visited == next.visited + more)
    ensures !final.dead ==> final.visited == st.visited + ([e] + more)
    ensures Grows(st, final, AllBodies(g, rank, [e] + more))
  {
    assert ([e] + more)[1..] == more && ([e] + more)[0] == e;
    Regrouped(st.visited, [e], more);
    GrowsOn(st, next, final, Body(g, rank, e), AllBodies(g, rank, more));
  }

  lemma Completed(st: State, r: State, c: seq<Line>)
    requires Grows(st, r, c)
    ensures Grows(st, if r.dead then r else Emitted(r, Complete), c + [Entry(Complete)])
  {
    LinesOne(r.out, Complete);
    Regrouped(Lines(st.out), c, [Entry(Complete)]);
  }

  /** The part in line. */
  lemma InlineLines(g: Grammar, rank: Ranks, entry: map<nat, nat>)
    requires Ranked(g, rank)
    ensures Grows(Start(entry), Inline(g, rank, entry), Code(g, rank, ROOT) + [Entry(Complete)])
    ensures Inline(g, rank, entry).visited == []
  {
    var r := Run(g, rank, Start(entry), PlanOf(g, 0, None), rank[ROOT]);
    PlaceLines(g, rank, Start(entry), ROOT, rank[ROOT] + 1);
    RunLater(g, rank, Start(entry), PlanOf(g, 0, None), rank[ROOT]);
    Completed(Start(entry), r, Code(g, rank, ROOT));
  }

  /** The whole program, up to the numbers in its jumps, is the listing of the grammar: the root,
      the entry that completes it, and the bodies of the elements rendered later, in the order in
      which they were taken off the list. */
  lemma ProgramListed(g: Grammar, rank: Ranks, entry: map<nat, nat>)
    requires Ranked(g, rank) && !Pass(g, rank, entry).dead
    ensures forall e :: e in Pass(g, rank, entry).visited ==> e in Bodies(g, rank)
    ensures Lines(Pass(g, rank, entry).out) ==
            Code(g, rank, ROOT) + [Entry(Complete)] + AllBodies(g, rank, Pass(g, rank, entry).visited)
  {
    var st := Inline(g, rank, entry);
    InlineLines(g, rank, entry);
    ListLines(g, rank, st);
    var more := Ahead(g, rank, st);
    assert [] + more == more;
    GrowsOn(Start(entry), st, Pass(g, rank, entry), Code(g, rank, ROOT) + [Entry(Complete)], AllBodies(g, rank, more));
    FromNothing(Lines(Pass(g, rank, entry).out), Code(g, rank, ROOT) + [Entry(Complete)] + AllBodies(g, rank, more));
  }

  lemma FromNothing(a: seq<Line>, b: seq<Line>)
    requires a == Lines([]) + b
    ensures a == b
  {
  }

  /** Behind the match of an element under an override with a tag of its own stands that tag, with
      the element's method; an element without an override has its own. */
  lemma TagBehindMatch(g: Grammar, rank: Ranks, p: Place)
    requires Ranked(g, rank) && p in rank && InGrammar(g, p.element, p.tag) && Matched(g[p.element])
    ensures
      var c := Code(g, rank, p);
      |c| >= 2 && c[0].Entry? && c[0].op.Match? &&
      c[1] == Entry(if p.tag.Some? && g[p.tag.value].tagSpecified then Tag(p.tag.value, p.element) else Tag(p.element, p.element))
  {
    InsideSmaller(g, rank, p);
  }
}
