/** The renderer as it runs: counters, flags and a linked work list that keeps its links from the
    first pass to the second. */
module Asn1Passes {
  import opened Asn1Render
  import L = Asn1Listing
  import opened Wrappers

  function LinkOf(links: map<nat, nat>, k: nat): Option<nat> {
    if k in links then Some(links[k]) else None
  }

  /** The list pointers stand for the queue. */
  ghost predicate Ends(list: Option<nat>, tail: Option<nat>, queue: seq<nat>) {
    if queue == [] then list == None && tail == None else list == Some(queue[0]) && tail == Some(Last(queue))
  }

  /** A link may still be the one that the first pass left behind. */
  ghost predicate LinksOf(next: seq<Option<nat>>, links: map<nat, nat>, final: map<nat, nat>) {
    forall k :: 0 <= k < |next| ==> next[k] == LinkOf(links, k) || next[k] == LinkOf(final, k)
  }

  ghost predicate Flags(rendered: seq<bool>, set_: set<nat>) {
    forall k :: 0 <= k < |rendered| ==> (rendered[k] <==> k in set_)
  }

  ghost predicate Entries(index: seq<nat>, entry: map<nat, nat>) {
    forall k :: 0 <= k < |index| ==> index[k] == EntryOf(entry, k)
  }

  /** The flags, entries, links and list pointers stand for the state. */
  ghost predicate Stands(n: nat, st: State, rendered: seq<bool>, index: seq<nat>, next: seq<Option<nat>>,
                         list: Option<nat>, tail: Option<nat>, final: map<nat, nat>) {
    |rendered| == |index| == |next| == n && (tail.Some? ==> tail.value < n) &&
    Flags(rendered, st.rendered) && Entries(index, st.entry) && LinksOf(next, st.links, final) && Ends(list, tail, st.queue)
  }

  lemma PopStands(n: nat, bodies: set<nat>, st: State, rendered: seq<bool>, index: seq<nat>, next: seq<Option<nat>>,
                  list: Option<nat>, tail: Option<nat>, final: map<nat, nat>)
    requires Valid(st, bodies) && Stands(n, st, rendered, index, next, list, tail, final)
    requires st.queue != [] && st.queue[0] < n && LinkOf(final, st.queue[0]) == LinkOf(st.links, st.queue[0])
    ensures list == Some(st.queue[0])
    ensures
      var e := st.queue[0];
      Stands(n, Popped(st), rendered, index[e := |st.out|], next, next[e], if next[e].None? then None else tail, final)
  {
    FirstLink(st.queue, st.links, st.rendered);
    EntriesMore(index, st.entry, st.queue[0], |st.out|);
  }

  /** The same with every value named. */
  lemma Pops(n: nat, bodies: set<nat>, st: State, rendered: seq<bool>, index: seq<nat>, next: seq<Option<nat>>,
             list: Option<nat>, tail: Option<nat>, final: map<nat, nat>) returns (e: nat, after: State, index': seq<nat>)
    requires Valid(st, bodies) && Stands(n, st, rendered, index, next, list, tail, final)
    requires st.queue != [] && st.queue[0] < n && LinkOf(final, st.queue[0]) == LinkOf(st.links, st.queue[0])
    ensures list == Some(e) && e == st.queue[0] && e < |next| && e < |index| && index' == index[e := |st.out|]
    ensures after == Popped(st) && after.out == st.out && after.dead == st.dead
    ensures Stands(n, after, rendered, index', next, next[e], if next[e].None? then None else tail, final)
  {
    PopStands(n, bodies, st, rendered, index, next, list, tail, final);
    e, after := st.queue[0], Popped(st);
    index' := index[e := |st.out|];
  }

  lemma {:induction false} DeadStays(g: Grammar, rank: Ranks, st: State, p: Plan, bound: nat)
    requires Ranked(g, rank) && Below(p, Bodies(g, rank), rank, bound) && st.dead
    ensures Run(g, rank, st, p, bound) == st
    decreases p
  {
    if p.Do? { DeadStays(g, rank, st, p.rest, bound); }
  }

  lemma RunStep(g: Grammar, rank: Ranks, st: State, p: Plan, bound: nat)
    requires Ranked(g, rank) && Below(p, Bodies(g, rank), rank, bound) && p.Do?
    ensures Run(g, rank, st, p, bound) == Run(g, rank, RunItem(g, rank, st, p.item, bound), p.rest, bound)
  {
  }

  lemma RunFail(g: Grammar, rank: Ranks, st: State, bound: nat)
    requires Ranked(g, rank) && !st.dead
    ensures Below(Do(Fail, Done), Bodies(g, rank), rank, bound)
    ensures Run(g, rank, st, Do(Fail, Done), bound) == st.(dead := true)
  {
  }

  lemma FlagsMore(rendered: seq<bool>, set_: set<nat>, e: nat)
    requires Flags(rendered, set_) && e < |rendered|
    ensures Flags(rendered[e := true], set_ + {e})
  {
  }

  lemma LinksMore(next: seq<Option<nat>>, links: map<nat, nat>, final: map<nat, nat>, last: nat, e: nat)
    requires LinksOf(next, links, final) && last < |next|
    ensures LinksOf(next[last := Some(e)], links[last := e], final)
  {
  }

  /** The links after an element has been put behind the last one. */
  function Linked(next: seq<Option<nat>>, tail: Option<nat>, e: nat): seq<Option<nat>>
    requires tail.Some? ==> tail.value < |next|
  {
    if tail.None? then next else next[tail.value := Some(e)]
  }

  lemma AlreadyQueued(n: nat, st: State, rendered: seq<bool>, index: seq<nat>, next: seq<Option<nat>>,
                      list: Option<nat>, tail: Option<nat>, final: map<nat, nat>, e: nat)
    requires Stands(n, st, rendered, index, next, list, tail, final) && e < n && rendered[e]
    ensures Queued(st, e) == st
  {
  }

  lemma Appends(n: nat, st: State, rendered: seq<bool>, index: seq<nat>, next: seq<Option<nat>>,
                list: Option<nat>, tail: Option<nat>, final: map<nat, nat>, e: nat) returns (after: State)
    requires Stands(n, st, rendered, index, next, list, tail, final) && e < n && !rendered[e]
    ensures after == Queued(st, e) && after.out == st.out && after.dead == st.dead && (tail.Some? ==> tail.value < |next|)
    ensures Stands(n, after, rendered[e := true], index, Linked(next, tail, e), if tail.None? then Some(e) else list, Some(e), final)
  {
    after := Queued(st, e);
    FlagsMore(rendered, st.rendered, e);
    if tail.Some? { LinksMore(next, st.links, final, tail.value, e); }
  }

  lemma WhenBelow(b: bool, op: Op, then_: Plan, bodies: set<nat>, rank: Ranks, bound: nat)
    requires Below(then_, bodies, rank, bound)
    ensures Below(When(b, op, then_), bodies, rank, bound)
  {
  }

  /** The program is the listing of the root and of the bodies in this order. */
  ghost predicate AsListed(g: Grammar, rank: Ranks, out: seq<Op>, visited: seq<nat>)
    requires Ranked(g, rank)
  {
    (forall e :: e in visited ==> e in Bodies(g, rank)) &&
    L.Lines(out) == L.Code(g, rank, ROOT) + [L.Entry(Complete)] + L.AllBodies(g, rank, visited)
  }

  class Renderer {
    const g: Grammar
    ghost const rank: Ranks
    /** How many entries there are so far. */
    var nrEntries: nat
    /** The entries printed; only the second pass prints. */
    var file: seq<Op>
    /** Of each element: on the list already, where its body begins, the next on the list. */
    var rendered: seq<bool>
    var entryIndex: seq<nat>
    var renderNext: seq<Option<nat>>
    /** The first on the list, and the last, behind which the next one goes. */
    var renderList: Option<nat>
    var renderListP: Option<nat>
    ghost var st: State
    ghost var final: map<nat, nat>

    ghost predicate Represents(out: bool)
      reads this
    {
      Ranked(g, rank) && !st.dead &&
      nrEntries == |st.out| && (out ==> file == st.out) &&
      Stands(|g|, st, rendered, entryIndex, renderNext, renderList, renderListP, final)
    }

    constructor (g: Grammar, ghost rank: Ranks)
      requires Ranked(g, rank)
      ensures this.g == g && this.rank == rank && Represents(true) && st == Start(map[]) && file == []
      ensures forall k :: 0 <= k < |renderNext| ==> renderNext[k] == None
    {
      this.g, this.rank := g, rank;
      nrEntries, file := 0, [];
      rendered, entryIndex, renderNext := seq(|g|, _ => false), seq(|g|, _ => 0), seq(|g|, _ => None);
      renderList, renderListP := None, None;
      st, final := Start(map[]), map[];
    }

    method RenderOpcode(out: bool, op: Op)
      requires Represents(out)
      modifies `file, `nrEntries, `st
      ensures Represents(out) && st == Emitted(old(st), op) && (!out ==> file == old(file))
    {
      if out { file := file + [op]; }
      nrEntries := nrEntries + 1;
      st := Emitted(st, op);
    }

    /** Put an element behind the last one on the list. */
    method Append(out: bool, e: nat)
      requires Represents(out) && e < |g|
      modifies `rendered, `renderNext, `renderList, `renderListP, `st
      ensures Represents(out) && st == Queued(old(st), e)
    {
      if rendered[e] {
        AlreadyQueued(|g|, st, rendered, entryIndex, renderNext, renderList, renderListP, final, e);
      } else {
        ghost var after := Appends(|g|, st, rendered, entryIndex, renderNext, renderList, renderListP, final, e);
        Link(out, e, after);
      }
    }

    method Link(out: bool, e: nat, ghost after: State)
      requires Represents(out) && e < |rendered| && after.out == st.out && !after.dead
      requires renderListP.Some? ==> renderListP.value < |renderNext|
      requires Stands(|g|, after, rendered[e := true], entryIndex, Linked(renderNext, renderListP, e),
                 if renderListP.None? then Some(e) else renderList, Some(e), final)
      modifies `rendered, `renderNext, `renderList, `renderListP, `st
      ensures Represents(out) && st == after
    {
      if renderListP.None? {
        renderList := Some(e);
      } else {
        renderNext := renderNext[renderListP.value := Some(e)];
      }
      rendered := rendered[e := true];
      renderListP := Some(e);
      st := after;
    }

    /** What the rest of a plan comes to. */
    ghost function Ahead(p: Plan, bound: nat): State
      requires Ranked(g, rank) && Below(p, Bodies(g, rank), rank, bound)
      reads this
    {
      Run(g, rank, st, p, bound)
    }

    method Put(out: bool, op: Op, ghost p: Plan, ghost bound: nat)
      requires Represents(out) && Below(p, Bodies(g, rank), rank, bound) && p.Do? && p.item == Emit(op)
      modifies `file, `nrEntries, `st
      ensures Represents(out) && (!out ==> file == old(file))
      ensures Ahead(p.rest, bound) == old(Ahead(p, bound))
    {
      RunStep(g, rank, st, p, bound);
      RenderOpcode(out, op);
    }

    method PutJump(out: bool, e: nat, ghost p: Plan, ghost bound: nat)
      requires Represents(out) && Below(p, Bodies(g, rank), rank, bound) && p.Do? && p.item == Jump(e)
      modifies this
      ensures Represents(out) && (!out ==> file == old(file)) && final == old(final)
      ensures Ahead(p.rest, bound) == old(Ahead(p, bound))
    {
      RunStep(g, rank, st, p, bound);
      ghost var was := st;
      RenderOpcode(out, JumpTo(e, entryIndex[e]));
      Append(out, e);
      assert st == RunItem(g, rank, was, p.item, bound);
    }

    /** A sub-rendering has been done or has failed. */
    twostate predicate DoneWith(out: bool, ok: bool, p: Plan, bound: nat)
      requires Ranked(g, rank) && Below(p, Bodies(g, rank), rank, bound) && p.Do?
      reads this
    {
      (!out ==> file == old(file)) && final == old(final) &&
      if ok then Represents(out) && Ahead(p.rest, bound) == old(Ahead(p, bound))
      else st == old(Ahead(p, bound)) && st.dead
    }

    method PutSub(out: bool, e: nat, tag: Option<nat>, ghost p: Plan, ghost bound: nat) returns (ok: bool)
      requires Represents(out) && Below(p, Bodies(g, rank), rank, bound) && p.Do? && p.item == Sub(e, tag)
      modifies this
      ensures DoneWith(out, ok, p, bound)
      decreases bound, 0
    {
      RunStep(g, rank, st, p, bound);
      ok := RenderElement(out, e, tag);
      if !ok { DeadStays(g, rank, st, p.rest, bound); }
    }

    method PutLoop(out: bool, e: nat, end: Op, ghost p: Plan, ghost bound: nat) returns (ok: bool)
      requires Represents(out) && Below(p, Bodies(g, rank), rank, bound) && p.Do? && p.item == Loop(e, end)
      modifies this
      ensures DoneWith(out, ok, p, bound)
      decreases bound, 0
    {
      RunStep(g, rank, st, p, bound);
      ghost var was := st;
      var entry := nrEntries;
      ok := RenderElement(out, e, None);
      if ok {
        RenderOpcode(out, end);
        RenderOpcode(out, JumpBack(entry));
        assert st == RunItem(g, rank, was, p.item, bound);
      } else {
        assert st == RunItem(g, rank, was, p.item, bound);
        DeadStays(g, rank, st, p.rest, bound);
      }
    }

    method PutWhen(out: bool, b: bool, op: Op, ghost then_: Plan, ghost bound: nat)
      requires Represents(out) && Below(When(b, op, then_), Bodies(g, rank), rank, bound) && Below(then_, Bodies(g, rank), rank, bound)
      modifies `file, `nrEntries, `st
      ensures Represents(out) && (!out ==> file == old(file))
      ensures Ahead(then_, bound) == old(Ahead(When(b, op, then_), bound))
    {
      if b { Put(out, op, Do(Emit(op), then_), bound); }
    }

    method PutHead(out: bool, e: nat, tag: Option<nat>, jump: bool, act: bool, ghost then_: Plan, ghost bound: nat)
      requires Represents(out) && InGrammar(g, e, tag) && Below(HeadPlan(g, e, tag, jump, act, then_), Bodies(g, rank), rank, bound)
      modifies `file, `nrEntries, `st
      ensures Represents(out) && (!out ==> file == old(file)) && Below(then_, Bodies(g, rank), rank, bound)
      ensures Ahead(then_, bound) == old(Ahead(HeadPlan(g, e, tag, jump, act, then_), bound))
    {
      var skip := Skippable(g, e, tag);
      ghost var second := Do(Emit(TagOp(g, e, tag)), then_);
      assert Below(second, Bodies(g, rank), rank, bound);
      Put(out, Match(Conditional(g, e, tag), jump, act, skip), HeadPlan(g, e, tag, jump, act, then_), bound);
      Put(out, TagOp(g, e, tag), second, bound);
    }

    /** The end of a plan has been reached, or there was a failure on the way. */
    twostate predicate Finished(out: bool, ok: bool, p: Plan, then_: Plan, bound: nat)
      requires Ranked(g, rank) && Below(p, Bodies(g, rank), rank, bound) && Below(then_, Bodies(g, rank), rank, bound)
      reads this
    {
      (!out ==> file == old(file)) && final == old(final) &&
      if ok then Represents(out) && Ahead(then_, bound) == old(Ahead(p, bound))
      else st == old(Ahead(p, bound)) && st.dead
    }

    method RenderChildren(out: bool, cs: seq<nat>, tagged: bool, ghost then_: Plan, ghost bound: nat) returns (ok: bool)
      requires Represents(out) && Below(Subs(cs, tagged, then_), Bodies(g, rank), rank, bound) && Below(then_, Bodies(g, rank), rank, bound)
      modifies this
      ensures Finished(out, ok, Subs(cs, tagged, then_), then_, bound)
      decreases bound, 1
    {
      assert cs[0..] == cs;
      for i := 0 to |cs|
        invariant Represents(out) && (!out ==> file == old(file)) && final == old(final)
        invariant Below(Subs(cs[i..], tagged, then_), Bodies(g, rank), rank, bound)
        invariant Ahead(Subs(cs[i..], tagged, then_), bound) == old(Ahead(Subs(cs, tagged, then_), bound))
      {
        assert cs[i..][1..] == cs[i + 1..];
        var tag := if tagged then Some(cs[i]) else None;
        ok := PutSub(out, cs[i], tag, Subs(cs[i..], tagged, then_), bound);
        if !ok { return; }
      }
      ok := true;
    }

    /** The action that ends every element. */
    method PutLast(out: bool, e: nat, ghost bound: nat)
      requires Represents(out) && e < |g| && Below(LastPlan(g, e), Bodies(g, rank), rank, bound)
      modifies `file, `nrEntries, `st
      ensures Represents(out) && (!out ==> file == old(file)) && st == old(Ahead(LastPlan(g, e), bound))
    {
      PutWhen(out, g[e].action, Action(e), Done, bound);
    }

    method RenderSequence(out: bool, e: nat, tag: Option<nat>, ghost bound: nat) returns (ok: bool)
      requires Represents(out) && InGrammar(g, e, tag) && Below(SequencePlan(g, e, tag), Bodies(g, rank), rank, bound)
      modifies this
      ensures Finished(out, ok, SequencePlan(g, e, tag), Done, bound)
      decreases bound, 2
    {
      var late, x := OutOfLine(g, e, tag), g[e];
      ghost var close := Do(Emit(EndSeq(x.action)), LastPlan(g, e));
      ghost var body := if late then Do(Jump(e), Done) else Subs(x.children, false, close);
      assert Below(close, Bodies(g, rank), rank, bound);
      PutHead(out, e, tag, late, false, body, bound);
      if late {
        PutJump(out, e, body, bound);
        return true;
      }
      ok := RenderChildren(out, x.children, false, close, bound);
      if ok {
        Put(out, EndSeq(x.action), close, bound);
        PutLast(out, e, bound);
      }
    }

    method RenderRepeat(out: bool, e: nat, tag: Option<nat>, ghost bound: nat) returns (ok: bool)
      requires Represents(out) && InGrammar(g, e, tag) && g[e].children != [] && Below(RepeatPlan(g, e, tag), Bodies(g, rank), rank, bound)
      modifies this
      ensures Finished(out, ok, RepeatPlan(g, e, tag), Done, bound)
      decreases bound, 2
    {
      var late, x := OutOfLine(g, e, tag), g[e];
      ghost var around := Do(Loop(x.children[0], EndOf(x.kind, x.action)), LastPlan(g, e));
      ghost var body := if late then Do(Jump(e), Done) else around;
      PutHead(out, e, tag, late, false, body, bound);
      if late {
        PutJump(out, e, body, bound);
        return true;
      }
      ok := PutLoop(out, x.children[0], EndOf(x.kind, x.action), around, bound);
      if ok { PutLast(out, e, bound); }
    }

    method RenderChoice(out: bool, e: nat, tag: Option<nat>, ghost bound: nat) returns (ok: bool)
      requires Represents(out) && InGrammar(g, e, tag) && Below(ChoicePlan(g, e, tag), Bodies(g, rank), rank, bound)
      modifies this
      ensures Finished(out, ok, ChoicePlan(g, e, tag), Done, bound)
      decreases bound, 2
    {
      var skip, x := Skippable(g, e, tag), g[e];
      ghost var act := When(x.action, Act(false), LastPlan(g, e));
      ghost var close := When(!skip, CondFail, act);
      WhenBelow(x.action, Action(e), Done, Bodies(g, rank), rank, bound);
      WhenBelow(x.action, Act(false), LastPlan(g, e), Bodies(g, rank), rank, bound);
      WhenBelow(!skip, CondFail, act, Bodies(g, rank), rank, bound);
      ok := RenderChildren(out, x.children, true, close, bound);
      if ok {
        PutWhen(out, !skip, CondFail, act, bound);
        PutWhen(out, x.action, Act(false), LastPlan(g, e), bound);
        PutLast(out, e, bound);
      }
    }

    method RenderReferred(out: bool, e: nat, tag: Option<nat>, ghost after: Plan, ghost bound: nat) returns (ok: bool)
      requires Represents(out) && InGrammar(g, e, tag) && Below(RefPlan(g, e, tag), Bodies(g, rank), rank, bound)
      requires Below(after, Bodies(g, rank), rank, bound) && after == When(g[e].action, Act(Skippable(g, e, tag)), LastPlan(g, e))
      modifies this
      ensures Finished(out, ok, RefPlan(g, e, tag), after, bound)
      decreases bound, 2
    {
      var x := g[e];
      if x.bare {
        ok := PutSub(out, x.refers, tag, Do(Sub(x.refers, tag), after), bound);
      } else {
        PutHead(out, e, tag, false, x.action, Do(Sub(x.refers, None), after), bound);
        ok := PutSub(out, x.refers, None, Do(Sub(x.refers, None), after), bound);
      }
    }

    method RenderRef(out: bool, e: nat, tag: Option<nat>, ghost bound: nat) returns (ok: bool)
      requires Represents(out) && InGrammar(g, e, tag) && Below(RefPlan(g, e, tag), Bodies(g, rank), rank, bound)
      modifies this
      ensures Finished(out, ok, RefPlan(g, e, tag), Done, bound)
      decreases bound, 3
    {
      var skip, x := Skippable(g, e, tag), g[e];
      ghost var after := When(x.action, Act(skip), LastPlan(g, e));
      assert Below(after, Bodies(g, rank), rank, bound);
      ok := RenderReferred(out, e, tag, after, bound);
      if ok {
        PutWhen(out, x.action, Act(skip), LastPlan(g, e), bound);
        PutLast(out, e, bound);
      }
    }

    method RenderAny(out: bool, e: nat, tag: Option<nat>, ghost bound: nat)
      requires Represents(out) && InGrammar(g, e, tag) && Below(PlanOf(g, e, tag), Bodies(g, rank), rank, bound) && g[e].kind.Any?
      modifies `file, `nrEntries, `st
      ensures Represents(out) && (!out ==> file == old(file)) && st == old(Ahead(PlanOf(g, e, tag), bound))
    {
      Put(out, MatchAny(Conditional(g, e, tag), g[e].action, Skippable(g, e, tag)), PlanOf(g, e, tag), bound);
      PutLast(out, e, bound);
    }

    method RenderLeaf(out: bool, e: nat, tag: Option<nat>, ghost bound: nat)
      requires Represents(out) && InGrammar(g, e, tag) && Below(PlanOf(g, e, tag), Bodies(g, rank), rank, bound) && g[e].kind.NotCompound?
      modifies `file, `nrEntries, `st
      ensures Represents(out) && (!out ==> file == old(file)) && st == old(Ahead(PlanOf(g, e, tag), bound))
    {
      PutHead(out, e, tag, false, g[e].action, LastPlan(g, e), bound);
      PutLast(out, e, bound);
    }

    method RenderSet(out: bool, e: nat, tag: Option<nat>, ghost bound: nat)
      requires Represents(out) && InGrammar(g, e, tag) && Below(SetPlan(g, e, tag), Bodies(g, rank), rank, bound)
      modifies `file, `nrEntries, `st
      ensures (!out ==> file == old(file)) && st == old(Ahead(SetPlan(g, e, tag), bound)) && st.dead
    {
      PutHead(out, e, tag, OutOfLine(g, e, tag), false, Do(Fail, Done), bound);
      RunFail(g, rank, st, bound);
      st := st.(dead := true);
    }

    method RenderElement(out: bool, e: nat, tag: Option<nat>) returns (ok: bool)
      requires Represents(out) && Place(e, tag) in rank
      modifies this
      ensures (!out ==> file == old(file)) && final == old(final)
      ensures st == old(Ahead(PlanOf(g, e, tag), rank[Place(e, tag)])) && (if ok then Represents(out) else st.dead)
      decreases rank[Place(e, tag)], 4
    {
      ghost var bound := rank[Place(e, tag)];
      assert RankFalls(g, rank, Place(e, tag)) && GoodElement(g, e);
      match g[e].kind {
        case Any => RenderAny(out, e, tag, bound); ok := true;
        case TagOverride => ok := PutSub(out, g[e].children[0], Some(e), PlanOf(g, e, tag), bound);
        case NotCompound => RenderLeaf(out, e, tag, bound); ok := true;
        case Set => RenderSet(out, e, tag, bound); ok := false;
        case Sequence => ok := RenderSequence(out, e, tag, bound);
        case SequenceOf => ok := RenderRepeat(out, e, tag, bound);
        case SetOf => ok := RenderRepeat(out, e, tag, bound);
        case Choice => ok := RenderChoice(out, e, tag, bound);
        case TypeRef => ok := RenderRef(out, e, tag, bound);
      }
    }

    // ----- The work list -----

    /** Take the first element off the list; its body begins here.  The link read may date from
        the first pass, and is right all the same. */
    method Pop(out: bool) returns (e: nat)
      requires Represents(out) && Valid(st, Bodies(g, rank)) && st.queue != [] && LinkOf(final, st.queue[0]) == LinkOf(st.links, st.queue[0])
      modifies `renderList, `renderListP, `entryIndex, `st
      ensures Represents(out) && e == old(st.queue[0]) && e < |g| && st == Popped(old(st))
    {
      FirstIn(st, Bodies(g, rank));
      ghost var first, after, index := Pops(|g|, Bodies(g, rank), st, rendered, entryIndex, renderNext, renderList, renderListP, final);
      e := Unlink(out, after, index);
    }

    /** The first element comes off, and its place is recorded. */
    method Unlink(out: bool, ghost after: State, ghost index: seq<nat>) returns (e: nat)
      requires Represents(out) && renderList.Some? && renderList.value < |renderNext| && renderList.value < |entryIndex|
      requires after.out == st.out && !after.dead && index == entryIndex[renderList.value := nrEntries]
      requires
        var next := renderNext[renderList.value];
        Stands(|g|, after, rendered, index, renderNext, next, if next.None? then None else renderListP, final)
      modifies `renderList, `renderListP, `entryIndex, `st
      ensures Represents(out) && st == after && Some(e) == old(renderList)
    {
      e := renderList.value;
      renderList := renderNext[e];
      if renderList.None? { renderListP := None; }
      entryIndex := entryIndex[e := nrEntries];
      st := after;
    }

    /** The end of a body. */
    method PutEnd(out: bool, e: nat, entry: nat)
      requires Represents(out) && e < |g| && Below(EndPlan(g, e, entry), Bodies(g, rank), rank, Top(rank))
      modifies `file, `nrEntries, `st
      ensures Represents(out) && (!out ==> file == old(file)) && st == old(Ahead(EndPlan(g, e, entry), Top(rank)))
    {
      var x := g[e];
      ghost var close, top := ClosePlan(g, e), Top(rank);
      EndBelow(g, rank, e, entry);
      match x.kind {
        case Sequence => Put(out, EndSeq(x.action), EndPlan(g, e, entry), top);
        case SequenceOf => PutRepeatEnd(out, EndSeqOf(x.action), entry, close, top);
        case Set => Put(out, EndSet(x.action), EndPlan(g, e, entry), top);
        case SetOf => PutRepeatEnd(out, EndSetOf(x.action), entry, close, top);
        case _ =>
      }
      PutWhen(out, x.action, Action(e), Do(Emit(Return), Done), top);
      Put(out, Return, Do(Emit(Return), Done), top);
    }

    method PutRepeatEnd(out: bool, end: Op, entry: nat, ghost close: Plan, ghost bound: nat)
      requires Represents(out) && Below(close, Bodies(g, rank), rank, bound)
      requires Below(Do(Emit(end), Do(Emit(JumpBack(entry)), close)), Bodies(g, rank), rank, bound)
      modifies `file, `nrEntries, `st
      ensures Represents(out) && (!out ==> file == old(file))
      ensures Ahead(close, bound) == old(Ahead(Do(Emit(end), Do(Emit(JumpBack(entry)), close)), bound))
    {
      ghost var back := Do(Emit(JumpBack(entry)), close);
      assert Below(back, Bodies(g, rank), rank, bound);
      Put(out, end, Do(Emit(end), back), bound);
      Put(out, JumpBack(entry), back, bound);
    }

    method RenderBody(out: bool, e: nat, entry: nat) returns (ok: bool)
      requires Represents(out) && e < |g| && Below(BodyPlan(g, e, entry), Bodies(g, rank), rank, Top(rank))
      modifies this
      ensures Finished(out, ok, BodyPlan(g, e, entry), Done, Top(rank))
    {
      EndBelow(g, rank, e, entry);
      ok := RenderChildren(out, g[e].children, false, EndPlan(g, e, entry), Top(rank));
      if ok { PutEnd(out, e, entry); }
    }

    /** One element of the list. */
    method RenderNext(out: bool) returns (ok: bool)
      requires Represents(out) && Valid(st, Bodies(g, rank)) && st.queue != [] && LinkOf(final, st.queue[0]) == LinkOf(st.links, st.queue[0])
      modifies this
      ensures (!out ==> file == old(file)) && final == old(final)
      ensures st == Next(g, rank, old(st)) && (if ok then Represents(out) else st.dead)
    {
      var entry := nrEntries;
      BodyBelow(g, rank, st.queue[0], entry);
      var e := Pop(out);
      ok := RenderBody(out, e, entry);
    }

    /** Until the list is empty; finish is the state in which a pass that goes on from here ends. */
    method RenderOutOfLineList(out: bool, ghost finish: State) returns (ok: bool)
      requires Represents(out) && Valid(st, Bodies(g, rank)) && finish == RunList(g, rank, st) && final == finish.links
      modifies this
      ensures (!out ==> file == old(file)) && final == old(final)
      ensures st == finish && (if ok then Represents(out) else st.dead)
    {
      while renderList.Some?
        invariant Represents(out) && Valid(st, Bodies(g, rank)) && finish == RunList(g, rank, st) && final == finish.links
        invariant !out ==> file == old(file)
        decreases Pending(st, Bodies(g, rank))
      {
        FirstLinkStays(g, rank, st);
        ok := RenderNext(out);
        if !ok { return; }
      }
      ok := true;
    }

    /** One pass, on cleared flags, with whatever links an earlier pass has left. */
    method RenderPass(out: bool, ghost finish: State) returns (ok: bool)
      requires Represents(out) && (exists entry :: st == Start(entry)) && finish == Pass(g, rank, st.entry) && final == finish.links
      modifies this
      ensures (!out ==> file == old(file)) && final == old(final)
      ensures st == finish && (if ok then Represents(out) else st.dead)
    {
      ghost var entry := st.entry;
      assert st == Start(entry);
      ok := RenderElement(out, 0, None);
      if !ok { return; }
      assert Inline(g, rank, entry) == Emitted(st, Complete);
      RenderOpcode(out, Complete);
      ok := RenderOutOfLineList(out, finish);
    }

    /** Clear the flags and the count between the passes; links and places stay. */
    method Clear(ghost finish: State)
      requires Represents(false) && st.queue == [] && final == st.links && finish.links == final && file == []
      modifies this
      ensures Represents(true) && st == Start(old(st.entry)) && final == finish.links
    {
      rendered := seq(|g|, _ => false);
      nrEntries := 0;
      st := Start(st.entry);
    }

    /** Both passes: the program printed is that of the second pass. */
    method Render() returns (ok: bool)
      requires Represents(false) && file == [] && st == Start(map[]) && forall k :: 0 <= k < |renderNext| ==> renderNext[k] == None
      modifies this
      ensures ok <==> !Pass(g, rank, map[]).dead
      ensures ok ==> file == Pass(g, rank, Pass(g, rank, map[]).entry).out
      ensures ok ==> AsListed(g, rank, file, Pass(g, rank, Pass(g, rank, map[]).entry).visited)
    {
      ghost var one := Pass(g, rank, map[]);
      ghost var two := Pass(g, rank, one.entry);
      PassesAgree(g, rank);
      final := one.links;
      ok := RenderPass(false, one);
      if !ok { return; }
      Clear(two);
      ok := RenderPass(true, two);
      if ok { L.ProgramListed(g, rank, one.entry); }
    }
  }

  lemma FirstIn(st: State, bodies: set<nat>)
    requires Valid(st, bodies) && st.queue != []
    ensures st.queue[0] in bodies
  {
    assert st.queue[0] in st.queue;
  }

  lemma EntriesMore(index: seq<nat>, entry: map<nat, nat>, e: nat, at: nat)
    requires Entries(index, entry) && e < |index|
    ensures Entries(index[e := at], entry[e := at])
  {
  }

  /** The link of the first element on the list leads to the second. */
  lemma FirstLink(queue: seq<nat>, links: map<nat, nat>, rendered: set<nat>)
    requires queue != [] && Chained(queue, links, rendered)
    ensures Ends(LinkOf(links, queue[0]), if LinkOf(links, queue[0]).None? then None else Some(Last(queue)), queue[1..])
  {
  }

  /** It is the same in the final state. */
  lemma FirstLinkStays(g: Grammar, rank: Ranks, st: State)
    requires Ranked(g, rank) && Valid(st, Bodies(g, rank)) && !st.dead && st.queue != []
    ensures LinkOf(RunList(g, rank, st).links, st.queue[0]) == LinkOf(st.links, st.queue[0])
  {
    var next := Next(g, rank, st);
    NextLater(g, rank, st);
    ListLater(g, rank, next);
    LinkKept(Popped(st), next, RunList(g, rank, st), st.queue[0]);
  }

  lemma LinkKept(a: State, b: State, c: State, k: nat)
    requires Later(a, b) && Later(b, c) && k in a.visited
    ensures LinkOf(c.links, k) == LinkOf(a.links, k)
  {
    LaterTransitive(a, b, c);
  }
}
