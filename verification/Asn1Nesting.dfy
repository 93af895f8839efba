/** Which grammars have ranks: exactly those in which only boundedly many elements are rendered
    inside one another. */
module Asn1Nesting {
  import opened Asn1Render
  import opened Wrappers

  /** Rendering at the place calls itself at most depth deep. */
  ghost predicate Nests(g: Grammar, p: Place, depth: nat)
    decreases depth, 1, Done
  {
    InGrammar(g, p.element, p.tag) && depth > 0 && PlanNests(g, PlanOf(g, p.element, p.tag), depth - 1)
  }

  ghost predicate PlanNests(g: Grammar, p: Plan, depth: nat)
    decreases depth, 2, p
  {
    p.Do? ==>
      (match p.item
       case Sub(e, tag) => Nests(g, Place(e, tag), depth)
       case Loop(e, _) => Nests(g, Place(e, None), depth)
       case _ => true) &&
      PlanNests(g, p.rest, depth)
  }

  /** The places that rendering can come to: from the root, to what is rendered on the spot and to
      the children of what is jumped to. */
  ghost predicate ClosedUnder(g: Grammar, places: set<Place>) {
    WellFormed(g) && ROOT in places &&
    forall p :: p in places ==> InGrammar(g, p.element, p.tag) && StaysIn(g, PlanOf(g, p.element, p.tag), places)
  }

  ghost predicate StaysIn(g: Grammar, p: Plan, places: set<Place>) {
    p.Do? ==>
      (match p.item
       case Sub(e, tag) => Place(e, tag) in places
       case Loop(e, _) => Place(e, None) in places
       case Jump(e) => e < |g| && forall c :: c in g[e].children ==> Place(c, None) in places
       case _ => true) &&
      StaysIn(g, p.rest, places)
  }

  lemma {:induction false} NestsDeeper(g: Grammar, p: Place, d: nat, depth: nat)
    requires Nests(g, p, d) && d <= depth
    ensures Nests(g, p, depth)
    decreases d, 1, Done
  {
    PlanNestsDeeper(g, PlanOf(g, p.element, p.tag), d - 1, depth - 1);
  }

  lemma {:induction false} PlanNestsDeeper(g: Grammar, p: Plan, d: nat, depth: nat)
    requires PlanNests(g, p, d) && d <= depth
    ensures PlanNests(g, p, depth)
    decreases d, 2, p
  {
    if p.Do? {
      match p.item {
        case Sub(e, tag) => NestsDeeper(g, Place(e, tag), d, depth);
        case Loop(e, _) => NestsDeeper(g, Place(e, None), d, depth);
        case _ =>
      }
      PlanNestsDeeper(g, p.rest, d, depth);
    }
  }

  // ----- From bounded nesting to ranks -----

  /** The least depth that is enough. */
  ghost function Least(g: Grammar, p: Place, depth: nat): (d: nat)
    requires Nests(g, p, depth)
    ensures Nests(g, p, d) && d <= depth && (d > 0 ==> !Nests(g, p, d - 1))
    decreases depth
  {
    if depth > 0 && Nests(g, p, depth - 1) then Least(g, p, depth - 1) else depth
  }

  lemma LeastIsLeast(g: Grammar, p: Place, depth: nat, d: nat)
    requires Nests(g, p, depth) && Nests(g, p, d)
    ensures Least(g, p, depth) <= d
  {
    var l := Least(g, p, depth);
    if d < l { NestsDeeper(g, p, d, l - 1); }
  }

  ghost predicate AllNest(g: Grammar, places: set<Place>, depth: nat) {
    forall p :: p in places ==> Nests(g, p, depth)
  }

  ghost function Depths(g: Grammar, places: set<Place>, depth: nat): (rank: Ranks)
    requires AllNest(g, places, depth)
    ensures rank.Keys == places && forall p :: p in places ==> rank[p] == Least(g, p, depth)
  {
    map p | p in places :: Least(g, p, depth)
  }

  lemma {:induction false} PlanBelow(g: Grammar, places: set<Place>, depth: nat, p: Plan, d: nat)
    requires AllNest(g, places, depth) && StaysIn(g, p, places) && PlanNests(g, p, d)
    ensures Below(p, Bodies(g, Depths(g, places, depth)), Depths(g, places, depth), d + 1)
    decreases p
  {
    if p.Do? {
      match p.item {
        case Sub(e, tag) => LeastIsLeast(g, Place(e, tag), depth, d);
        case Loop(e, _) => LeastIsLeast(g, Place(e, None), depth, d);
        case _ =>
      }
      PlanBelow(g, places, depth, p.rest, d);
    }
  }

  lemma DepthsRank(g: Grammar, places: set<Place>, depth: nat)
    requires ClosedUnder(g, places) && AllNest(g, places, depth)
    ensures Ranked(g, Depths(g, places, depth))
  {
    var rank := Depths(g, places, depth);
    forall p | p in rank ensures RankFalls(g, rank, p) {
      PlanBelow(g, places, depth, PlanOf(g, p.element, p.tag), rank[p] - 1);
    }
  }

  // ----- From ranks to bounded nesting -----

  lemma {:induction false} RanksNest(g: Grammar, rank: Ranks, p: Place)
    requires Ranked(g, rank) && p in rank
    ensures Nests(g, p, rank[p] + 1)
    decreases rank[p], 1, Done
  {
    assert RankFalls(g, rank, p);
    PlanRanksNest(g, rank, PlanOf(g, p.element, p.tag), rank[p]);
  }

  lemma {:induction false} PlanRanksNest(g: Grammar, rank: Ranks, p: Plan, bound: nat)
    requires Ranked(g, rank) && Below(p, Bodies(g, rank), rank, bound)
    ensures PlanNests(g, p, bound)
    decreases bound, 0, p
  {
    if p.Do? {
      match p.item {
        case Sub(e, tag) =>
          RanksNest(g, rank, Place(e, tag));
          NestsDeeper(g, Place(e, tag), rank[Place(e, tag)] + 1, bound);
        case Loop(e, _) =>
          RanksNest(g, rank, Place(e, None));
          NestsDeeper(g, Place(e, None), rank[Place(e, None)] + 1, bound);
        case _ =>
      }
      PlanRanksNest(g, rank, p.rest, bound);
    }
  }

  lemma RanksNestTo(g: Grammar, rank: Ranks, p: Place, top: nat)
    requires Ranked(g, rank) && p in rank && rank[p] < top
    ensures Nests(g, p, top)
  {
    RanksNest(g, rank, p);
    NestsDeeper(g, p, rank[p] + 1, top);
  }

  lemma RanksAllNest(g: Grammar, rank: Ranks)
    requires Ranked(g, rank)
    ensures AllNest(g, rank.Keys, Top(rank))
  {
    var top := Top(rank);
    forall p | p in rank.Keys ensures Nests(g, p, top) {
      RanksNestTo(g, rank, p, top);
    }
  }

  /** Ranks for the places that rendering comes to exist exactly when there is a depth that no
      nesting of elements rendered on the spot exceeds. */
  lemma RankedExactly(g: Grammar, places: set<Place>)
    requires ClosedUnder(g, places)
    ensures (exists rank :: Ranked(g, rank) && rank.Keys == places) <==> (exists depth: nat :: AllNest(g, places, depth))
  {
    if depth: nat :| AllNest(g, places, depth) {
      DepthsRank(g, places, depth);
    }
    if rank :| Ranked(g, rank) && rank.Keys == places {
      RanksAllNest(g, rank);
    }
  }

  // ----- A recursive type -----

  /** A sequence holding a choice between a number and the sequence itself. */
  function Recursive(): Grammar {
    [Element(Sequence, false, false, false, false, false, false, [1], 0),
     Element(Choice, false, false, false, false, false, false, [2, 3], 0),
     Element(NotCompound, true, false, false, false, false, false, [], 0),
     Element(TypeRef, true, true, false, false, false, true, [], 0)]
  }

  function RecursiveRanks(): Ranks {
    map[Place(0, Some(3)) := 0, Place(3, Some(3)) := 1, Place(2, Some(2)) := 0, Place(1, None) := 2, ROOT := 3]
  }

  lemma HeadBelow(g: Grammar, e: nat, tag: Option<nat>, jump: bool, then_: Plan, bodies: set<nat>, rank: Ranks, bound: nat)
    requires InGrammar(g, e, tag) && Below(then_, bodies, rank, bound)
    ensures Below(HeadPlan(g, e, tag, jump, false, then_), bodies, rank, bound)
  {
    assert Below(Do(Emit(TagOp(g, e, tag)), then_), bodies, rank, bound);
  }

  lemma RecursiveBody()
    ensures WellFormed(Recursive()) && 0 in Bodies(Recursive(), RecursiveRanks())
  {
    assert Recursive()[0].children == [1];
  }

  /** At the root the sequence is rendered on the spot. */
  lemma SequenceAtRoot()
    requires WellFormed(Recursive())
    ensures RankFalls(Recursive(), RecursiveRanks(), ROOT)
  {
    var g, rank := Recursive(), RecursiveRanks();
    var end := Do(Emit(EndSeq(false)), Done);
    assert Below(end, Bodies(g, rank), rank, 3);
    assert Subs([1], false, end) == Do(Sub(1, None), Subs([], false, end));
    HeadBelow(g, 0, None, false, Do(Sub(1, None), end), Bodies(g, rank), rank, 3);
    assert PlanOf(g, 0, None) == SequencePlan(g, 0, None) == HeadPlan(g, 0, None, false, false, Do(Sub(1, None), end));
  }

  /** Behind the alternative it is jumped to. */
  lemma SequenceInChoice()
    requires WellFormed(Recursive()) && 0 in Bodies(Recursive(), RecursiveRanks())
    ensures RankFalls(Recursive(), RecursiveRanks(), Place(0, Some(3)))
  {
    var g, rank := Recursive(), RecursiveRanks();
    HeadBelow(g, 0, Some(3), true, Do(Jump(0), Done), Bodies(g, rank), rank, 0);
    assert PlanOf(g, 0, Some(3)) == SequencePlan(g, 0, Some(3)) == HeadPlan(g, 0, Some(3), true, false, Do(Jump(0), Done));
  }

  lemma ChoiceFalls()
    requires WellFormed(Recursive())
    ensures RankFalls(Recursive(), RecursiveRanks(), Place(1, None))
  {
    var g, rank := Recursive(), RecursiveRanks();
    var end := Do(Emit(CondFail), Done);
    assert Subs([3], true, end) == Do(Sub(3, Some(3)), end) by { assert [3][1..] == []; }
    assert Subs([2, 3], true, end) == Do(Sub(2, Some(2)), Subs([3], true, end)) by { assert [2, 3][1..] == [3]; }
    assert Below(end, Bodies(g, rank), rank, 2);
    assert Below(Subs([3], true, end), Bodies(g, rank), rank, 2);
    assert PlanOf(g, 1, None) == ChoicePlan(g, 1, None) == Subs([2, 3], true, end);
  }

  lemma AlternativesFall()
    requires WellFormed(Recursive())
    ensures RankFalls(Recursive(), RecursiveRanks(), Place(2, Some(2)))
    ensures RankFalls(Recursive(), RecursiveRanks(), Place(3, Some(3)))
  {
    var g, rank := Recursive(), RecursiveRanks();
    HeadBelow(g, 2, Some(2), false, Done, Bodies(g, rank), rank, 0);
  }

  /** The choice makes the inner sequence skippable, so it is jumped to and the recursion ends. */
  lemma RecursiveRanked()
    ensures Ranked(Recursive(), RecursiveRanks())
  {
    RecursiveBody();
    SequenceAtRoot();
    SequenceInChoice();
    ChoiceFalls();
    AlternativesFall();
  }
}
