/** No plan uses fewer stages than the search reports. */
module PipelinePlans {
  // A finished plan is replayed node by node.  At node `i` each of its pipelines is a slot: not begun, open
  // with some layers missing, or closed.  The slots of a plan at `i` are one of the states of the search, and
  // the plan's next step is one of its choices.

  import opened Ordering
  import opened Outcomes
  import opened PipelineSearch

  datatype Slot = Fresh | Open(missing: int) | Closed

  /** How many of the pipeline's nodes come before node `i`. */
  function Passed(p: seq<nat>, i: nat): (d: nat)
    ensures d <= |p|
  {
    if p == [] then 0 else if p[|p| - 1] < i then |p| else Passed(p[..|p| - 1], i)
  }

  lemma {:induction false} PassedSplits(p: seq<nat>, i: nat)
    requires Increasing(p)
    ensures forall q :: 0 <= q < Passed(p, i) ==> p[q] < i
    ensures forall q :: Passed(p, i) <= q < |p| ==> i <= p[q]
  {
    if p != [] {
      if p[|p| - 1] < i {
        assert forall q :: 0 <= q < |p| - 1 ==> p[q] < p[|p| - 1];
      } else {
        PassedSplits(p[..|p| - 1], i);
      }
    }
  }

  function SlotOf(s: Search, p: seq<nat>, i: nat): Slot
    requires Within(s, p)
  {
    var d := Passed(p, i);
    if d == 0 then Fresh else if d == |p| then Closed else Open(Residual(s, p[..d]))
  }

  function SlotsOf(s: Search, plan: seq<seq<nat>>, i: nat): (slots: seq<Slot>)
    requires forall p :: 0 <= p < |plan| ==> Within(s, plan[p])
    ensures |slots| == |plan|
    ensures forall p :: 0 <= p < |plan| ==> slots[p] == SlotOf(s, plan[p], i)
  {
    seq(|plan|, p requires 0 <= p < |plan| => SlotOf(s, plan[p], i))
  }

  function Left(plan: seq<seq<nat>>, i: nat): nat {
    if plan == [] then 0 else |plan[0]| - Passed(plan[0], i) + Left(plan[1..], i)
  }

  /** What the next node does to the slot of the pipeline it joins. */
  function Advance(s: Search, slot: Slot, node: Caps): Slot
    requires !slot.Closed?
  {
    var r := if slot.Fresh? then s.layers - node.endpoint else After(slot.missing, node);
    if r <= 0 then Closed else Open(r)
  }

  // ----- slots as a search state -----

  function MissingOf(slot: Slot): multiset<int> {
    if slot.Open? then multiset{slot.missing} else multiset{}
  }

  function Missing(slots: seq<Slot>): multiset<int> {
    if slots == [] then multiset{} else MissingOf(slots[0]) + Missing(slots[1..])
  }

  function ClosedCount(slots: seq<Slot>): nat {
    if slots == [] then 0
    else (if slots[0].Closed? then 1 else 0) + ClosedCount(slots[1..])
  }

  /** The state describes the slots: it forgets only which pipeline misses what. */
  ghost predicate Describes(st: State, slots: seq<Slot>) {
    multiset(st.open) == Missing(slots) && st.finished == ClosedCount(slots)
  }

  lemma {:induction false} UpdatedSlot(slots: seq<Slot>, p: nat, slot: Slot)
    requires p < |slots|
    ensures Missing(slots[p := slot]) + MissingOf(slots[p]) == Missing(slots) + MissingOf(slot)
    ensures ClosedCount(slots[p := slot]) ==
            ClosedCount(slots) - (if slots[p].Closed? then 1 else 0) + (if slot.Closed? then 1 else 0)
  {
    var updated := slots[p := slot];
    if p == 0 {
      assert updated[1..] == slots[1..];
      Swap(MissingOf(slot), Missing(slots[1..]), MissingOf(slots[0]));
    } else {
      UpdatedSlot(slots[1..], p - 1, slot);
      assert updated[1..] == slots[1..][p - 1 := slot];
      Extend(MissingOf(slots[0]), Missing(updated[1..]), MissingOf(slots[p]), Missing(slots[1..]), MissingOf(slot));
    }
  }

  lemma AssignExchanges(s: Search, st: State, j: nat)
    requires st.i < |s.fleet| && j < |st.open|
    ensures multiset(AssignState(s, st, j).open) + multiset{st.open[j]} ==
            multiset(st.open) + MissingOf(Advance(s, Open(st.open[j]), s.fleet[st.i]))
  {
    var r := After(st.open[j], s.fleet[st.i]);
    RemoveAtTakesOne(st.open, j);
    if r <= 0 {
      AddNone(multiset(st.open));
    } else {
      SortSorts(st.open[j := r]);
      UpdateExchanges(st.open, j, r);
    }
  }

  lemma StartAdds(s: Search, st: State)
    requires st.i < |s.fleet|
    ensures multiset(StartState(s, st).open) ==
            multiset(st.open) + MissingOf(Advance(s, Fresh, s.fleet[st.i]))
  {
    var r := s.layers - s.fleet[st.i].endpoint;
    if r > 0 {
      SortSorts(st.open + [r]);
    } else {
      AddNone(multiset(st.open));
    }
  }

  lemma AdvanceOpen(s: Search, st: State, slots: seq<Slot>, p: nat, j: nat)
    requires st.i < |s.fleet| && p < |slots| && Describes(st, slots)
    requires j < |st.open| && slots[p] == Open(st.open[j])
    ensures Describes(AssignState(s, st, j), slots[p := Advance(s, slots[p], s.fleet[st.i])])
  {
    var slots' := slots[p := Advance(s, slots[p], s.fleet[st.i])];
    UpdatedSlot(slots, p, slots'[p]);
    AssignExchanges(s, st, j);
    Cancel(multiset(AssignState(s, st, j).open), Missing(slots'), multiset{st.open[j]});
  }

  lemma AdvanceFresh(s: Search, st: State, slots: seq<Slot>, p: nat)
    requires st.i < |s.fleet| && p < |slots| && Describes(st, slots) && slots[p].Fresh?
    ensures Describes(StartState(s, st), slots[p := Advance(s, slots[p], s.fleet[st.i])])
  {
    hide Sort, Missing, ClosedCount;
    var slots' := slots[p := Advance(s, slots[p], s.fleet[st.i])];
    UpdatedSlot(slots, p, slots'[p]);
    StartAdds(s, st);
    AddNone(Missing(slots'));
  }

  lemma {:induction false} MissingIsCounted(slots: seq<Slot>, p: nat)
    requires p < |slots| && slots[p].Open?
    ensures slots[p].missing in Missing(slots)
  {
    if p > 0 {
      MissingIsCounted(slots[1..], p - 1);
    }
  }

  /** Advancing one slot is one of the choices of the search. */
  lemma AdvanceIsAChoice(s: Search, st: State, slots: seq<Slot>, p: nat) returns (next: State)
    requires st.i < |s.fleet| && p < |slots| && !slots[p].Closed? && Describes(st, slots)
    ensures Steps(s, st, next) && next.i == st.i + 1
    ensures Describes(next, slots[p := Advance(s, slots[p], s.fleet[st.i])])
  {
    if slots[p].Fresh? {
      AdvanceFresh(s, st, slots, p);
      next := StartState(s, st);
    } else {
      MissingIsCounted(slots, p);
      var j := FindIn(slots[p].missing, st.open);
      AdvanceOpen(s, st, slots, p, j);
      next := AssignState(s, st, j);
    }
  }

  // ----- a plan's steps -----

  lemma {:induction false} UsedByTwo(plan: seq<seq<nat>>, p: nat, q: nat, x: nat)
    requires p < q < |plan| && x in plan[p] && x in plan[q]
    ensures Uses(plan)[x] >= 2
  {
    if p == 0 {
      UsedBy(plan[1..], q - 1, x);
    } else {
      UsedByTwo(plan[1..], p - 1, q - 1, x);
    }
  }

  lemma {:induction false} UsedBy(plan: seq<seq<nat>>, p: nat, x: nat)
    requires p < |plan| && x in plan[p]
    ensures x in Uses(plan)
  {
    if p > 0 {
      UsedBy(plan[1..], p - 1, x);
    }
  }

  lemma SmallerIsEarlier(p: seq<nat>, a: nat, b: nat)
    requires Increasing(p) && a < |p| && b < |p|
    ensures p[a] < p[b] <==> a < b
  {
  }

  /** A pipeline moves on at node `i` just when `i` is its next node. */
  lemma PipelineStep(s: Search, p: seq<nat>, i: nat)
    requires Closes(s, p) && i < |s.fleet|
    ensures if i in p then
              && Passed(p, i + 1) == Passed(p, i) + 1 && !SlotOf(s, p, i).Closed?
              && SlotOf(s, p, i + 1) == Advance(s, SlotOf(s, p, i), s.fleet[i])
            else
              Passed(p, i + 1) == Passed(p, i)
  {
    PassedSplits(p, i);
    PassedSplits(p, i + 1);
    var d, d' := Passed(p, i), Passed(p, i + 1);
    if i in p {
      var q: nat :| q < |p| && p[q] == i;
      SmallerIsEarlier(p, d, q);
      if d' < |p| {
        SmallerIsEarlier(p, q, d');
      }
      if q + 1 < |p| {
        SmallerIsEarlier(p, q, q + 1);
      }
      assert q == d && d' == d + 1;
      assert p[..d'][..|p[..d']| - 1] == p[..d];
      assert p[..|p|] == p;
    } else {
      assert d < |p| ==> p[d] in p;
      assert d' < |p| ==> i < p[d'];
    }
  }

  lemma {:induction false} LeftUnchanged(plan: seq<seq<nat>>, i: nat)
    requires forall p :: 0 <= p < |plan| ==> Passed(plan[p], i + 1) == Passed(plan[p], i)
    ensures Left(plan, i + 1) == Left(plan, i)
  {
    if plan != [] {
      assert Passed(plan[0], i + 1) == Passed(plan[0], i);
      LeftUnchanged(plan[1..], i);
    }
  }

  lemma {:induction false} LeftDropsByOne(plan: seq<seq<nat>>, i: nat, p: nat)
    requires p < |plan| && Passed(plan[p], i + 1) == Passed(plan[p], i) + 1
    requires forall q :: 0 <= q < |plan| && q != p ==> Passed(plan[q], i + 1) == Passed(plan[q], i)
    ensures Left(plan, i) == Left(plan, i + 1) + 1
  {
    if p == 0 {
      LeftUnchanged(plan[1..], i);
    } else {
      LeftDropsByOne(plan[1..], i, p - 1);
      assert Passed(plan[0], i + 1) == Passed(plan[0], i);
    }
  }

  lemma OnlyOneMoves(plan: seq<seq<nat>>, p: nat, i: nat)
    requires NoSharing(plan) && p < |plan| && i in plan[p]
    ensures forall q :: 0 <= q < |plan| && q != p ==> i !in plan[q]
  {
    forall q | 0 <= q < |plan| && q != p ensures i !in plan[q] {
      if i in plan[q] {
        UsedByTwo(plan, if p < q then p else q, if p < q then q else p, i);
      }
    }
  }

  lemma OthersStay(s: Search, plan: seq<seq<nat>>, i: nat)
    requires IsPlan(s, plan) && i < |s.fleet|
    ensures forall q :: 0 <= q < |plan| && i !in plan[q] ==>
              Passed(plan[q], i + 1) == Passed(plan[q], i) && SlotOf(s, plan[q], i + 1) == SlotOf(s, plan[q], i)
  {
    forall q | 0 <= q < |plan| && i !in plan[q]
      ensures Passed(plan[q], i + 1) == Passed(plan[q], i)
    {
      PipelineStep(s, plan[q], i);
    }
  }

  /** At each node a plan either passes (`None`) or moves exactly one of its pipelines. */
  lemma PlanStep(s: Search, plan: seq<seq<nat>>, i: nat) returns (moved: Option<nat>)
    requires IsPlan(s, plan) && i < |s.fleet|
    ensures moved.None? ==> SlotsOf(s, plan, i + 1) == SlotsOf(s, plan, i) && Left(plan, i + 1) == Left(plan, i)
    ensures moved.Some? ==>
              && moved.value < |plan| && !SlotOf(s, plan[moved.value], i).Closed?
              && SlotsOf(s, plan, i + 1) ==
                 SlotsOf(s, plan, i)[moved.value := Advance(s, SlotOf(s, plan[moved.value], i), s.fleet[i])]
              && Left(plan, i) == Left(plan, i + 1) + 1
  {
    hide SlotOf, Passed, Residual, Uses;
    OthersStay(s, plan, i);
    if p: nat :| p < |plan| && i in plan[p] {
      OnlyOneMoves(plan, p, i);
      PipelineStep(s, plan[p], i);
      LeftDropsByOne(plan, i, p);
      moved := Some(p);
    } else {
      LeftUnchanged(plan, i);
      moved := None;
    }
  }

  // ----- the search never costs more than a plan -----

  lemma {:induction false} ExhaustiveAssignIsBelow(s: Search, st: State, j: nat, best: Cost, q: nat)
    requires st.i < |s.fleet| && j <= |st.open|
    ensures NoMoreThan(ExhaustiveAssign(s, st, j, best), best)
    ensures j <= q < |st.open| ==>
              NoMoreThan(ExhaustiveAssign(s, st, j, best), OneMore(Exhaustive(s, AssignState(s, st, q))))
    decreases |st.open| - j
  {
    if j < |st.open| {
      ExhaustiveAssignIsBelow(s, st, j + 1, MinCost(best, OneMore(Exhaustive(s, AssignState(s, st, j)))), q);
    }
  }

  lemma EveryChoiceCostsAsMuch(s: Search, st: State, next: State)
    requires st.i < |s.fleet| && Steps(s, st, next)
    ensures NoMoreThan(Exhaustive(s, st), OneMore(Exhaustive(s, next)))
    ensures next == SkipState(st) ==> NoMoreThan(Exhaustive(s, st), Exhaustive(s, next))
  {
    if Running(s, st) {
      var skip := Exhaustive(s, SkipState(st));
      var assign := ExhaustiveAssign(s, st, 0, skip);
      var start := OneMore(Exhaustive(s, StartState(s, st)));
      assert Exhaustive(s, st) == MinCost(assign, start);
      ExhaustiveAssignIsBelow(s, st, 0, skip, 0);
      if j: nat :| j < |st.open| && next == AssignState(s, st, j) {
        ExhaustiveAssignIsBelow(s, st, 0, skip, j);
      }
    }
  }

  lemma {:induction false} AllClosed(slots: seq<Slot>)
    requires forall p :: 0 <= p < |slots| ==> slots[p].Closed?
    ensures Missing(slots) == multiset{} && ClosedCount(slots) == |slots|
  {
    if slots != [] {
      AllClosed(slots[1..]);
    }
  }

  lemma {:induction false} AllFresh(slots: seq<Slot>)
    requires forall p :: 0 <= p < |slots| ==> slots[p].Fresh?
    ensures Missing(slots) == multiset{} && ClosedCount(slots) == 0
  {
    if slots != [] {
      AllFresh(slots[1..]);
    }
  }

  /** A plan's step is a choice of the search, and costs one stage unless the node is skipped. */
  lemma PlanStepIsAChoice(s: Search, plan: seq<seq<nat>>, st: State) returns (next: State)
    requires IsPlan(s, plan) && st.i < |s.fleet| && Describes(st, SlotsOf(s, plan, st.i))
    ensures next.i == st.i + 1 && Describes(next, SlotsOf(s, plan, next.i)) && Steps(s, st, next)
    ensures (next == SkipState(st) && Left(plan, next.i) == Left(plan, st.i))
            || Left(plan, st.i) == Left(plan, next.i) + 1
  {
    var moved := PlanStep(s, plan, st.i);
    match moved
    case None => next := SkipState(st);
    case Some(p) => next := AdvanceIsAChoice(s, st, SlotsOf(s, plan, st.i), p);
  }

  lemma PlanDoneIsDone(s: Search, plan: seq<seq<nat>>, st: State)
    requires IsPlan(s, plan) && st.i == |s.fleet| && Describes(st, SlotsOf(s, plan, st.i))
    ensures IsDone(s, st)
  {
    var slots := SlotsOf(s, plan, st.i);
    forall p | 0 <= p < |plan| ensures slots[p].Closed? {
      PassedSplits(plan[p], st.i);
      assert Closes(s, plan[p]);
    }
    AllClosed(slots);
    assert |multiset(st.open)| == 0;
  }

  lemma {:induction false} SearchIsBelowPlan(s: Search, plan: seq<seq<nat>>, st: State)
    requires IsPlan(s, plan) && st.i <= |s.fleet| && Describes(st, SlotsOf(s, plan, st.i))
    ensures NoMoreThan(Exhaustive(s, st), Finite(Left(plan, st.i)))
    decreases |s.fleet| - st.i
  {
    if st.i == |s.fleet| {
      PlanDoneIsDone(s, plan, st);
    } else {
      var next := PlanStepIsAChoice(s, plan, st);
      SearchIsBelowPlan(s, plan, next);
      EveryChoiceCostsAsMuch(s, st, next);
    }
  }

  lemma {:induction false} NothingBeforeZero(p: seq<nat>)
    ensures Passed(p, 0) == 0
  {
    if p != [] {
      NothingBeforeZero(p[..|p| - 1]);
    }
  }

  lemma {:induction false} NothingPassedYet(plan: seq<seq<nat>>)
    requires forall p :: 0 <= p < |plan| ==> Increasing(plan[p])
    ensures forall p :: 0 <= p < |plan| ==> Passed(plan[p], 0) == 0
    ensures Left(plan, 0) == Stages(plan)
  {
    forall p | 0 <= p < |plan| ensures Passed(plan[p], 0) == 0 {
      NothingBeforeZero(plan[p]);
    }
    if plan != [] {
      NothingPassedYet(plan[1..]);
    }
  }

  function Root(): State { State(0, [], 0) }

  /** Every plan has at least as many stages as the pruned search reports. */
  lemma SearchIsALowerBound(s: Search, plan: seq<seq<nat>>)
    requires WellFormed(s) && IsPlan(s, plan)
    ensures NoMoreThan(Decide(s, Root()).cost, Finite(Stages(plan)))
  {
    forall p | 0 <= p < |plan| ensures Increasing(plan[p]) {
      assert Closes(s, plan[p]);
    }
    NothingPassedYet(plan);
    AllFresh(SlotsOf(s, plan, 0));
    SearchIsBelowPlan(s, plan, Root());
    PruningIsExact(s, Root());
  }
}
