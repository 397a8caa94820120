/** The dynamic program that groups heterogeneous nodes into a target number of pipelines. */
module PipelineSearch {
  // A node can hold `plain` decoder layers, or `endpoint` layers when it also keeps the input embedding or the
  // LM head.  A pipeline is a list of nodes, in fleet order, that is charged `endpoint` for its first node, and
  // for a later node `plain` layers unless those would finish the pipeline, in which case the node must hold the
  // LM head as well and is charged `endpoint`.  The search looks for the least number of nodes ("stages") that
  // closes exactly `target` pipelines.

  import opened Ordering
  import opened Outcomes

  datatype Caps = Caps(plain: int, endpoint: int)

  datatype Search = Search(layers: int, fleet: seq<Caps>, target: nat)

  /** What `Node.get_decoder_layer_capacity` guarantees of the two capacities. */
  predicate WellFormed(s: Search) {
    && 0 < s.layers
    && forall i :: 0 <= i < |s.fleet| ==> 0 <= s.fleet[i].plain && s.fleet[i].endpoint <= s.fleet[i].plain
  }

  // ----- pipelines and plans: the reference definition -----

  /** Layers still missing from a pipeline that lacked `r` and is given one more node. */
  function After(r: int, node: Caps): int {
    if r - node.plain <= 0 then r - node.endpoint else r - node.plain
  }

  predicate Within(s: Search, p: seq<nat>) {
    forall q :: 0 <= q < |p| ==> p[q] < |s.fleet|
  }

  /** Layers still missing once the nodes of `p` have joined the pipeline in order. */
  function Residual(s: Search, p: seq<nat>): int
    requires p != [] && Within(s, p)
  {
    if |p| == 1 then
      s.layers - s.fleet[p[0]].endpoint
    else
      After(Residual(s, p[..|p| - 1]), s.fleet[p[|p| - 1]])
  }

  predicate Increasing(p: seq<nat>) {
    forall q, q' :: 0 <= q < q' < |p| ==> p[q] < p[q']
  }

  /** A non-empty pipeline none of whose prefixes (itself included) is complete. */
  predicate StaysOpen(s: Search, p: seq<nat>) {
    && p != [] && Within(s, p) && Increasing(p)
    && forall m :: 0 < m <= |p| ==> Residual(s, p[..m]) > 0
  }

  /** A pipeline that is complete exactly when its last node joins. */
  predicate Closes(s: Search, p: seq<nat>) {
    && p != [] && Within(s, p) && Increasing(p)
    && Residual(s, p) <= 0
    && forall m :: 0 < m < |p| ==> Residual(s, p[..m]) > 0
  }

  /** How often each node is used by a list of pipelines. */
  function Uses(plan: seq<seq<nat>>): multiset<nat> {
    if plan == [] then multiset{} else multiset(plan[0]) + Uses(plan[1..])
  }

  ghost predicate NoSharing(plan: seq<seq<nat>>) {
    forall x: nat :: Uses(plan)[x] <= 1
  }

  function Stages(plan: seq<seq<nat>>): nat {
    if plan == [] then 0 else |plan[0]| + Stages(plan[1..])
  }

  /** Exactly `target` closed pipelines that use no node twice. */
  ghost predicate IsPlan(s: Search, plan: seq<seq<nat>>) {
    && |plan| == s.target
    && (forall p :: 0 <= p < |plan| ==> Closes(s, plan[p]))
    && NoSharing(plan)
  }

  // ----- the search states -----

  datatype Cost = Finite(stages: nat) | Infinite

  predicate Cheaper(a: Cost, b: Cost) {
    a.Finite? && (b.Infinite? || a.stages < b.stages)
  }

  predicate NoMoreThan(a: Cost, b: Cost) {
    b.Infinite? || (a.Finite? && a.stages <= b.stages)
  }

  function MinCost(a: Cost, b: Cost): Cost {
    if Cheaper(b, a) then b else a
  }

  function OneMore(c: Cost): Cost {
    if c.Finite? then Finite(c.stages + 1) else Infinite
  }

  /** Nodes before `i` are decided; `open` lists the layers missing from each pipeline begun. */
  datatype State = State(i: nat, open: seq<int>, finished: nat)

  predicate IsDone(s: Search, st: State) {
    st.finished == s.target && |st.open| == 0
  }

  predicate Running(s: Search, st: State) {
    !IsDone(s, st) && st.i < |s.fleet|
  }

  function SkipState(st: State): State {
    st.(i := st.i + 1)
  }

  function AssignState(s: Search, st: State, j: nat): State
    requires st.i < |s.fleet| && j < |st.open|
  {
    var r := After(st.open[j], s.fleet[st.i]);
    if r <= 0 then State(st.i + 1, RemoveAt(st.open, j), st.finished + 1)
    else State(st.i + 1, Sort(st.open[j := r]), st.finished)
  }

  function StartState(s: Search, st: State): State
    requires st.i < |s.fleet|
  {
    var r := s.layers - s.fleet[st.i].endpoint;
    if r <= 0 then State(st.i + 1, st.open, st.finished + 1)
    else State(st.i + 1, Sort(st.open + [r]), st.finished)
  }

  // ----- the pruned search, as coded -----

  datatype Action = Skip | Assign(j: nat, closes: bool) | Start(residual: int, closes: bool) | Done

  datatype Decision = Decision(cost: Cost, action: Option<Action>)

  function CapacityFrom(s: Search, i: nat): int
    requires i <= |s.fleet|
    decreases |s.fleet| - i
  {
    if i == |s.fleet| then 0 else s.fleet[i].plain + CapacityFrom(s, i + 1)
  }

  function NewNeeded(s: Search, st: State): int {
    s.target - st.finished - |st.open|
  }

  function Max(a: int, b: int): int { if a < b then b else a }

  /** The three cuts: too many pipelines already, too little capacity left, too few nodes left. */
  predicate Pruned(s: Search, st: State)
    requires st.i <= |s.fleet|
  {
    || NewNeeded(s, st) < 0
    || CapacityFrom(s, st.i) < Sum(st.open) + Max(0, NewNeeded(s, st)) * s.layers
    || st.finished + |st.open| + (|s.fleet| - st.i) < s.target
  }

  function Better(best: Decision, cost: Cost, action: Action): Decision {
    if Cheaper(cost, best.cost) then Decision(cost, Some(action)) else best
  }

  function Decide(s: Search, st: State): Decision
    requires st.i <= |s.fleet|
    decreases |s.fleet| - st.i, |st.open| + 1
  {
    if IsDone(s, st) then
      Decision(Finite(0), Some(Done))
    else if st.i == |s.fleet| || Pruned(s, st) then
      Decision(Infinite, None)
    else
      var skip := Decision(Decide(s, SkipState(st)).cost, Some(Skip));
      TryStart(s, st, TryAssign(s, st, 0, skip))
  }

  function AssignAction(s: Search, st: State, j: nat): Action
    requires st.i < |s.fleet| && j < |st.open|
  {
    Assign(j, After(st.open[j], s.fleet[st.i]) <= 0)
  }

  function TryAssign(s: Search, st: State, j: nat, best: Decision): Decision
    requires st.i < |s.fleet| && j <= |st.open|
    decreases |s.fleet| - st.i, |st.open| - j
  {
    if j == |st.open| then
      best
    else
      var cost := OneMore(Decide(s, AssignState(s, st, j)).cost);
      TryAssign(s, st, j + 1, Better(best, cost, AssignAction(s, st, j)))
  }

  function StartAction(s: Search, st: State): Action
    requires st.i < |s.fleet|
  {
    var r := s.layers - s.fleet[st.i].endpoint;
    if r <= 0 then Start(0, true) else Start(r, false)
  }

  function TryStart(s: Search, st: State, best: Decision): Decision
    requires st.i < |s.fleet|
    decreases |s.fleet| - st.i, 0
  {
    if NewNeeded(s, st) > 0 then
      Better(best, OneMore(Decide(s, StartState(s, st)).cost), StartAction(s, st))
    else
      best
  }

  // ----- the same search with every cut removed -----

  /** Least number of stages over every sequence of skip, assign and start choices. */
  function Exhaustive(s: Search, st: State): Cost
    requires st.i <= |s.fleet|
    decreases |s.fleet| - st.i, |st.open| + 1
  {
    if IsDone(s, st) then
      Finite(0)
    else if st.i == |s.fleet| then
      Infinite
    else
      MinCost(ExhaustiveAssign(s, st, 0, Exhaustive(s, SkipState(st))),
              OneMore(Exhaustive(s, StartState(s, st))))
  }

  function ExhaustiveAssign(s: Search, st: State, j: nat, best: Cost): Cost
    requires st.i < |s.fleet| && j <= |st.open|
    decreases |s.fleet| - st.i, |st.open| - j
  {
    if j == |st.open| then best
    else ExhaustiveAssign(s, st, j + 1, MinCost(best, OneMore(Exhaustive(s, AssignState(s, st, j)))))
  }

  // ----- each cut only removes hopeless states -----

  /** Layers still to be placed: those missing from open pipelines and those of pipelines to come. */
  function Need(s: Search, st: State): int {
    Sum(st.open) + NewNeeded(s, st) * s.layers
  }

  lemma AssignNeeds(s: Search, st: State, j: nat)
    requires WellFormed(s) && st.i < |s.fleet| && j < |st.open|
    ensures Need(s, st) - Need(s, AssignState(s, st, j)) <= s.fleet[st.i].plain
    ensures NewNeeded(s, AssignState(s, st, j)) == NewNeeded(s, st)
  {
    var r := After(st.open[j], s.fleet[st.i]);
    if r <= 0 {
      SumWithout(st.open, j);
    } else {
      SumUpdated(st.open, j, r);
      SortSorts(st.open[j := r]);
      SumOfRearrangement(Sort(st.open[j := r]), st.open[j := r]);
    }
  }

  lemma StartNeeds(s: Search, st: State)
    requires WellFormed(s) && st.i < |s.fleet|
    ensures Need(s, st) - Need(s, StartState(s, st)) <= s.fleet[st.i].plain
    ensures NewNeeded(s, StartState(s, st)) == NewNeeded(s, st) - 1
  {
    var r := s.layers - s.fleet[st.i].endpoint;
    assert (NewNeeded(s, st) - 1) * s.layers == NewNeeded(s, st) * s.layers - s.layers;
    if r > 0 {
      SumAppended(st.open, r);
      SortSorts(st.open + [r]);
      SumOfRearrangement(Sort(st.open + [r]), st.open + [r]);
    }
  }

  /** What the choice made for the next node does to the state. */
  ghost predicate Steps(s: Search, st: State, next: State)
    requires st.i < |s.fleet|
  {
    || next == SkipState(st)
    || (exists j: nat :: j < |st.open| && next == AssignState(s, st, j))
    || next == StartState(s, st)
  }

  lemma {:induction false} ExhaustiveAssignIsSome(s: Search, st: State, j: nat, best: Cost) returns (q: nat)
    requires st.i < |s.fleet| && j <= |st.open|
    ensures j <= q <= |st.open|
    ensures ExhaustiveAssign(s, st, j, best) ==
            if q == |st.open| then best else OneMore(Exhaustive(s, AssignState(s, st, q)))
    decreases |st.open| - j
  {
    if j == |st.open| {
      q := j;
    } else {
      var option := OneMore(Exhaustive(s, AssignState(s, st, j)));
      q := ExhaustiveAssignIsSome(s, st, j + 1, MinCost(best, option));
      if q == |st.open| && Cheaper(option, best) {
        q := j;
      }
    }
  }

  /** The cheapest option is one of the options: it leads to a state whose minimum, and one stage for a node
      that is used, is the minimum. */
  lemma CheapestChoice(s: Search, st: State) returns (next: State)
    requires Running(s, st) && Exhaustive(s, st).Finite?
    ensures Steps(s, st, next) && next.i == st.i + 1 && Exhaustive(s, next).Finite?
    ensures Exhaustive(s, st) == OneMore(Exhaustive(s, next)) || (next == SkipState(st) && Exhaustive(s, st) == Exhaustive(s, next))
  {
    var skip := Exhaustive(s, SkipState(st));
    var q := ExhaustiveAssignIsSome(s, st, 0, skip);
    if Exhaustive(s, st) == OneMore(Exhaustive(s, StartState(s, st))) {
      next := StartState(s, st);
    } else if q < |st.open| {
      next := AssignState(s, st, q);
    } else {
      next := SkipState(st);
    }
  }

  /** One node lowers the need by at most its plain capacity, and begins at most one pipeline. */
  lemma StepNeeds(s: Search, st: State, next: State)
    requires WellFormed(s) && st.i < |s.fleet| && Steps(s, st, next)
    ensures Need(s, st) - Need(s, next) <= s.fleet[st.i].plain
    ensures NewNeeded(s, st) - 1 <= NewNeeded(s, next) <= NewNeeded(s, st)
  {
    if next == StartState(s, st) {
      StartNeeds(s, st);
    } else if next != SkipState(st) {
      var j: nat :| j < |st.open| && next == AssignState(s, st, j);
      AssignNeeds(s, st, j);
    }
  }

  /** Whatever can still be completed passes all three cuts. */
  lemma {:induction false} CompletableIsNotCut(s: Search, st: State)
    requires WellFormed(s) && st.i <= |s.fleet|
    requires Exhaustive(s, st).Finite?
    ensures 0 <= NewNeeded(s, st) <= |s.fleet| - st.i
    ensures Need(s, st) <= CapacityFrom(s, st.i)
    decreases |s.fleet| - st.i
  {
    if IsDone(s, st) {
      CapacityNotNegative(s, st.i);
    } else {
      var next := CheapestChoice(s, st);
      StepNeeds(s, st, next);
      CompletableIsNotCut(s, next);
    }
  }

  lemma {:induction false} CapacityNotNegative(s: Search, i: nat)
    requires WellFormed(s) && i <= |s.fleet|
    ensures CapacityFrom(s, i) >= 0
    decreases |s.fleet| - i
  {
    if i < |s.fleet| {
      CapacityNotNegative(s, i + 1);
    }
  }

  lemma {:induction false} AssignScansAgree(s: Search, st: State, j: nat, best: Decision)
    requires WellFormed(s) && st.i < |s.fleet| && j <= |st.open|
    ensures TryAssign(s, st, j, best).cost == ExhaustiveAssign(s, st, j, best.cost)
    decreases |s.fleet| - st.i, |st.open| - j
  {
    if j < |st.open| {
      PruningIsExact(s, AssignState(s, st, j));
      var cost := OneMore(Decide(s, AssignState(s, st, j)).cost);
      AssignScansAgree(s, st, j + 1, Better(best, cost, AssignAction(s, st, j)));
    }
  }

  /** For every state the pruned search finds exactly the minimum over all choices. */
  lemma {:induction false} PruningIsExact(s: Search, st: State)
    requires WellFormed(s) && st.i <= |s.fleet|
    ensures Decide(s, st).cost == Exhaustive(s, st)
    decreases |s.fleet| - st.i, |st.open| + 1
  {
    if Exhaustive(s, st).Finite? {
      CompletableIsNotCut(s, st);
    }
    if Running(s, st) && !Pruned(s, st) {
      var skip := Decision(Decide(s, SkipState(st)).cost, Some(Skip));
      PruningIsExact(s, SkipState(st));
      AssignScansAgree(s, st, 0, skip);
      PruningIsExact(s, StartState(s, st));
      if NewNeeded(s, st) <= 0 && Exhaustive(s, StartState(s, st)).Finite? {
        CompletableIsNotCut(s, StartState(s, st));
        StartNeeds(s, st);
      }
    }
  }
}
