/** Rebuilding the pipelines from the table of chosen actions.

    Starting from the empty state, each recorded action is replayed: a node is skipped, appended to the
    open pipeline it was assigned to, or begins a new one.  The residuals of the open pipelines stay those
    of the state, so the replay follows the path whose cost the table reports. */
module Backtrack {
  import opened Ordering
  import opened Outcomes
  import opened PipelineSearch
  import opened PipelinePlans
  import opened SearchTable

  // ----- pipelines under construction -----

  /** An open pipeline: the layers it still misses, and its nodes. */
  datatype OpenPipe = OpenPipe(missing: int, nodes: seq<nat>)

  function Residuals(open: seq<OpenPipe>): (r: seq<int>)
    ensures |r| == |open|
    ensures forall q :: 0 <= q < |open| ==> r[q] == open[q].missing
  {
    seq(|open|, q requires 0 <= q < |open| => open[q].missing)
  }

  function AllMissing(open: seq<OpenPipe>): multiset<int> {
    if open == [] then multiset{} else multiset{open[0].missing} + AllMissing(open[1..])
  }

  function OpenUses(open: seq<OpenPipe>): multiset<nat> {
    if open == [] then multiset{} else multiset(open[0].nodes) + OpenUses(open[1..])
  }

  function ByResidual(): (le: (OpenPipe, OpenPipe) -> bool) {
    (x: OpenPipe, y: OpenPipe) => x.missing <= y.missing
  }

  lemma {:induction false} ResidualsAreMissing(open: seq<OpenPipe>)
    ensures multiset(Residuals(open)) == AllMissing(open)
  {
    if open == [] {
      assert Residuals(open) == [];
    } else {
      ResidualsAreMissing(open[1..]);
      assert Residuals(open) == [open[0].missing] + Residuals(open[1..]);
    }
  }

  lemma {:induction false} WithoutPipe(open: seq<OpenPipe>, j: nat)
    requires j < |open|
    ensures OpenUses(RemoveAt(open, j)) + multiset(open[j].nodes) == OpenUses(open)
    ensures AllMissing(RemoveAt(open, j)) + multiset{open[j].missing} == AllMissing(open)
  {
    var rest := RemoveAt(open, j);
    if j == 0 {
      assert rest == open[1..];
      Commute(OpenUses(rest), multiset(open[0].nodes));
      Commute(AllMissing(rest), multiset{open[0].missing});
    } else {
      WithoutPipe(open[1..], j - 1);
      assert rest[0] == open[0] && rest[1..] == RemoveAt(open[1..], j - 1);
      Associate(multiset(open[0].nodes), OpenUses(rest[1..]), multiset(open[j].nodes));
      Associate(multiset{open[0].missing}, AllMissing(rest[1..]), multiset{open[j].missing});
    }
  }

  lemma AppendedPipe(open: seq<OpenPipe>, pipe: OpenPipe)
    ensures OpenUses(open + [pipe]) == OpenUses(open) + multiset(pipe.nodes)
    ensures AllMissing(open + [pipe]) == AllMissing(open) + multiset{pipe.missing}
  {
    WithoutPipe(open + [pipe], |open|);
    assert RemoveAt(open + [pipe], |open|) == open;
  }

  /** Reordering the open pipelines changes neither their residuals nor the nodes they use. */
  lemma {:induction false} Reordered(a: seq<OpenPipe>, b: seq<OpenPipe>)
    requires multiset(a) == multiset(b)
    ensures AllMissing(a) == AllMissing(b) && OpenUses(a) == OpenUses(b)
  {
    if a == [] {
      assert |multiset(b)| == 0;
    } else {
      assert a[0] in multiset(b);
      var j := FindIn(a[0], b);
      WithoutPipe(a, 0);
      WithoutPipe(b, j);
      RestsAgree(a, b, j);
      assert RemoveAt(a, 0) == a[1..];
      Reordered(a[1..], RemoveAt(b, j));
    }
  }

  /** A pipeline replaced is a pipeline taken out and another put in. */
  lemma ReplacedPipe(open: seq<OpenPipe>, j: nat, pipe: OpenPipe)
    requires j < |open|
    ensures OpenUses(open[j := pipe]) == OpenUses(RemoveAt(open, j)) + multiset(pipe.nodes)
    ensures AllMissing(open[j := pipe]) == AllMissing(RemoveAt(open, j)) + multiset{pipe.missing}
  {
    hide OpenUses, AllMissing;
    var replaced := open[j := pipe];
    WithoutPipe(replaced, j);
    assert RemoveAt(replaced, j) == RemoveAt(open, j);
  }

  lemma {:induction false} SameCount(open: seq<OpenPipe>)
    ensures |AllMissing(open)| == |open|
  {
    if open != [] {
      SameCount(open[1..]);
    }
  }

  lemma {:induction false} FilledPipeline(plan: seq<seq<nat>>, p: nat, nodes: seq<nat>)
    requires p < |plan| && plan[p] == []
    ensures Uses(plan[p := nodes]) == Uses(plan) + multiset(nodes)
  {
    if p == 0 {
      assert plan[p := nodes][1..] == plan[1..];
      Commute(Uses(plan[1..]), multiset(nodes));
    } else {
      FilledPipeline(plan[1..], p - 1, nodes);
      assert plan[p := nodes][1..] == plan[1..][p - 1 := nodes];
      Associate(multiset(plan[0]), Uses(plan[1..]), multiset(nodes));
    }
  }

  lemma {:induction false} StagesCountUses(plan: seq<seq<nat>>)
    ensures Stages(plan) == |Uses(plan)|
  {
    if plan != [] {
      StagesCountUses(plan[1..]);
    }
  }

  lemma {:induction false} EmptyPipelines(plan: seq<seq<nat>>)
    requires forall p :: 0 <= p < |plan| ==> plan[p] == []
    ensures Uses(plan) == multiset{}
  {
    if plan != [] {
      EmptyPipelines(plan[1..]);
    }
  }

  /** One more node: the prefixes of the longer pipeline are those of the shorter, and itself. */
  lemma JoinsPipeline(s: Search, p: seq<nat>, i: nat)
    requires StaysOpen(s, p) && i < |s.fleet| && forall q :: 0 <= q < |p| ==> p[q] < i
    ensures Within(s, p + [i]) && Residual(s, p + [i]) == After(Residual(s, p), s.fleet[i])
    ensures Residual(s, p + [i]) <= 0 ==> Closes(s, p + [i])
    ensures Residual(s, p + [i]) > 0 ==> StaysOpen(s, p + [i])
  {
    var longer := p + [i];
    assert longer[..|longer| - 1] == p;
    forall m | 0 < m < |longer| ensures Residual(s, longer[..m]) > 0 {
      assert longer[..m] == p[..m];
    }
    assert longer[..|longer|] == longer;
  }

  lemma BeginsPipeline(s: Search, i: nat)
    requires i < |s.fleet|
    ensures Within(s, [i]) && Residual(s, [i]) == s.layers - s.fleet[i].endpoint
    ensures Residual(s, [i]) <= 0 ==> Closes(s, [i])
    ensures Residual(s, [i]) > 0 ==> StaysOpen(s, [i])
  {
    assert [i][..1] == [i];
  }

  // ----- what the replay relies on -----

  /** What `Table.Solve` leaves behind, as far as the replay needs it. */
  ghost predicate Replayable(s: Search, path: map<State, Action>) {
    forall st :: st in path ==>
      && st.i <= |s.fleet|
      && Decide(s, st).action == Some(path[st])
      && (Running(s, st) && Decide(s, st).cost.Finite? ==>
            Legal(s, st, path[st]) && Chosen(s, st, path[st]) in path)
  }

  lemma FiniteHasAction(s: Search, st: State)
    requires st.i <= |s.fleet|
    ensures Decide(s, st).cost.Finite? ==> Decide(s, st).action.Some?
  {
    if Running(s, st) && !Pruned(s, st) {
      var skip := Decision(Decide(s, SkipState(st)).cost, Some(Skip));
      var q := TryAssignPicks(s, st, 0, skip);
    }
  }

  lemma TablesAreReplayable(s: Search, memo: map<State, Cost>, path: map<State, Action>)
    requires TablesOk(s, memo, path)
    ensures Replayable(s, path)
  {
    forall st | st in path && Running(s, st) && Decide(s, st).cost.Finite?
      ensures EntryOk(s, memo, path, st) && Legal(s, st, path[st]) && Chosen(s, st, path[st]) in path
    {
      assert EntryOk(s, memo, path, st);
      DecisionFollowsItsAction(s, st);
      var next := Chosen(s, st, path[st]);
      assert next in memo && EntryOk(s, memo, path, next);
      FiniteHasAction(s, next);
    }
    forall st | st in path ensures st.i <= |s.fleet| && Decide(s, st).action == Some(path[st]) {
      assert EntryOk(s, memo, path, st);
    }
  }

  ghost predicate PipeOk(s: Search, pipe: OpenPipe) {
    StaysOpen(s, pipe.nodes) && Residual(s, pipe.nodes) == pipe.missing
  }

  ghost predicate PipesOk(s: Search, open: seq<OpenPipe>) {
    forall q :: 0 <= q < |open| ==> PipeOk(s, open[q])
  }

  lemma PipesStayOk(s: Search, open: seq<OpenPipe>, j: nat, pipe: OpenPipe)
    requires PipesOk(s, open) && PipeOk(s, pipe)
    ensures PipesOk(s, open + [pipe])
    ensures j < |open| ==> PipesOk(s, open[j := pipe])
  {
  }

  lemma FewerPipesOk(s: Search, open: seq<OpenPipe>, j: nat)
    requires PipesOk(s, open) && j < |open|
    ensures PipesOk(s, RemoveAt(open, j))
  {
  }

  /** The pipelines closed so far come first, the others are still empty. */
  ghost predicate ClosedFirst(s: Search, finished: nat, pipelines: seq<seq<nat>>) {
    && |pipelines| == s.target && finished <= s.target
    && (forall p :: 0 <= p < finished ==> Closes(s, pipelines[p]))
    && (forall p :: finished <= p < s.target ==> pipelines[p] == [])
  }

  /** Only nodes before `i` are used, and each at most once. */
  ghost predicate UsedOnce(uses: multiset<nat>, i: nat) {
    forall x: nat :: uses[x] <= (if x < i then 1 else 0)
  }

  /** The table holds the state, and completing it costs what is left of the total. */
  ghost predicate OnCourse(s: Search, path: map<State, Action>, st: State, used: nat) {
    && st in path && st.i <= |s.fleet|
    && Decide(s, st).cost.Finite? && Decide(s, Root()).cost.Finite?
    && Decide(s, st).cost.stages + used == Decide(s, Root()).cost.stages
  }

  /** The pipelines being built are those state `st` counts. */
  ghost predicate Building(s: Search, st: State, open: seq<OpenPipe>, pipelines: seq<seq<nat>>) {
    && ClosedFirst(s, st.finished, pipelines)
    && PipesOk(s, open)
    && UsedOnce(Uses(pipelines) + OpenUses(open), st.i)
    && Ascending(st.open) && multiset(st.open) == AllMissing(open)
  }

  function Used(open: seq<OpenPipe>, pipelines: seq<seq<nat>>): nat {
    |Uses(pipelines) + OpenUses(open)|
  }

  lemma NextIsOnCourse(s: Search, path: map<State, Action>, st: State, used: nat)
    requires Replayable(s, path) && OnCourse(s, path, st, used) && Running(s, st)
    ensures st.i < |s.fleet| && Legal(s, st, path[st])
    ensures OnCourse(s, path, Chosen(s, st, path[st]), if path[st].Skip? then used else used + 1)
  {
    DecisionFollowsItsAction(s, st);
  }

  lemma OneMoreUsed(uses: multiset<nat>, i: nat)
    requires UsedOnce(uses, i)
    ensures UsedOnce(uses + multiset{i}, i + 1) && |uses + multiset{i}| == |uses| + 1
  {
  }

  lemma PipeUsesEarlierNodes(open: seq<OpenPipe>, j: nat, others: multiset<nat>, i: nat)
    requires j < |open| && UsedOnce(others + OpenUses(open), i)
    ensures forall q :: 0 <= q < |open[j].nodes| ==> open[j].nodes[q] < i
  {
    hide OpenUses;
    WithoutPipe(open, j);
    forall q | 0 <= q < |open[j].nodes| ensures open[j].nodes[q] < i {
      var x := open[j].nodes[q];
      assert x in multiset(open[j].nodes);
      assert (others + OpenUses(open))[x] > 0;
    }
  }

  // ----- one lemma per kind of action -----

  lemma StartCloses(s: Search, st: State, open: seq<OpenPipe>, pipelines: seq<seq<nat>>)
    requires Building(s, st, open, pipelines) && st.i < |s.fleet| && st.finished < s.target
    requires s.layers - s.fleet[st.i].endpoint <= 0
    ensures var pipelines' := pipelines[st.finished := pipelines[st.finished] + [st.i]];
            && Building(s, StartState(s, st), open, pipelines')
            && Used(open, pipelines') == Used(open, pipelines) + 1
  {
    hide OpenUses, AllMissing, Uses, Residual, Sort;
    BeginsPipeline(s, st.i);
    FilledPipeline(pipelines, st.finished, [st.i]);
    assert pipelines[st.finished] + [st.i] == [st.i];
    Rotate(Uses(pipelines), multiset{st.i}, OpenUses(open));
    OneMoreUsed(Uses(pipelines) + OpenUses(open), st.i);
  }

  lemma StartStaysOpen(s: Search, st: State, open: seq<OpenPipe>, pipelines: seq<seq<nat>>)
    requires Building(s, st, open, pipelines) && st.i < |s.fleet|
    requires s.layers - s.fleet[st.i].endpoint > 0
    ensures var open' := open + [OpenPipe(s.layers - s.fleet[st.i].endpoint, [st.i])];
            && Building(s, StartState(s, st), open', pipelines)
            && Used(open', pipelines) == Used(open, pipelines) + 1
  {
    hide OpenUses, AllMissing, Uses, Residual, Sort;
    var pipe := OpenPipe(s.layers - s.fleet[st.i].endpoint, [st.i]);
    BeginsPipeline(s, st.i);
    PipesStayOk(s, open, 0, pipe);
    AppendedPipe(open, pipe);
    SortSorts(st.open + [pipe.missing]);
    StartAdds(s, st);
    Associate(Uses(pipelines), OpenUses(open), multiset{st.i});
    OneMoreUsed(Uses(pipelines) + OpenUses(open), st.i);
  }

  /** The open pipelines sorted by residual: entry `j` of the state is entry `j` of the list. */
  lemma SortedPipes(s: Search, st: State, open: seq<OpenPipe>, pipelines: seq<seq<nat>>)
    returns (sorted: seq<OpenPipe>)
    requires Building(s, st, open, pipelines)
    ensures sorted == SortBy(ByResidual(), open) && |sorted| == |st.open|
    ensures forall q :: 0 <= q < |sorted| ==> sorted[q].missing == st.open[q]
    ensures Building(s, st, sorted, pipelines) && Used(sorted, pipelines) == Used(open, pipelines)
  {
    hide OpenUses, AllMissing, Uses, Residual;
    sorted := SortBy(ByResidual(), open);
    SortByRearranges(ByResidual(), open);
    SortBySorts(ByResidual(), open);
    Reordered(sorted, open);
    ResidualsAreMissing(sorted);
    assert forall i, j :: 0 <= i < j < |sorted| ==> ByResidual()(sorted[i], sorted[j]);
    AscendingIsCanonical(Residuals(sorted), st.open);
    forall q | 0 <= q < |sorted| ensures PipeOk(s, sorted[q]) {
      assert sorted[q] in multiset(sorted);
      assert sorted[q] in open;
    }
  }

  lemma AssignIsAscending(s: Search, st: State, j: nat)
    requires st.i < |s.fleet| && j < |st.open| && Ascending(st.open)
    ensures Ascending(AssignState(s, st, j).open)
  {
    SortSorts(st.open[j := After(st.open[j], s.fleet[st.i])]);
  }

  /** The longer pipeline, and the state after the node joined it. */
  lemma Joined(s: Search, st: State, open: seq<OpenPipe>, pipelines: seq<seq<nat>>, j: nat)
    requires Building(s, st, open, pipelines) && st.i < |s.fleet|
    requires j < |open| && |open| == |st.open| && open[j].missing == st.open[j]
    ensures var r := After(st.open[j], s.fleet[st.i]);
            var longer := open[j].nodes + [st.i];
            if r <= 0 then Closes(s, longer) else PipeOk(s, OpenPipe(r, longer))
    ensures Ascending(AssignState(s, st, j).open)
    ensures multiset(AssignState(s, st, j).open) ==
            AllMissing(RemoveAt(open, j)) + MissingOf(Advance(s, Open(st.open[j]), s.fleet[st.i]))
    ensures OpenUses(RemoveAt(open, j)) + multiset(open[j].nodes) == OpenUses(open)
  {
    hide OpenUses, AllMissing, Uses, Residual, Sort;
    PipeUsesEarlierNodes(open, j, Uses(pipelines), st.i);
    assert PipeOk(s, open[j]);
    JoinsPipeline(s, open[j].nodes, st.i);
    AssignIsAscending(s, st, j);
    AssignExchanges(s, st, j);
    WithoutPipe(open, j);
    var added := MissingOf(Advance(s, Open(st.open[j]), s.fleet[st.i]));
    Rotate(AllMissing(RemoveAt(open, j)), multiset{st.open[j]}, added);
    Cancel(multiset(AssignState(s, st, j).open), AllMissing(RemoveAt(open, j)) + added, multiset{st.open[j]});
  }

  lemma LongerUses(nodes: seq<nat>, i: nat, others: multiset<nat>, rest: multiset<nat>)
    ensures (others + multiset(nodes + [i])) + rest == (others + (rest + multiset(nodes))) + multiset{i}
    ensures others + (rest + multiset(nodes + [i])) == (others + (rest + multiset(nodes))) + multiset{i}
  {
    assert multiset(nodes + [i]) == multiset(nodes) + multiset{i};
  }

  lemma AssignCloses(s: Search, st: State, open: seq<OpenPipe>, pipelines: seq<seq<nat>>, j: nat)
    requires Building(s, st, open, pipelines) && st.i < |s.fleet| && st.finished < s.target
    requires j < |open| && |open| == |st.open| && open[j].missing == st.open[j]
    requires After(st.open[j], s.fleet[st.i]) <= 0
    ensures var open' := RemoveAt(open, j);
            var pipelines' := pipelines[st.finished := pipelines[st.finished] + (open[j].nodes + [st.i])];
            && Building(s, AssignState(s, st, j), open', pipelines')
            && Used(open', pipelines') == Used(open, pipelines) + 1
  {
    hide OpenUses, AllMissing, Uses, Residual, Sort, RemoveAt;
    var longer := open[j].nodes + [st.i];
    Joined(s, st, open, pipelines, j);
    AddNone(AllMissing(RemoveAt(open, j)));
    FewerPipesOk(s, open, j);
    FilledPipeline(pipelines, st.finished, longer);
    assert pipelines[st.finished] + longer == longer;
    LongerUses(open[j].nodes, st.i, Uses(pipelines), OpenUses(RemoveAt(open, j)));
    OneMoreUsed(Uses(pipelines) + OpenUses(open), st.i);
  }

  lemma AssignStaysOpen(s: Search, st: State, open: seq<OpenPipe>, pipelines: seq<seq<nat>>, j: nat)
    requires Building(s, st, open, pipelines) && st.i < |s.fleet|
    requires j < |open| && |open| == |st.open| && open[j].missing == st.open[j]
    requires After(st.open[j], s.fleet[st.i]) > 0
    ensures var open' := open[j := OpenPipe(After(st.open[j], s.fleet[st.i]), open[j].nodes + [st.i])];
            && Building(s, AssignState(s, st, j), open', pipelines)
            && Used(open', pipelines) == Used(open, pipelines) + 1
  {
    hide OpenUses, AllMissing, Uses, Residual, Sort;
    var pipe := OpenPipe(After(st.open[j], s.fleet[st.i]), open[j].nodes + [st.i]);
    Joined(s, st, open, pipelines, j);
    PipesStayOk(s, open, j, pipe);
    ReplacedPipe(open, j, pipe);
    LongerUses(open[j].nodes, st.i, Uses(pipelines), OpenUses(RemoveAt(open, j)));
    OneMoreUsed(Uses(pipelines) + OpenUses(open), st.i);
  }

  lemma CourseEnds(s: Search, path: map<State, Action>, st: State, used: nat)
    requires OnCourse(s, path, st, used)
    requires st.i == |s.fleet| || st.finished == s.target
    ensures IsDone(s, st) && Decide(s, Root()).cost == Finite(used)
  {
    assert st.i < |s.fleet| ==> NewNeeded(s, st) >= 0;
  }

  lemma NothingLeftOpen(s: Search, st: State, open: seq<OpenPipe>, pipelines: seq<seq<nat>>)
    requires Building(s, st, open, pipelines) && IsDone(s, st)
    ensures IsPlan(s, pipelines) && Used(open, pipelines) == Stages(pipelines)
  {
    SameCount(open);
    assert open == [];
    AddNone(Uses(pipelines));
    StagesCountUses(pipelines);
  }

  lemma NothingBuiltYet(s: Search, pipelines: seq<seq<nat>>)
    requires |pipelines| == s.target && forall p :: 0 <= p < |pipelines| ==> pipelines[p] == []
    ensures Building(s, Root(), [], pipelines) && Used([], pipelines) == 0
  {
    EmptyPipelines(pipelines);
  }

  lemma SkipKeeps(s: Search, st: State, open: seq<OpenPipe>, pipelines: seq<seq<nat>>)
    requires Building(s, st, open, pipelines)
    ensures Building(s, SkipState(st), open, pipelines)
    ensures st.finished <= s.target == |pipelines|
  {
  }

  /** The state the replay is in is the one the table was keyed by. */
  lemma SameState(s: Search, here: State, open: seq<OpenPipe>, pipelines: seq<seq<nat>>)
    requires Building(s, here, open, pipelines)
    ensures Sort(Residuals(open)) == here.open
  {
    SortSorts(Residuals(open));
    ResidualsAreMissing(open);
    AscendingIsCanonical(Sort(Residuals(open)), here.open);
  }

  // ----- the replay -----

  /** What one action does to the pipelines under construction. */
  function Stepped(s: Search, st: State, action: Action, open: seq<OpenPipe>, pipelines: seq<seq<nat>>)
    : (seq<OpenPipe>, seq<seq<nat>>)
    requires st.i < |s.fleet|
  {
    match action
    case Assign(j, _) =>
      if j < |open| && st.finished < |pipelines| then
        var sorted := SortBy(ByResidual(), open);
        var r, nodes := After(sorted[j].missing, s.fleet[st.i]), sorted[j].nodes + [st.i];
        if r <= 0 then (RemoveAt(sorted, j), pipelines[st.finished := pipelines[st.finished] + nodes])
        else (sorted[j := OpenPipe(r, nodes)], pipelines)
      else (open, pipelines)
    case Start(residual, closes) =>
      if !closes then (open + [OpenPipe(residual, [st.i])], pipelines)
      else if st.finished < |pipelines| then (open, pipelines[st.finished := pipelines[st.finished] + [st.i]])
      else (open, pipelines)
    case _ => (open, pipelines)
  }

  /** The pipelines the search's own decisions build from a state on. */
  function Followed(s: Search, st: State, open: seq<OpenPipe>, pipelines: seq<seq<nat>>): seq<seq<nat>>
    requires st.i <= |s.fleet|
    decreases |s.fleet| - st.i
  {
    if st.i == |s.fleet| || st.finished >= s.target || Decide(s, st).action.None? then pipelines
    else
      var action := Decide(s, st).action.value;
      if action.Assign? && action.j >= |st.open| then pipelines
      else
        var (open', pipelines') := Stepped(s, st, action, open, pipelines);
        Followed(s, Chosen(s, st, action), open', pipelines')
  }

  function NoneBuilt(k: nat): (pipelines: seq<seq<nat>>)
    ensures |pipelines| == k && forall p :: 0 <= p < k ==> pipelines[p] == []
  {
    seq(k, _ => [])
  }

  /** The plan the search decides on. */
  function PlanOf(s: Search): seq<seq<nat>> {
    Followed(s, Root(), [], NoneBuilt(s.target))
  }

  /** One decision of the search, carried out. */
  lemma FollowedStep(s: Search, st: State, open: seq<OpenPipe>, pipelines: seq<seq<nat>>)
    requires st.i < |s.fleet| && st.finished < s.target && Decide(s, st).action.Some?
    requires Legal(s, st, Decide(s, st).action.value)
    ensures var action := Decide(s, st).action.value;
            var (open', pipelines') := Stepped(s, st, action, open, pipelines);
            Followed(s, st, open, pipelines) == Followed(s, Chosen(s, st, action), open', pipelines')
  {
  }

  lemma FollowedEnds(s: Search, st: State, open: seq<OpenPipe>, pipelines: seq<seq<nat>>)
    requires st.i <= |s.fleet| && (st.i == |s.fleet| || st.finished >= s.target)
    ensures Followed(s, st, open, pipelines) == pipelines
  {
  }

  /** The node joins the `j`-th open pipeline, in the order of their residuals. */
  method AssignNode(s: Search, st: State, open: seq<OpenPipe>, pipelines: seq<seq<nat>>, j: nat, closes: bool)
    returns (open': seq<OpenPipe>, pipelines': seq<seq<nat>>, finished: nat)
    requires Building(s, st, open, pipelines) && st.i < |s.fleet| && st.finished < s.target
    requires Legal(s, st, Assign(j, closes))
    ensures Building(s, AssignState(s, st, j), open', pipelines')
    ensures finished == AssignState(s, st, j).finished
    ensures (open', pipelines') == Stepped(s, st, Assign(j, closes), open, pipelines)
    ensures Used(open', pipelines') == Used(open, pipelines) + 1
  {
    hide OpenUses, AllMissing, Uses, Residual, Sort, Used;
    ghost var sorted := SortedPipes(s, st, open, pipelines);
    open', pipelines', finished := SortBy(ByResidual(), open), pipelines, st.finished;
    if closes {
      AssignCloses(s, st, open', pipelines, j);
    } else {
      AssignStaysOpen(s, st, open', pipelines, j);
    }
    var OpenPipe(missing, nodes) := open'[j];
    var r := After(missing, s.fleet[st.i]);
    nodes := nodes + [st.i];
    if r <= 0 || closes {
      pipelines' := pipelines[finished := pipelines[finished] + nodes];
      open' := RemoveAt(open', j);
      finished := finished + 1;
    } else {
      open' := open'[j := OpenPipe(r, nodes)];
    }
  }

  /** The node begins a pipeline. */
  method StartNode(s: Search, st: State, open: seq<OpenPipe>, pipelines: seq<seq<nat>>, residual: int, closes: bool)
    returns (open': seq<OpenPipe>, pipelines': seq<seq<nat>>, finished: nat)
    requires Building(s, st, open, pipelines) && st.i < |s.fleet| && st.finished < s.target
    requires Legal(s, st, Start(residual, closes))
    ensures Building(s, StartState(s, st), open', pipelines')
    ensures finished == StartState(s, st).finished
    ensures (open', pipelines') == Stepped(s, st, Start(residual, closes), open, pipelines)
    ensures Used(open', pipelines') == Used(open, pipelines) + 1
  {
    hide OpenUses, AllMissing, Uses, Residual, Sort, Used;
    open', pipelines', finished := open, pipelines, st.finished;
    if closes {
      StartCloses(s, st, open, pipelines);
      pipelines' := pipelines[finished := pipelines[finished] + [st.i]];
      finished := finished + 1;
    } else {
      StartStaysOpen(s, st, open, pipelines);
      open' := open + [OpenPipe(residual, [st.i])];
    }
  }

  /** The replay returns the plan the search decides on, with as many stages as the search reported. */
  method Replay(s: Search, path: map<State, Action>) returns (pipelines: seq<seq<nat>>)
    requires Replayable(s, path) && Root() in path && Decide(s, Root()).cost.Finite?
    ensures IsPlan(s, pipelines) && pipelines == PlanOf(s)
    ensures Decide(s, Root()).cost == Finite(Stages(pipelines))
  {
    hide Building, Sort, Decide, Used, IsPlan, Stages, Followed, Stepped, RemoveAt;
    pipelines := NoneBuilt(s.target);
    var open: seq<OpenPipe> := [];
    var i, finished := 0, 0;
    ghost var here := Root();
    NothingBuiltYet(s, pipelines);
    while i < |s.fleet| && finished < s.target
      invariant here.i == i && here.finished == finished <= s.target
      invariant Building(s, here, open, pipelines)
      invariant OnCourse(s, path, here, Used(open, pipelines))
      invariant Followed(s, here, open, pipelines) == PlanOf(s)
      decreases |s.fleet| - i
    {
      var st := State(i, Sort(Residuals(open)), finished);
      SameState(s, here, open, pipelines);
      if st !in path {
        break;
      }
      NextIsOnCourse(s, path, st, Used(open, pipelines));
      FollowedStep(s, st, open, pipelines);
      match path[st] {
        case Skip =>
          SkipKeeps(s, st, open, pipelines);
          NothingStepped(s, st, open, pipelines);
        case Done =>
        case Assign(j, closes) =>
          open, pipelines, finished := AssignNode(s, st, open, pipelines, j, closes);
        case Start(residual, closes) =>
          open, pipelines, finished := StartNode(s, st, open, pipelines, residual, closes);
      }
      here := Chosen(s, st, path[st]);
      i := i + 1;
      SkipKeeps(s, here, open, pipelines);
    }
    CourseEnds(s, path, here, Used(open, pipelines));
    FollowedEnds(s, here, open, pipelines);
    NothingLeftOpen(s, here, open, pipelines);
  }

  lemma NothingStepped(s: Search, st: State, open: seq<OpenPipe>, pipelines: seq<seq<nat>>)
    requires st.i < |s.fleet|
    ensures Stepped(s, st, Skip, open, pipelines) == (open, pipelines)
  {
  }
}
