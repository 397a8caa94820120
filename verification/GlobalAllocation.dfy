/** The dynamic-programming allocator end to end. */
module GlobalAllocation {
  // It chooses the pipelines, rebalances each of them, hands out the left-over nodes, and checks that a full
  // pipeline exists.

  import opened Outcomes
  import opened Ordering
  import opened PipelineSearch
  import opened PipelinePlans
  import opened PipelineCount
  import opened ClusterNode
  import opened LayerIndex
  import opened LayerAllocator
  import opened WaterFilling
  import opened PipelineAdjust
  import opened FullPipelines

  function Fleet(nodes: seq<Node>): (fleet: seq<Caps>)
    ensures |fleet| == |nodes|
    ensures forall i :: 0 <= i < |fleet| ==> fleet[i] == nodes[i].Caps()
  {
    seq(|nodes|, i requires 0 <= i < |nodes| => nodes[i].Caps())
  }

  function PipelineNodes(nodes: seq<Node>, p: seq<nat>): (line: seq<Node>)
    requires forall q :: 0 <= q < |p| ==> p[q] < |nodes|
    ensures |line| == |p|
    ensures forall q :: 0 <= q < |line| ==> line[q] == nodes[p[q]]
  {
    seq(|p|, q requires 0 <= q < |p| => nodes[p[q]])
  }

  /** Some positive number of pipelines can be built. */
  ghost predicate Feasible(layers: nat, nodes: seq<Node>) {
    layers > 0 && exists k: nat, plan: seq<seq<nat>> :: Builds(layers, Fleet(nodes), k, plan)
  }

  /** Every node can hold a layer next to an endpoint, and the bisection is fine enough. */
  ghost predicate Comfortable(nodes: seq<Node>, iterations: nat) {
    && (forall i :: 0 <= i < |nodes| ==> nodes[i].power > 0.0 && nodes[i].Caps().endpoint > 0)
    && (forall i :: 0 <= i < |nodes| ==>
          nodes[i].Capacity() as real * SumReal(Powers(nodes)) <= Pow2(iterations) * nodes[i].power)
  }

  lemma FleetIsOk(nodes: seq<Node>)
    ensures CapsOk(Fleet(nodes))
  {
    forall i | 0 <= i < |nodes| ensures 0 <= nodes[i].Caps().plain && nodes[i].Caps().endpoint <= nodes[i].Caps().plain {
      CapacityFacts(nodes[i].hardware);
    }
  }

  // ----- a closed pipeline has room for all layers -----

  /** The layers an open pipeline has covered fit its capacities: the first endpoint, then plain ones. */
  lemma {:induction false} OpenPrefixCovers(s: Search, p: seq<nat>, caps: seq<int>)
    requires WellFormed(s) && p != [] && Within(s, p) && |caps| == |p|
    requires caps[0] == s.fleet[p[0]].endpoint
    requires forall q :: 0 < q < |p| ==> caps[q] == s.fleet[p[q]].plain
    ensures s.layers - Residual(s, p) <= Sum(caps)
  {
    var m := |p| - 1;
    assert caps == caps[..m] + [caps[m]];
    SumAppended(caps[..m], caps[m]);
    if m > 0 {
      OpenPrefixCovers(s, p[..m], caps[..m]);
    }
  }

  lemma ClosingHasRoom(s: Search, p: seq<nat>, caps: seq<int>)
    requires WellFormed(s) && Closes(s, p) && |caps| == |p|
    requires caps[0] == s.fleet[p[0]].endpoint
    requires forall q :: 0 < q < |p| - 1 ==> caps[q] == s.fleet[p[q]].plain
    requires |p| > 1 ==> caps[|p| - 1] == s.fleet[p[|p| - 1]].endpoint
    ensures Sum(caps) >= s.layers
  {
    var m := |p| - 1;
    assert caps == caps[..m] + [caps[m]];
    SumAppended(caps[..m], caps[m]);
    if m > 0 {
      OpenPrefixCovers(s, p[..m], caps[..m]);
    }
  }

  lemma ClosingIsRoomy(nodes: seq<Node>, layers: nat, k: nat, p: seq<nat>)
    requires layers > 0 && Closes(Search(layers, Fleet(nodes), k), p)
    requires forall i :: 0 <= i < |nodes| ==> nodes[i].Caps().endpoint > 0
    ensures Roomy(PipelineNodes(nodes, p), layers)
  {
    var s := Search(layers, Fleet(nodes), k);
    var line := PipelineNodes(nodes, p);
    FleetIsOk(nodes);
    forall q | 0 <= q < |p|
      ensures StageCaps(line)[q] == (if q == 0 || q == |p| - 1 then s.fleet[p[q]].endpoint else s.fleet[p[q]].plain)
      ensures StageCap(line, q) > 0
    {
      CapacityFacts(line[q].hardware);
    }
    ClosingHasRoom(s, p, StageCaps(line));
  }

  // ----- enough bisection steps for the fleet are enough for a pipeline -----

  lemma {:induction false} MaxRatioIsSome(caps: seq<int>, power: seq<real>) returns (j: nat)
    requires |caps| == |power| && caps != [] && forall q :: 0 <= q < |power| ==> power[q] > 0.0
    ensures j < |caps| && MaxRatio(caps, power) == caps[j] as real / power[j]
  {
    if |caps| == 1 || MaxRatio(caps, power) == caps[0] as real / power[0] {
      j := 0;
    } else {
      var i := MaxRatioIsSome(caps[1..], power[1..]);
      j := i + 1;
    }
  }

  lemma {:induction false} PrefixSumGrows(xs: seq<real>, m: nat, n: nat)
    requires m <= n <= |xs| && forall i :: 0 <= i < |xs| ==> xs[i] >= 0.0
    ensures SumReal(xs[..m]) <= SumReal(xs[..n])
  {
    if m < n {
      PrefixSumGrows(xs, m, n - 1);
      SumRealAppended(xs[..n - 1], xs[n - 1]);
      assert xs[..n] == xs[..n - 1] + [xs[n - 1]];
    }
  }

  /** A selection in index order sums to no more than the prefix it is taken from. */
  lemma {:induction false} SelectionSumsToLess(xs: seq<real>, p: seq<nat>, ys: seq<real>, n: nat)
    requires n <= |xs| && forall i :: 0 <= i < |xs| ==> xs[i] >= 0.0
    requires Increasing(p) && |ys| == |p| && forall q :: 0 <= q < |p| ==> p[q] < n && ys[q] == xs[p[q]]
    ensures SumReal(ys) <= SumReal(xs[..n])
  {
    if p == [] {
      PrefixSumGrows(xs, 0, n);
    } else {
      var m := |p| - 1;
      SelectionSumsToLess(xs, p[..m], ys[..m], p[m]);
      SumRealAppended(ys[..m], ys[m]);
      assert ys == ys[..m] + [ys[m]];
      SumRealAppended(xs[..p[m]], xs[p[m]]);
      assert xs[..p[m] + 1] == xs[..p[m]] + [xs[p[m]]];
      PrefixSumGrows(xs, p[m] + 1, n);
    }
  }

  lemma RatioBound(cap: int, most: int, f: real, part: real, whole: real, bound: real)
    requires f > 0.0 && cap <= most && 0 <= most && 0.0 <= part <= whole && 0 <= cap
    requires most as real * whole <= bound * f
    ensures (cap as real / f) * part <= bound
  {
    var c := cap as real;
    assert c * part <= c * whole;
    assert c * whole <= most as real * whole;
    assert (c / f) * part == (c * part) / f;
    assert c * part <= bound * f;
    QuotientAtMost(c * part, bound, f);
  }

  lemma QuotientAtMost(x: real, bound: real, f: real)
    requires f > 0.0 && x <= bound * f
    ensures x / f <= bound
  {
    assert (x / f) * f == x;
    assert (bound - x / f) * f >= 0.0;
  }

  lemma {:induction false} SumNotNegative(xs: seq<real>)
    requires forall i :: 0 <= i < |xs| ==> xs[i] >= 0.0
    ensures SumReal(xs) >= 0.0
  {
    if xs != [] {
      SumNotNegative(xs[1..]);
    }
  }

  lemma ComfortableSuffices(nodes: seq<Node>, iterations: nat, p: seq<nat>)
    requires Comfortable(nodes, iterations) && p != [] && Increasing(p)
    requires forall q :: 0 <= q < |p| ==> p[q] < |nodes|
    ensures StepsSuffice(PipelineNodes(nodes, p), iterations)
  {
    hide MaxRatio, SumReal, Pow2;
    var line := PipelineNodes(nodes, p);
    var caps, power := StageCaps(line), Powers(line);
    var j := MaxRatioIsSome(caps, power);
    CapacityFacts(line[j].hardware);
    SelectionSumsToLess(Powers(nodes), p, power, |nodes|);
    assert Powers(nodes)[..|nodes|] == Powers(nodes);
    SumNotNegative(power);
    RatioBound(caps[j], line[j].Capacity(), power[j], SumReal(power), SumReal(Powers(nodes)), Pow2(iterations));
  }

  // ----- the pipelines as node lists -----

  lemma PipelineInOrder(nodes: seq<Node>, p: seq<nat>)
    requires ByCapacity(nodes) && Increasing(p) && forall q :: 0 <= q < |p| ==> p[q] < |nodes|
    ensures SortBy(LargestFirst(), PipelineNodes(nodes, p)) == PipelineNodes(nodes, p)
  {
    SortedByCapacity(PipelineNodes(nodes, p));
  }

  lemma PipelineIsKnown(nodes: seq<Node>, byId: map<NodeId, Node>, p: seq<nat>)
    requires NodesMatch(nodes, byId) && Increasing(p) && forall q :: 0 <= q < |p| ==> p[q] < |nodes|
    ensures Known(byId, PipelineNodes(nodes, p))
    ensures Members(PipelineNodes(nodes, p)) <= Members(nodes)
  {
    var line := PipelineNodes(nodes, p);
    forall i, j | 0 <= i < j < |line| ensures line[i].id != line[j].id {
      assert p[i] < p[j];
    }
  }

  lemma PipelinesAreDisjoint(nodes: seq<Node>, plan: seq<seq<nat>>, p: nat, q: nat)
    requires DistinctIds(nodes) && NoSharing(plan) && p < |plan| && q < |plan| && p != q
    requires forall x :: 0 <= x < |plan[p]| ==> plan[p][x] < |nodes|
    requires forall x :: 0 <= x < |plan[q]| ==> plan[q][x] < |nodes|
    ensures Ids(PipelineNodes(nodes, plan[p])) !! Ids(PipelineNodes(nodes, plan[q]))
  {
    var a, b := PipelineNodes(nodes, plan[p]), PipelineNodes(nodes, plan[q]);
    forall id | id in Ids(a) && id in Ids(b) ensures false {
      var m :| m in a && m.id == id;
      var n :| n in b && n.id == id;
      var x :| 0 <= x < |a| && a[x] == m;
      var y :| 0 <= y < |b| && b[y] == n;
      assert plan[p][x] == plan[q][y];
      UsedByTwo(plan, if p < q then p else q, if p < q then q else p, plan[p][x]);
    }
  }

  // ----- the whole allocation -----

  /** The first `upTo` pipelines of the plan share out all layers. */
  ghost predicate ServedUpTo(nodes: seq<Node>, plan: seq<seq<nat>>, alloc: Allocation, layers: nat, iterations: nat, upTo: nat) {
    && upTo <= |plan| && (forall p :: 0 <= p < |plan| ==> forall q :: 0 <= q < |plan[p]| ==> plan[p][q] < |nodes|)
    && forall p :: 0 <= p < upTo ==> Serves(PipelineNodes(nodes, plan[p]), alloc, layers, iterations)
  }

  /** And their nodes have no other range. */
  ghost predicate AloneUpTo(nodes: seq<Node>, plan: seq<seq<nat>>, alloc: Allocation, layers: nat, iterations: nat, upTo: nat) {
    && upTo <= |plan| && (forall p :: 0 <= p < |plan| ==> forall q :: 0 <= q < |plan[p]| ==> plan[p][q] < |nodes|)
    && forall p :: 0 <= p < upTo ==> ServesAlone(PipelineNodes(nodes, plan[p]), alloc, layers, iterations)
  }

  /** The plan builds some pipelines.  No other plan has a better ratio of the square of its count to its stages,
      and none of fewer pipelines as good a one. */
  ghost predicate BestPlan(nodes: seq<Node>, plan: seq<seq<nat>>, layers: nat) {
    && Builds(layers, Fleet(nodes), |plan|, plan) && Stages(plan) > 0
    && (forall k: nat, other :: Builds(layers, Fleet(nodes), k, other) ==>
          && Stages(other) > 0 && k * k * Stages(plan) <= |plan| * |plan| * Stages(other)
          && (k < |plan| ==> k * k * Stages(plan) < |plan| * |plan| * Stages(other)))
  }

  /** A best plan is in place: every one of its pipelines serves, and no range of another node was touched. */
  ghost predicate Realizes(nodes: seq<Node>, plan: seq<seq<nat>>, before: Allocation, alloc: Allocation, layers: nat, iterations: nat) {
    BestPlan(nodes, plan, layers) && ServedUpTo(nodes, plan, alloc, layers, iterations, |plan|) && Undisturbed(nodes, plan, before, alloc)
  }

  /** A best plan was put in place, and then the left-over nodes joined one by one. */
  ghost predicate CarriedOut(a: Allocator, nodes: seq<Node>, byId: map<NodeId, Node>, plan: seq<seq<nat>>, before: Allocation,
                          alloc: Allocation)
  {
    exists placed :: InPlace(nodes, plan, before, placed, a.layers, a.iterations) && LeftOver(a, byId, nodes, placed, alloc)
  }

  ghost predicate InPlace(nodes: seq<Node>, plan: seq<seq<nat>>, before: Allocation, placed: Allocation, layers: nat,
                          iterations: nat)
  {
    AloneUpTo(nodes, plan, placed, layers, iterations, |plan|) && SameOutside(before, placed, PlanIds(nodes, plan, |plan|))
  }

  /** Nodes outside the plan keep the range they had. */
  ghost predicate Undisturbed(nodes: seq<Node>, plan: seq<seq<nat>>, before: Allocation, alloc: Allocation) {
    forall id :: id in before && id !in PlanIds(nodes, plan, |plan|) ==> id in alloc && alloc[id] == before[id]
  }

  /** The ids of the nodes in the first `upTo` pipelines. */
  ghost function PlanIds(nodes: seq<Node>, plan: seq<seq<nat>>, upTo: nat): set<NodeId> {
    set p, q | 0 <= p < upTo && p < |plan| && 0 <= q < |plan[p]| && plan[p][q] < |nodes| :: nodes[plan[p][q]].id
  }

  lemma NextPlanIds(nodes: seq<Node>, plan: seq<seq<nat>>, p: nat)
    requires p < |plan| && forall q :: 0 <= q < |plan[p]| ==> plan[p][q] < |nodes|
    ensures PlanIds(nodes, plan, p + 1) == PlanIds(nodes, plan, p) + Ids(PipelineNodes(nodes, plan[p]))
  {
    var line := PipelineNodes(nodes, plan[p]);
    forall id | id in Ids(line) ensures id in PlanIds(nodes, plan, p + 1) {
      var n :| n in line && n.id == id;
      var q :| 0 <= q < |line| && line[q] == n;
      assert nodes[plan[p][q]].id == id;
    }
    forall id | id in PlanIds(nodes, plan, p + 1) ensures id in PlanIds(nodes, plan, p) + Ids(line) {
      var m, q :| 0 <= m < p + 1 && m < |plan| && 0 <= q < |plan[m]| && plan[m][q] < |nodes| && nodes[plan[m][q]].id == id;
      if m == p {
        assert line[q].id in Ids(line);
      }
    }
  }

  lemma SameOutsideBoth(a: Allocation, b: Allocation, c: Allocation, x: set<NodeId>, y: set<NodeId>)
    requires SameOutside(a, b, x) && SameOutside(b, c, y)
    ensures SameOutside(a, c, x + y)
  {
  }

  /** The pipeline can take its layers. */
  ghost predicate Adjustable(nodes: seq<Node>, layers: nat, iterations: nat) {
    Roomy(nodes, layers) && FillFits(nodes, layers, iterations)
  }

  /** Every pipeline of the plan can take its layers. */
  ghost predicate AllAdjustable(nodes: seq<Node>, plan: seq<seq<nat>>, layers: nat, iterations: nat) {
    forall p :: 0 <= p < |plan| ==> AdjustableAt(nodes, plan, layers, iterations, p)
  }

  ghost predicate AdjustableAt(nodes: seq<Node>, plan: seq<seq<nat>>, layers: nat, iterations: nat, p: nat)
    requires p < |plan|
  {
    (forall q :: 0 <= q < |plan[p]| ==> plan[p][q] < |nodes|) && Adjustable(PipelineNodes(nodes, plan[p]), layers, iterations)
  }

  /** The plan was given up at pipeline `p`, which cannot take its layers: those before it serve, its own nodes
      have no range left, and all others are as they were. */
  ghost predicate GivenUpAt(nodes: seq<Node>, plan: seq<seq<nat>>, before: Allocation, alloc: Allocation, layers: nat,
                            iterations: nat, p: nat)
  {
    && p < |plan| && !AdjustableAt(nodes, plan, layers, iterations, p)
    && (forall q :: 0 <= q < p ==> AdjustableAt(nodes, plan, layers, iterations, q))
    && ServedUpTo(nodes, plan, alloc, layers, iterations, p) && SameOutside(before, alloc, PlanIds(nodes, plan, p + 1))
    && forall q :: 0 <= q < |plan[p]| && plan[p][q] < |nodes| ==> nodes[plan[p][q]].id !in alloc
  }

  /** The pipelines the allocator settles on for these nodes, if any. */
  function PlanFor(nodes: seq<Node>, layers: nat): seq<seq<nat>> {
    ChosenPlan(layers, Fleet(nodes))
  }

  /** Carrying out the plan leaves a full pipeline: its first pipeline can take its layers, or the ranges of
      the nodes outside it already chain. */
  ghost predicate KeepsPipeline(nodes: seq<Node>, plan: seq<seq<nat>>, before: Allocation, layers: nat, iterations: nat) {
    && plan != []
    && (AdjustableAt(nodes, plan, layers, iterations, 0) || FullPipeline(before - PlanIds(nodes, plan, 1), layers))
  }

  lemma FirstPlanIds(nodes: seq<Node>, plan: seq<seq<nat>>, before: Allocation, alloc: Allocation)
    requires plan != [] && SameOutside(before, alloc, PlanIds(nodes, plan, 1))
    requires forall q :: 0 <= q < |plan[0]| && plan[0][q] < |nodes| ==> nodes[plan[0][q]].id !in alloc
    ensures alloc == before - PlanIds(nodes, plan, 1)
  {
    forall id | id in alloc ensures id !in PlanIds(nodes, plan, 1) {
    }
  }

  /** A plan given up leaves a full pipeline exactly when one of its pipelines was placed, or the ranges outside
      the first one already chain. */
  lemma GivingUpKeeps(nodes: seq<Node>, plan: seq<seq<nat>>, before: Allocation, alloc: Allocation, layers: nat,
                      iterations: nat, p: nat)
    requires GivenUpAt(nodes, plan, before, alloc, layers, iterations, p) && layers > 0
    ensures FullPipeline(alloc, layers) <==> KeepsPipeline(nodes, plan, before, layers, iterations)
  {
    hide FullPipeline, Adjustable, Serves, PlanIds;
    if p == 0 {
      FirstPlanIds(nodes, plan, before, alloc);
    } else {
      assert AdjustableAt(nodes, plan, layers, iterations, 0);
      ServingIsFull(PipelineNodes(nodes, plan[0]), alloc, layers, iterations);
    }
  }

  lemma PlanIsWithin(nodes: seq<Node>, layers: nat, iterations: nat, k: nat, plan: seq<seq<nat>>)
    requires IsPlan(Search(layers, Fleet(nodes), k), plan)
    ensures ServedUpTo(nodes, plan, map[], layers, iterations, 0) && AloneUpTo(nodes, plan, map[], layers, iterations, 0)
  {
    forall p, q | 0 <= p < |plan| && 0 <= q < |plan[p]| ensures plan[p][q] < |nodes| {
      assert Closes(Search(layers, Fleet(nodes), k), plan[p]);
    }
  }

  lemma NextServed(nodes: seq<Node>, layers: nat, iterations: nat, k: nat, plan: seq<seq<nat>>, before: Allocation, after: Allocation, p: nat)
    requires IsPlan(Search(layers, Fleet(nodes), k), plan) && DistinctIds(nodes)
    requires ServedUpTo(nodes, plan, before, layers, iterations, p) && p < |plan|
    requires Serves(PipelineNodes(nodes, plan[p]), after, layers, iterations)
    requires SameOutside(before, after, Ids(PipelineNodes(nodes, plan[p])))
    requires AloneUpTo(nodes, plan, before, layers, iterations, p)
    requires ServesAlone(PipelineNodes(nodes, plan[p]), after, layers, iterations)
    ensures ServedUpTo(nodes, plan, after, layers, iterations, p + 1) && AloneUpTo(nodes, plan, after, layers, iterations, p + 1)
  {
    hide Serves, ServesAlone, SameOutside, Ids;
    forall q | 0 <= q < p
      ensures Serves(PipelineNodes(nodes, plan[q]), after, layers, iterations)
      ensures ServesAlone(PipelineNodes(nodes, plan[q]), after, layers, iterations)
    {
      PipelinesAreDisjoint(nodes, plan, q, p);
      ServingAloneSurvives(PipelineNodes(nodes, plan[q]), before, after, layers, iterations, Ids(PipelineNodes(nodes, plan[p])));
      ServingSurvives(PipelineNodes(nodes, plan[q]), before, after, layers, iterations, Ids(PipelineNodes(nodes, plan[p])));
    }
  }

  lemma ServingExtends(nodes: seq<Node>, plan: seq<seq<nat>>, before: Allocation, after: Allocation, layers: nat, iterations: nat,
                       upTo: nat)
    requires ServedUpTo(nodes, plan, before, layers, iterations, upTo) && Extends(before, after)
    ensures ServedUpTo(nodes, plan, after, layers, iterations, upTo)
  {
    forall p | 0 <= p < upTo ensures Serves(PipelineNodes(nodes, plan[p]), after, layers, iterations) {
      var line := PipelineNodes(nodes, plan[p]);
      var stages :| Splits(stages, layers) && Placed(line, stages, before) && WithinCaps(line, stages) && Filled(line, stages, layers, iterations);
      forall i | 0 <= i < |stages| && stages[i] > 0 ensures PlacedAt(line, stages, after, i) {
        assert PlacedAt(line, stages, before, i);
      }
      assert Placed(line, stages, after);
    }
  }

  lemma PipelineFacts(a: Allocator, k: nat, plan: seq<seq<nat>>, p: nat)
    requires a.Valid() && ByCapacity(a.nodes) && a.layers > 0
    requires IsPlan(Search(a.layers, Fleet(a.nodes), k), plan) && p < |plan|
    requires forall q :: 0 <= q < |plan[p]| ==> plan[p][q] < |a.nodes|
    ensures var line := PipelineNodes(a.nodes, plan[p]);
            && line != [] && Known(a.nodeById, line) && Members(line) <= Members(a.nodes)
            && SortBy(LargestFirst(), line) == line
  {
    assert Closes(Search(a.layers, Fleet(a.nodes), k), plan[p]);
    PipelineIsKnown(a.nodes, a.nodeById, plan[p]);
    PipelineInOrder(a.nodes, plan[p]);
  }

  /** With room next to every endpoint and enough bisection steps, every pipeline can take its layers. */
  lemma ComfortableIsAdjustable(nodes: seq<Node>, layers: nat, iterations: nat, k: nat, plan: seq<seq<nat>>)
    requires Comfortable(nodes, iterations) && layers > 0 && IsPlan(Search(layers, Fleet(nodes), k), plan)
    ensures AllAdjustable(nodes, plan, layers, iterations)
  {
    hide FillFits, StepsSuffice, Roomy, Fleet;
    PlanIsWithin(nodes, layers, iterations, k, plan);
    forall p | 0 <= p < |plan| ensures AdjustableAt(nodes, plan, layers, iterations, p) {
      assert Closes(Search(layers, Fleet(nodes), k), plan[p]);
      ClosingIsRoomy(nodes, layers, k, plan[p]);
      ComfortableSuffices(nodes, iterations, plan[p]);
      StepsFillFits(PipelineNodes(nodes, plan[p]), layers, iterations);
    }
  }

  lemma NobodyTouched(nodes: seq<Node>, plan: seq<seq<nat>>, alloc: Allocation)
    ensures SameOutside(alloc, alloc, PlanIds(nodes, plan, 0))
  {
  }

  lemma GivenUp(nodes: seq<Node>, plan: seq<seq<nat>>, before: Allocation, middle: Allocation, after: Allocation, layers: nat,
                iterations: nat, p: nat)
    requires ServedUpTo(nodes, plan, middle, layers, iterations, p) && p < |plan| && DistinctIds(nodes) && NoSharing(plan)
    requires SameOutside(before, middle, PlanIds(nodes, plan, p))
    requires after == middle - Ids(PipelineNodes(nodes, plan[p]))
    requires !Adjustable(PipelineNodes(nodes, plan[p]), layers, iterations)
    requires forall q :: 0 <= q < p ==> AdjustableAt(nodes, plan, layers, iterations, q)
    ensures GivenUpAt(nodes, plan, before, after, layers, iterations, p)
  {
    hide PlanIds, Adjustable, Serves, NoSharing, DistinctIds;
    var line := PipelineNodes(nodes, plan[p]);
    NextPlanIds(nodes, plan, p);
    TakingOut(middle, Ids(line));
    SameOutsideBoth(before, middle, after, PlanIds(nodes, plan, p), Ids(line));
    forall q | 0 <= q < p ensures Serves(PipelineNodes(nodes, plan[q]), after, layers, iterations) {
      PipelinesAreDisjoint(nodes, plan, q, p);
      ServingSurvives(PipelineNodes(nodes, plan[q]), middle, after, layers, iterations, Ids(line));
    }
    forall q | 0 <= q < |plan[p]| && plan[p][q] < |nodes| ensures nodes[plan[p][q]].id !in after {
      assert line[q].id in Ids(line);
    }
  }

  lemma TakingOut(alloc: Allocation, ids: set<NodeId>)
    ensures SameOutside(alloc, alloc - ids, ids)
  {
  }

  /** Rebalances the pipelines of a plan one after the other, up to the first that cannot take its layers. */
  method AdjustAll(a: Allocator, ghost k: nat, plan: seq<seq<nat>>) returns (r: Result<()>)
    requires a.Valid() && ByCapacity(a.nodes) && a.layers > 0
    requires forall i :: 0 <= i < |a.nodes| ==> a.nodes[i].power > 0.0
    requires IsPlan(Search(a.layers, Fleet(a.nodes), k), plan)
    modifies a, Members(a.nodes), a.loads
    ensures a.Valid() && a.nodes == old(a.nodes) && a.nodeById == old(a.nodeById)
    ensures r.Ok? <==> AllAdjustable(a.nodes, plan, a.layers, a.iterations)
    ensures r.Ok? ==>
              && ServedUpTo(a.nodes, plan, a.allocation, a.layers, a.iterations, |plan|)
              && AloneUpTo(a.nodes, plan, a.allocation, a.layers, a.iterations, |plan|)
    ensures r.Ok? ==> SameOutside(old(a.allocation), a.allocation, PlanIds(a.nodes, plan, |plan|))
    ensures r.Raise? ==> exists p :: GivenUpAt(a.nodes, plan, old(a.allocation), a.allocation, a.layers, a.iterations, p)
    ensures Fits(old(a.allocation), a.nodeById) ==> Fits(a.allocation, a.nodeById)
    ensures NoneActivated(Members(a.nodes))
  {
    hide Fits, Allocator.Valid, ByCapacity, IsPlan, Serves, ServesAlone, SameOutside, Known, Roomy, FillFits, SortBy, Filled, Placed, PlanIds, GivenUpAt;
    PlanIsWithin(a.nodes, a.layers, a.iterations, k, plan);
    NobodyTouched(a.nodes, plan, a.allocation);
    for p := 0 to |plan|
      invariant a.Valid() && a.nodes == old(a.nodes) && a.nodeById == old(a.nodeById)
      invariant ServedUpTo(a.nodes, plan, a.allocation, a.layers, a.iterations, p)
      invariant AloneUpTo(a.nodes, plan, a.allocation, a.layers, a.iterations, p)
      invariant SameOutside(old(a.allocation), a.allocation, PlanIds(a.nodes, plan, p))
      invariant Fits(old(a.allocation), a.nodeById) ==> Fits(a.allocation, a.nodeById)
      invariant NoneActivated(Members(a.nodes))
      invariant forall q :: 0 <= q < p ==> AdjustableAt(a.nodes, plan, a.layers, a.iterations, q)
    {
      PipelineFacts(a, k, plan, p);
      var line := PipelineNodes(a.nodes, plan[p]);
      ghost var before := a.allocation;
      PlanIsDisjoint(a, k, plan);
      r := AdjustPipeline(a, line);
      if r.Raise? {
        GivenUp(a.nodes, plan, old(a.allocation), before, a.allocation, a.layers, a.iterations, p);
        assert !AdjustableAt(a.nodes, plan, a.layers, a.iterations, p);
        return;
      }
      NextServed(a.nodes, a.layers, a.iterations, k, plan, before, a.allocation, p);
      NextPlanIds(a.nodes, plan, p);
      SameOutsideBoth(old(a.allocation), before, a.allocation, PlanIds(a.nodes, plan, p), Ids(line));
    }
    r := Ok(());
  }

  lemma PlanIsDisjoint(a: Allocator, k: nat, plan: seq<seq<nat>>)
    requires a.Valid() && IsPlan(Search(a.layers, Fleet(a.nodes), k), plan)
    ensures DistinctIds(a.nodes) && NoSharing(plan)
  {
  }

  /** Everything it does follows from the plan it settles on.  Without one it returns false.  It raises exactly
      when some pipeline of the plan cannot take its layers, which room next to every endpoint and enough
      bisection steps exclude; otherwise the plan is in place, no other plan scores better, and a full pipeline
      exists.  After a raise one exists exactly when the plan keeps one. */
  method GlobalAllocation(a: Allocator) returns (r: Result<bool>)
    requires a.Valid() && ByCapacity(a.nodes)
    requires forall i :: 0 <= i < |a.nodes| ==> a.nodes[i].power > 0.0
    modifies a, Members(a.nodes), a.loads
    ensures a.Valid() && a.nodes == old(a.nodes) && a.nodeById == old(a.nodeById)
    ensures Comfortable(a.nodes, a.iterations) ==> r.Ok?
    ensures Feasible(a.layers, a.nodes) <==> PlanFor(a.nodes, a.layers) != []
    ensures Feasible(a.layers, a.nodes) ==> BestPlan(a.nodes, PlanFor(a.nodes, a.layers), a.layers)
    ensures r == Ok(false) <==> !Feasible(a.layers, a.nodes)
    ensures r.Ok? <==> AllAdjustable(a.nodes, PlanFor(a.nodes, a.layers), a.layers, a.iterations)
    ensures r == Ok(true) ==> FullPipeline(a.allocation, a.layers)
    ensures r == Ok(true) ==> Accommodated(a.nodes, a.layers, a.allocation)
    ensures r == Ok(true) ==> Realizes(a.nodes, PlanFor(a.nodes, a.layers), old(a.allocation), a.allocation, a.layers, a.iterations)
    ensures r == Ok(true) ==>
              CarriedOut(a, a.nodes, a.nodeById, PlanFor(a.nodes, a.layers), old(a.allocation), a.allocation)
    ensures r == Ok(false) ==> a.allocation == old(a.allocation)
    ensures r.Raise? ==> exists p ::
              GivenUpAt(a.nodes, PlanFor(a.nodes, a.layers), old(a.allocation), a.allocation, a.layers, a.iterations, p)
    ensures Feasible(a.layers, a.nodes) ==>
              (FullPipeline(a.allocation, a.layers) <==>
               KeepsPipeline(a.nodes, PlanFor(a.nodes, a.layers), old(a.allocation), a.layers, a.iterations))
    ensures Fits(old(a.allocation), a.nodeById) ==> Fits(a.allocation, a.nodeById)
    ensures NoneActivated(Members(a.nodes))
  {
    hide Fits, Allocator.Valid, ByCapacity, Comfortable, IsPlan, Serves, FullPipeline, ServedUpTo, AloneUpTo, Extends, Score, Stages,
         Accommodated, GivenUpAt, AllAdjustable, SameOutside, PlanIds, ChosenPlan, KeepsPipeline, LeftOver, SortBy;
    FleetIsOk(a.nodes);
    var best, plan := ChoosePipelines(a.layers, Fleet(a.nodes));
    if best == 0 {
      NothingToAdjust(a.nodes, a.layers, a.iterations);
      return Ok(false);
    }
    assert BestPlan(a.nodes, plan, a.layers);
    if Comfortable(a.nodes, a.iterations) {
      ComfortableIsAdjustable(a.nodes, a.layers, a.iterations, best, plan);
    }
    var adjusted := AdjustAll(a, best, plan);
    if adjusted.Raise? {
      ghost var p :| GivenUpAt(a.nodes, plan, old(a.allocation), a.allocation, a.layers, a.iterations, p);
      GivingUpKeeps(a.nodes, plan, old(a.allocation), a.allocation, a.layers, a.iterations, p);
      return Raise(adjusted.error);
    }
    ghost var before := a.allocation;
    assert InPlace(a.nodes, plan, old(a.allocation), before, a.layers, a.iterations);
    CapacityOrder(a.nodes);
    AllocateLeftOver(a);
    ServingExtends(a.nodes, plan, before, a.allocation, a.layers, a.iterations, |plan|);
    OthersExtend(a.nodes, plan, old(a.allocation), before, a.allocation);
    ServedIsFull(a.nodes, plan, a.allocation, a.layers, a.iterations);
    AdjustedKeeps(a.nodes, plan, old(a.allocation), a.layers, a.iterations);
    var full := HasFullPipeline(a.allocation, a.layers);
    assert Realizes(a.nodes, plan, old(a.allocation), a.allocation, a.layers, a.iterations);
    r := Ok(full);
  }

  lemma CapacityOrder(nodes: seq<Node>)
    requires ByCapacity(nodes)
    ensures SortBy(LargestFirst(), nodes) == nodes
  {
    SortedByCapacity(nodes);
  }

  lemma NothingToAdjust(nodes: seq<Node>, layers: nat, iterations: nat)
    ensures AllAdjustable(nodes, [], layers, iterations)
  {
  }

  lemma AdjustedKeeps(nodes: seq<Node>, plan: seq<seq<nat>>, before: Allocation, layers: nat, iterations: nat)
    requires plan != [] && AllAdjustable(nodes, plan, layers, iterations)
    ensures KeepsPipeline(nodes, plan, before, layers, iterations)
  {
  }

  lemma OthersExtend(nodes: seq<Node>, plan: seq<seq<nat>>, before: Allocation, middle: Allocation, after: Allocation)
    requires SameOutside(before, middle, PlanIds(nodes, plan, |plan|)) && Extends(middle, after)
    ensures Undisturbed(nodes, plan, before, after)
  {
  }

  lemma ServedIsFull(nodes: seq<Node>, plan: seq<seq<nat>>, alloc: Allocation, layers: nat, iterations: nat)
    requires ServedUpTo(nodes, plan, alloc, layers, iterations, |plan|) && plan != [] && layers > 0
    ensures FullPipeline(alloc, layers)
  {
    ServingIsFull(PipelineNodes(nodes, plan[0]), alloc, layers, iterations);
  }
}
