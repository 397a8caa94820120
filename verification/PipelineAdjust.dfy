/** Giving the nodes of one pipeline contiguous layer ranges.

    Capacities are taken with the endpoints reserved, the water-filling splits the layers, and the
    nodes are placed one after the other. */
module PipelineAdjust {
  import opened Outcomes
  import opened Ordering
  import opened ClusterNode
  import opened LayerIndex
  import opened LayerAllocator
  import opened WaterFilling

  /** The first node reserves the input embedding, the last one of several the LM head. */
  function StageCap(nodes: seq<Node>, i: nat): int
    requires i < |nodes|
  {
    if i == 0 then DecoderCapacity(nodes[i].hardware, true, false)
    else if i == |nodes| - 1 then DecoderCapacity(nodes[i].hardware, false, true)
    else nodes[i].Capacity()
  }

  function StageCaps(nodes: seq<Node>): (caps: seq<int>)
    ensures |caps| == |nodes|
    ensures forall i :: 0 <= i < |caps| ==> caps[i] == StageCap(nodes, i)
  {
    seq(|nodes|, i requires 0 <= i < |nodes| => StageCap(nodes, i))
  }

  function Powers(nodes: seq<Node>): (power: seq<real>)
    ensures |power| == |nodes|
    ensures forall i :: 0 <= i < |power| ==> power[i] == nodes[i].power
  {
    seq(|nodes|, i requires 0 <= i < |nodes| => nodes[i].power)
  }

  function Ids(nodes: seq<Node>): (ids: set<NodeId>)
    ensures forall i :: 0 <= i < |nodes| ==> nodes[i].id in ids
  {
    set n | n in nodes :: n.id
  }

  // ----- placement -----

  /** Layers before stage `i`. */
  function Offset(stages: seq<int>, i: nat): int
    requires i <= |stages|
  {
    Sum(stages[..i])
  }

  /** Every stage with layers sits on its node, right after the stages before it. */
  ghost predicate Placed(nodes: seq<Node>, stages: seq<int>, alloc: Allocation) {
    && |nodes| == |stages|
    && forall i :: 0 <= i < |stages| && stages[i] > 0 ==> PlacedAt(nodes, stages, alloc, i)
  }

  ghost predicate PlacedAt(nodes: seq<Node>, stages: seq<int>, alloc: Allocation, i: nat)
    requires i < |nodes| == |stages|
  {
    nodes[i].id in alloc && alloc[nodes[i].id] == Range(Offset(stages, i), Offset(stages, i) + stages[i])
  }

  /** The nodes share out all layers in contiguous ranges that fit their capacities, as the water-filling says. */
  ghost predicate Serves(nodes: seq<Node>, alloc: Allocation, layers: nat, iterations: nat) {
    exists stages ::
      Splits(stages, layers) && Placed(nodes, stages, alloc) && WithinCaps(nodes, stages) && Filled(nodes, stages, layers, iterations)
  }

  /** The same, and a node that gets no layer has no range. */
  ghost predicate ServesAlone(nodes: seq<Node>, alloc: Allocation, layers: nat, iterations: nat) {
    exists stages :: Filled(nodes, stages, layers, iterations) && Placed(nodes, stages, alloc) && EmptyOut(nodes, stages, alloc)
  }

  ghost predicate EmptyOut(nodes: seq<Node>, stages: seq<int>, alloc: Allocation) {
    |nodes| == |stages| && forall i :: 0 <= i < |stages| && stages[i] == 0 ==> nodes[i].id !in alloc
  }

  /** Every node could take a layer, and none takes more than it can. */
  ghost predicate WithinCaps(nodes: seq<Node>, stages: seq<int>) {
    |stages| == |nodes| && forall i :: 0 <= i < |nodes| ==> StageCap(nodes, i) > 0 && stages[i] <= StageCap(nodes, i)
  }

  ghost predicate Splits(stages: seq<int>, layers: nat) {
    Sum(stages) == layers && forall i :: 0 <= i < |stages| ==> stages[i] >= 0
  }

  lemma OffsetGrows(stages: seq<int>, i: nat)
    requires i < |stages|
    ensures Offset(stages, i + 1) == Offset(stages, i) + stages[i]
  {
    SumAppended(stages[..i], stages[i]);
    assert stages[..i + 1] == stages[..i] + [stages[i]];
  }

  lemma {:induction false} OffsetBounds(stages: seq<int>, i: nat)
    requires i <= |stages| && forall q :: 0 <= q < |stages| ==> stages[q] >= 0
    ensures 0 <= Offset(stages, i) <= Sum(stages)
    decreases |stages| - i
  {
    if i < |stages| {
      OffsetBounds(stages, i + 1);
      OffsetGrows(stages, i);
      NoNegativeOffset(stages, i);
    } else {
      assert stages[..i] == stages;
      NoNegativeOffset(stages, i);
    }
  }

  lemma {:induction false} NoNegativeOffset(stages: seq<int>, i: nat)
    requires i <= |stages| && forall q :: 0 <= q < |stages| ==> stages[q] >= 0
    ensures Offset(stages, i) >= 0
  {
    if i > 0 {
      NoNegativeOffset(stages, i - 1);
      OffsetGrows(stages, i - 1);
    }
  }

  /** The ranges of the stages from `i` on, as a chain. */
  lemma {:induction false} PlacedIsChain(nodes: seq<Node>, stages: seq<int>, alloc: Allocation, i: nat)
    returns (path: seq<Range>)
    requires Placed(nodes, stages, alloc) && i <= |stages| && forall q :: 0 <= q < |stages| ==> stages[q] >= 0
    ensures ChainIn(alloc.Values, path, Offset(stages, i), Sum(stages))
    decreases |stages| - i
  {
    if i == |stages| {
      assert stages[..i] == stages;
      path := [];
    } else {
      path := PlacedIsChain(nodes, stages, alloc, i + 1);
      OffsetGrows(stages, i);
      if stages[i] > 0 {
        assert PlacedAt(nodes, stages, alloc, i);
        var r := Range(Offset(stages, i), Offset(stages, i) + stages[i]);
        assert alloc[nodes[i].id] == r && r in alloc.Values;
        var longer := [r] + path;
        assert longer[1..] == path;
        path := longer;
      }
    }
  }

  lemma ServingIsFull(nodes: seq<Node>, alloc: Allocation, layers: nat, iterations: nat)
    requires Serves(nodes, alloc, layers, iterations) && layers > 0
    ensures FullPipeline(alloc, layers)
  {
    hide Filled;
    var stages :| Splits(stages, layers) && Placed(nodes, stages, alloc);
    var path := PlacedIsChain(nodes, stages, alloc, 0);
    assert path != [];
  }

  /** Outside the listed ids both maps agree. */
  ghost predicate SameOutside(before: Allocation, after: Allocation, ids: set<NodeId>) {
    forall id :: id !in ids ==> (id in before <==> id in after) && (id in before ==> before[id] == after[id])
  }

  lemma ServingSurvives(nodes: seq<Node>, before: Allocation, after: Allocation, layers: nat, iterations: nat, ids: set<NodeId>)
    requires Serves(nodes, before, layers, iterations) && SameOutside(before, after, ids) && Ids(nodes) !! ids
    ensures Serves(nodes, after, layers, iterations)
  {
    hide Filled;
    var stages :|
      Splits(stages, layers) && Placed(nodes, stages, before) && WithinCaps(nodes, stages) && Filled(nodes, stages, layers, iterations);
    forall i | 0 <= i < |stages| && stages[i] > 0 ensures PlacedAt(nodes, stages, after, i) {
      assert PlacedAt(nodes, stages, before, i);
      assert nodes[i].id in Ids(nodes);
    }
    assert Placed(nodes, stages, after);
  }

  lemma ServingAloneSurvives(nodes: seq<Node>, before: Allocation, after: Allocation, layers: nat, iterations: nat, ids: set<NodeId>)
    requires ServesAlone(nodes, before, layers, iterations) && SameOutside(before, after, ids) && Ids(nodes) !! ids
    ensures ServesAlone(nodes, after, layers, iterations)
  {
    hide Filled;
    var stages :| Filled(nodes, stages, layers, iterations) && Placed(nodes, stages, before) && EmptyOut(nodes, stages, before);
    assert forall i :: 0 <= i < |nodes| ==> nodes[i].id in Ids(nodes);
    forall i | 0 <= i < |stages| && stages[i] > 0 ensures PlacedAt(nodes, stages, after, i) {
      assert PlacedAt(nodes, stages, before, i);
    }
    assert Placed(nodes, stages, after);
  }

  // ----- the method -----

  /** What the allocator must know of the nodes of a pipeline. */
  ghost predicate Known(byId: map<NodeId, Node>, nodes: seq<Node>) {
    DistinctIds(nodes) && forall i :: 0 <= i < |nodes| ==> nodes[i].id in byId && byId[nodes[i].id] == nodes[i]
  }

  /** Takes the ranges of the listed nodes out. */
  method ClearRanges(a: Allocator, nodes: seq<Node>)
    requires a.Valid() && Known(a.nodeById, nodes)
    modifies a, Members(nodes), a.loads
    ensures a.Valid() && a.nodes == old(a.nodes) && a.nodeById == old(a.nodeById)
    ensures a.allocation == old(a.allocation) - Ids(nodes)
    ensures NoneActivated(Members(nodes))
  {
    hide Allocator.Valid, DistinctIds;
    for i := 0 to |nodes|
      invariant a.Valid() && a.nodes == old(a.nodes) && a.nodeById == old(a.nodeById)
      invariant a.allocation == old(a.allocation) - Ids(nodes[..i])
      invariant NoneActivated(Members(nodes))
    {
      assert nodes[i] in Members(nodes);
      IdsGrow(nodes, i);
      ClearNode(a, nodes[i]);
      if nodes[i].range.Some? {
        a.Deallocate(nodes[i]);
        TakenOut(old(a.allocation), Ids(nodes[..i]), nodes[i].id);
      } else {
        TakenOut(old(a.allocation), Ids(nodes[..i]), nodes[i].id);
        assert nodes[i].id !in a.allocation;
        assert a.allocation - {nodes[i].id} == a.allocation;
      }
    }
    assert nodes[..|nodes|] == nodes;
  }

  lemma IdsGrow(nodes: seq<Node>, i: nat)
    requires i < |nodes|
    ensures Ids(nodes[..i + 1]) == Ids(nodes[..i]) + {nodes[i].id}
  {
    var longer := nodes[..i + 1];
    assert longer == nodes[..i] + [nodes[i]];
    assert forall n :: n in longer <==> n in nodes[..i] || n == nodes[i];
  }

  lemma TakenOut(alloc: Allocation, ids: set<NodeId>, id: NodeId)
    ensures alloc - ids - {id} == alloc - (ids + {id})
  {
  }

  /** The stages before `i` are placed, the other nodes are clear. */
  ghost predicate Halfway(nodes: seq<Node>, stages: seq<int>, before: Allocation, alloc: Allocation, i: nat) {
    && |nodes| == |stages| && i <= |nodes|
    && (forall q :: i <= q < |nodes| ==> nodes[q].id !in alloc)
    && (forall q :: 0 <= q < i && stages[q] > 0 ==> PlacedAt(nodes, stages, alloc, q))
    && (forall q :: 0 <= q < i && stages[q] == 0 ==> nodes[q].id !in alloc)
    && SameOutside(before, alloc, Ids(nodes))
  }

  lemma NextPlaced(nodes: seq<Node>, stages: seq<int>, before: Allocation, alloc: Allocation, i: nat)
    requires Halfway(nodes, stages, before, alloc, i) && i < |nodes| && DistinctIds(nodes) && stages[i] >= 0
    ensures nodes[i].id !in alloc
    ensures if stages[i] > 0 then
              Halfway(nodes, stages, before, alloc[nodes[i].id := Range(Offset(stages, i), Offset(stages, i) + stages[i])], i + 1)
            else Halfway(nodes, stages, before, alloc, i + 1)
  {
    hide Offset;
    if stages[i] > 0 {
      var next := alloc[nodes[i].id := Range(Offset(stages, i), Offset(stages, i) + stages[i])];
      forall q | 0 <= q < i + 1 && stages[q] > 0 ensures PlacedAt(nodes, stages, next, q) {
        assert q < i ==> PlacedAt(nodes, stages, alloc, q) && nodes[q].id != nodes[i].id;
      }
    }
  }

  /** Places the stages on the cleared nodes, one after the other. */
  method Place(a: Allocator, nodes: seq<Node>, stages: seq<int>)
    requires a.Valid() && Known(a.nodeById, nodes) && |stages| == |nodes|
    requires Splits(stages, a.layers) && WithinCaps(nodes, stages)
    requires forall i :: 0 <= i < |nodes| ==> nodes[i].id !in a.allocation
    modifies a, Members(nodes), a.loads
    ensures a.Valid() && a.nodes == old(a.nodes) && a.nodeById == old(a.nodeById)
    ensures Placed(nodes, stages, a.allocation) && EmptyOut(nodes, stages, a.allocation)
    ensures SameOutside(old(a.allocation), a.allocation, Ids(nodes))
    ensures Fits(old(a.allocation), a.nodeById) ==> Fits(a.allocation, a.nodeById)
    ensures NoneActivated(Members(nodes))
  {
    hide Allocator.Valid, DistinctIds, Offset, Ids, Halfway, Sum, Fits;
    var start := 0;
    NonePlaced(nodes, stages, a.allocation);
    for i := 0 to |nodes|
      invariant a.Valid() && a.nodes == old(a.nodes) && a.nodeById == old(a.nodeById)
      invariant start == Offset(stages, i)
      invariant Halfway(nodes, stages, old(a.allocation), a.allocation, i)
      invariant Fits(old(a.allocation), a.nodeById) ==> Fits(a.allocation, a.nodeById)
      invariant NoneActivated(Members(nodes))
    {
      OffsetGrows(stages, i);
      NextPlaced(nodes, stages, old(a.allocation), a.allocation, i);
      if stages[i] > 0 {
        OffsetBounds(stages, i);
        OffsetBounds(stages, i + 1);
        assert nodes[i] in Members(nodes);
        ClearNode(a, nodes[i]);
        AddedFits(a.allocation, a.nodeById, nodes[i].id, Range(start, start + stages[i]), i == 0, i != 0 && i == |nodes| - 1);
        var r := a.Allocate(nodes[i], start, start + stages[i]);
        assert a.nodeById == old(a.nodeById);
        start := start + stages[i];
      }
    }
    AllPlaced(nodes, stages, old(a.allocation), a.allocation);
  }

  lemma NonePlaced(nodes: seq<Node>, stages: seq<int>, alloc: Allocation)
    requires |nodes| == |stages| && forall i :: 0 <= i < |nodes| ==> nodes[i].id !in alloc
    ensures Halfway(nodes, stages, alloc, alloc, 0) && Offset(stages, 0) == 0
  {
  }

  lemma ClearNode(a: Allocator, node: Node)
    requires a.Valid() && node.id in a.nodeById && a.nodeById[node.id] == node
    ensures (node.range == None) == (node.id !in a.allocation)
  {
  }

  lemma AllPlaced(nodes: seq<Node>, stages: seq<int>, before: Allocation, alloc: Allocation)
    requires Halfway(nodes, stages, before, alloc, |nodes|)
    ensures Placed(nodes, stages, alloc) && EmptyOut(nodes, stages, alloc) && SameOutside(before, alloc, Ids(nodes))
  {
  }

  // ----- adjusting a pipeline -----

  /** The capacities can take the layers, and each of them is positive. */
  ghost predicate Roomy(nodes: seq<Node>, layers: nat) {
    Sum(StageCaps(nodes)) >= layers && forall i :: 0 <= i < |nodes| ==> StageCap(nodes, i) > 0
  }

  /** Enough bisection steps for this pipeline. */
  ghost predicate StepsSuffice(nodes: seq<Node>, iterations: nat) {
    && nodes != [] && (forall i :: 0 <= i < |nodes| ==> nodes[i].power > 0.0)
    && MaxRatio(StageCaps(nodes), Powers(nodes)) * SumReal(Powers(nodes)) <= Pow2(iterations)
  }

  /** The stages come from the water level the bisection ends at. */
  ghost predicate Filled(nodes: seq<Node>, stages: seq<int>, layers: nat, iterations: nat) {
    && Fillable(StageCaps(nodes), Powers(nodes), layers)
    && IsFilling(StageCaps(nodes), Powers(nodes), layers, iterations, stages)
  }

  /** The capacities of the stages, or the exception for one that is not positive. */
  method ReadCaps(nodes: seq<Node>) returns (r: Result<seq<int>>)
    ensures r.Ok? ==> r.value == StageCaps(nodes) && forall i :: 0 <= i < |nodes| ==> StageCap(nodes, i) > 0
    ensures r.Raise? ==> r.error == NonPositiveCapacity && exists i :: 0 <= i < |nodes| && StageCap(nodes, i) <= 0
  {
    var caps: seq<int> := [];
    for i := 0 to |nodes|
      invariant |caps| == i
      invariant forall q :: 0 <= q < i ==> caps[q] == StageCap(nodes, q) && caps[q] > 0
    {
      var cap := StageCap(nodes, i);
      if cap <= 0 {
        return Raise(NonPositiveCapacity);
      }
      caps := caps + [cap];
    }
    assert caps == StageCaps(nodes);
    r := Ok(caps);
  }

  lemma FillingSplits(nodes: seq<Node>, stages: seq<int>, layers: nat, iterations: nat)
    requires Filled(nodes, stages, layers, iterations)
    ensures |stages| == |nodes| && Splits(stages, layers) && WithinCaps(nodes, stages)
  {
    hide IsLevel, MaxRatio, Sum, SumReal, Target, Level;
    var caps, power := StageCaps(nodes), Powers(nodes);
    var lam := Level(caps, power, layers, iterations);
    LevelIsLevel(caps, power, layers, iterations);
    LevelTargets(caps, power, layers, iterations, lam);
    RoundedStages(caps, Targets(caps, power, lam), layers, stages);
  }

  lemma RoundedStages(caps: seq<int>, target: seq<real>, layers: int, stages: seq<int>)
    requires Rounded(caps, target, layers, stages) && forall i :: 0 <= i < |target| ==> target[i] >= 0.0
    ensures Sum(stages) == layers && |stages| == |caps|
    ensures forall i :: 0 <= i < |stages| ==> 0 <= stages[i] <= caps[i]
  {
    hide FairlyRounded, Sum;
    forall i | 0 <= i < |stages| ensures 0 <= stages[i] <= caps[i] {
      assert RoundedAt(caps, target, stages, i);
    }
  }

  /** The filling of the pipeline does not overshoot. */
  ghost predicate FillFits(nodes: seq<Node>, layers: nat, iterations: nat) {
    Fillable(StageCaps(nodes), Powers(nodes), layers) && FloorsFit(StageCaps(nodes), Powers(nodes), layers, iterations)
  }

  lemma StepsFillFits(nodes: seq<Node>, layers: nat, iterations: nat)
    requires layers > 0 && Roomy(nodes, layers) && StepsSuffice(nodes, iterations)
    ensures FillFits(nodes, layers, iterations)
  {
    hide MaxRatio, SumReal, Pow2, Sum, IsLevel;
    var caps, power := StageCaps(nodes), Powers(nodes);
    LevelIsLevel(caps, power, layers, iterations);
    EnoughIterations(caps, power, layers, iterations, Level(caps, power, layers, iterations));
  }

  /** Rebalances one pipeline.  It raises exactly for lack of nodes or layers, of capacity, or when the filling
      overshoots; the nodes' ranges are gone then.  Otherwise its nodes, largest first, share out all layers as
      the water-filling says. */
  method AdjustPipeline(a: Allocator, pipeline: seq<Node>) returns (r: Result<()>)
    requires a.Valid() && Known(a.nodeById, pipeline)
    requires forall i :: 0 <= i < |pipeline| ==> pipeline[i].power > 0.0
    modifies a, Members(pipeline), a.loads
    ensures a.Valid() && a.nodes == old(a.nodes) && a.nodeById == old(a.nodeById)
    ensures SameOutside(old(a.allocation), a.allocation, Ids(pipeline))
    ensures r.Ok? ==>
              && Serves(SortBy(LargestFirst(), pipeline), a.allocation, a.layers, a.iterations)
              && ServesAlone(SortBy(LargestFirst(), pipeline), a.allocation, a.layers, a.iterations)
    ensures var nodes := SortBy(LargestFirst(), pipeline);
            r.Ok? <==> nodes != [] && a.layers > 0 && Roomy(nodes, a.layers) && FillFits(nodes, a.layers, a.iterations)
    ensures r.Raise? ==>
              a.allocation == if pipeline == [] || a.layers == 0 then old(a.allocation) else old(a.allocation) - Ids(pipeline)
    ensures Fits(old(a.allocation), a.nodeById) ==> Fits(a.allocation, a.nodeById)
    ensures NoneActivated(Members(pipeline))
  {
    hide Fits, SortBy, Allocator.Valid, DistinctIds, Offset, Ids, MaxRatio, SumReal, Pow2, Sum, IsFilling, Placed, EmptyOut, FloorsFit;
    var nodes := SortBy(LargestFirst(), pipeline);
    SortedPipeline(pipeline, a.nodeById);
    if pipeline == [] || a.layers <= 0 {
      return Raise(NoNodes);
    }
    FewerFit(a.allocation, a.nodeById, Ids(nodes));
    ClearRanges(a, nodes);
    var caps := ReadCaps(nodes);
    if caps.Raise? {
      return Raise(caps.error);
    }
    var stages := Fill(caps.value, Powers(nodes), a.layers, a.iterations);
    if stages.Raise? {
      return Raise(stages.error);
    }
    FillingSplits(nodes, stages.value, a.layers, a.iterations);
    assert forall i :: 0 <= i < |nodes| ==> nodes[i].id in Ids(nodes);
    Place(a, nodes, stages.value);
    r := Ok(());
  }

  lemma SortedPipeline(pipeline: seq<Node>, byId: map<NodeId, Node>)
    requires Known(byId, pipeline) && forall i :: 0 <= i < |pipeline| ==> pipeline[i].power > 0.0
    ensures var nodes := SortBy(LargestFirst(), pipeline);
            && Known(byId, nodes) && Members(nodes) == Members(pipeline) && Ids(nodes) == Ids(pipeline)
            && |nodes| == |pipeline| && forall i :: 0 <= i < |nodes| ==> nodes[i].power > 0.0
  {
    hide SortBy;
    var nodes := SortBy(LargestFirst(), pipeline);
    SortedByCapacity(pipeline);
    RearrangedMatch(pipeline, nodes, ById(pipeline));
    SameIds(pipeline, nodes);
    forall i | 0 <= i < |nodes|
      ensures nodes[i].id in byId && byId[nodes[i].id] == nodes[i] && nodes[i].power > 0.0
    {
      assert nodes[i] in Members(nodes);
      var q :| 0 <= q < |pipeline| && pipeline[q] == nodes[i];
    }
  }

  lemma SameIds(a: seq<Node>, b: seq<Node>)
    requires Members(a) == Members(b)
    ensures Ids(a) == Ids(b)
  {
    assert Ids(a) == set n | n in Members(a) :: n.id;
    assert Ids(b) == set n | n in Members(b) :: n.id;
  }
}
