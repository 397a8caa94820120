/** Routing requests over whole shards: the cheapest chain of active nodes from the first layer to the last. */
module ShardRouting {
  import opened Outcomes
  import opened Ordering
  import opened ClusterNode
  import opened Latency

  /** What routing looks at in a node: its range, whether it is active, its latency (infinite when
      overloaded), and the round trips measured to other nodes. */
  datatype Shard = Shard(id: NodeId, range: Option<Range>, active: bool, latency: Time, rtt: map<NodeId, real>)

  /** Getting from one node to the next; free on the same node, infinite when never measured. */
  function Transfer(a: Shard, b: Shard): Time {
    if a.id == b.id then Fin(0.0) else if b.id in a.rtt then Fin(a.rtt[b.id]) else Inf
  }

  ghost predicate ProperRanges(nodes: seq<Shard>) {
    forall i :: 0 <= i < |nodes| && nodes[i].range.Some? ==> 0 <= nodes[i].range.value.start < nodes[i].range.value.end
  }

  /** Routing uses active nodes with a range. */
  predicate Usable(nodes: seq<Shard>, i: int) {
    0 <= i < |nodes| && nodes[i].range.Some? && nodes[i].active
  }

  /** A chain of usable nodes over contiguous ranges, from layer 0 up to and including node `i`. */
  ghost predicate ChainTo(nodes: seq<Shard>, path: seq<nat>, i: nat)
    decreases |path|
  {
    && path != [] && path[|path| - 1] == i && Usable(nodes, i)
    && (if |path| == 1 then nodes[i].range.value.start == 0
        else
          var j := path[|path| - 2];
          && ChainTo(nodes, path[..|path| - 1], j)
          && nodes[j].range.value.end == nodes[i].range.value.start)
  }

  /** Node latencies plus transfers along a path. */
  function Cost(nodes: seq<Shard>, path: seq<nat>): Time
    requires path != [] && forall k :: 0 <= k < |path| ==> path[k] < |nodes|
    decreases |path|
  {
    var last := path[|path| - 1];
    if |path| == 1 then nodes[last].latency
    else
      Plus(Plus(Cost(nodes, path[..|path| - 1]), Transfer(nodes[path[|path| - 2]], nodes[last])), nodes[last].latency)
  }

  /** Latencies of the nodes and measured round trips of the hops, all of them finite. */
  ghost predicate Measures(nodes: seq<Shard>, path: seq<nat>, latencies: seq<real>, trips: seq<real>)
    requires path != [] && forall k :: 0 <= k < |path| ==> path[k] < |nodes|
  {
    && |latencies| == |path| && |trips| == |path| - 1
    && (forall k :: 0 <= k < |path| ==> nodes[path[k]].latency == Fin(latencies[k]))
    && forall k :: 0 <= k < |trips| ==> Measured(nodes[path[k]], nodes[path[k + 1]], trips[k])
  }

  ghost predicate Measured(a: Shard, b: Shard, trip: real) {
    if a.id == b.id then trip == 0.0 else b.id in a.rtt && a.rtt[b.id] == trip
  }

  /** A path costs the sum of its nodes' latencies and its hops' round trips; it costs infinitely much exactly when
      some of these are missing. */
  lemma {:induction false} CostIsSum(nodes: seq<Shard>, path: seq<nat>)
    requires path != [] && forall k :: 0 <= k < |path| ==> path[k] < |nodes|
    ensures Cost(nodes, path).Fin? <==> exists latencies, trips :: Measures(nodes, path, latencies, trips)
    ensures forall latencies, trips :: Measures(nodes, path, latencies, trips) ==>
              Cost(nodes, path) == Fin(SumReal(latencies) + SumReal(trips))
    decreases |path|
  {
    hide Measured, SumReal;
    var n := |path| - 1;
    if n == 0 {
      forall latencies, trips | Measures(nodes, path, latencies, trips)
        ensures Cost(nodes, path) == Fin(SumReal(latencies) + SumReal(trips))
      {
        SumOfOne(latencies, trips);
      }
      if nodes[path[0]].latency.Fin? {
        assert Measures(nodes, path, [nodes[path[0]].latency.ms], []);
      }
    } else {
      var init, a, b := path[..n], nodes[path[n - 1]], nodes[path[n]];
      CostIsSum(nodes, init);
      TransferIs(a, b);
      forall latencies, trips | Measures(nodes, path, latencies, trips)
        ensures Cost(nodes, path) == Fin(SumReal(latencies) + SumReal(trips))
      {
        assert Measured(a, b, trips[n - 1]);
        assert Measures(nodes, init, latencies[..n], trips[..n - 1]);
        SumRealAppended(latencies[..n], latencies[n]);
        SumRealAppended(trips[..n - 1], trips[n - 1]);
        assert latencies == latencies[..n] + [latencies[n]] && trips == trips[..n - 1] + [trips[n - 1]];
      }
      if Cost(nodes, path).Fin? {
        var latencies, trips :| Measures(nodes, init, latencies, trips);
        assert Measures(nodes, path, latencies + [b.latency.ms], trips + [Transfer(a, b).ms]);
      }
    }
  }

  lemma SumOfOne(latencies: seq<real>, trips: seq<real>)
    requires |latencies| == 1 && trips == []
    ensures SumReal(latencies) + SumReal(trips) == latencies[0]
  {
    assert latencies[1..] == [];
  }

  lemma TransferIs(a: Shard, b: Shard)
    ensures Transfer(a, b).Fin? ==> Measured(a, b, Transfer(a, b).ms)
    ensures forall trip :: Measured(a, b, trip) ==> Transfer(a, b) == Fin(trip)
  {
  }

  lemma {:induction false} ChainNodes(nodes: seq<Shard>, path: seq<nat>, i: nat)
    requires ChainTo(nodes, path, i)
    ensures forall k :: 0 <= k < |path| ==> path[k] < |nodes| && Usable(nodes, path[k])
    decreases |path|
  {
    if |path| > 1 {
      ChainNodes(nodes, path[..|path| - 1], path[|path| - 2]);
      assert forall k :: 0 <= k < |path| - 1 ==> path[k] == path[..|path| - 1][k];
    }
  }

  /** No chain to `i` costs less. */
  ghost predicate LowerBound(nodes: seq<Shard>, i: nat, cost: Time) {
    forall path :: ChainTo(nodes, path, i) ==> CostsAtLeast(nodes, path, cost)
  }

  ghost predicate CostsAtLeast(nodes: seq<Shard>, path: seq<nat>, cost: Time) {
    path != [] && (forall k :: 0 <= k < |path| ==> path[k] < |nodes|) && AtMost(cost, Cost(nodes, path))
  }

  /** A finite cost is the cost of the given chain. */
  ghost predicate Attained(nodes: seq<Shard>, i: nat, cost: Time, path: seq<nat>) {
    cost.Fin? ==>
      ChainTo(nodes, path, i) && (forall k :: 0 <= k < |path| ==> path[k] < |nodes|) && Cost(nodes, path) == cost
  }

  /** Reaching `i` over `j`. */
  function Via(nodes: seq<Shard>, dp: seq<Time>, j: nat, i: nat): Time
    requires j < |nodes| && i < |nodes| && |dp| == |nodes|
  {
    Plus(Plus(dp[j], Transfer(nodes[j], nodes[i])), nodes[i].latency)
  }

  /** The last node before `i` on a chain was reached at least as cheaply by the table. */
  lemma StepBound(nodes: seq<Shard>, dp: seq<Time>, i: nat, cost: Time, path: seq<nat>)
    requires |dp| == |nodes| && ChainTo(nodes, path, i)
    requires |path| == 1 ==> AtMost(cost, nodes[i].latency)
    requires |path| > 1 ==> path[|path| - 2] < |nodes|
                            && LowerBound(nodes, path[|path| - 2], dp[path[|path| - 2]])
                            && AtMost(cost, Via(nodes, dp, path[|path| - 2], i))
    ensures CostsAtLeast(nodes, path, cost)
  {
    ChainNodes(nodes, path, i);
    if |path| > 1 {
      var init := path[..|path| - 1];
      var j := path[|path| - 2];
      assert CostsAtLeast(nodes, init, dp[j]);
      PlusMonotone(dp[j], Cost(nodes, init), Transfer(nodes[j], nodes[i]));
      PlusMonotone(Plus(dp[j], Transfer(nodes[j], nodes[i])),
                   Plus(Cost(nodes, init), Transfer(nodes[j], nodes[i])), nodes[i].latency);
      AtMostTransitive(cost, Via(nodes, dp, j, i), Cost(nodes, path));
    }
  }

  lemma ExtendChain(nodes: seq<Shard>, j: nat, i: nat, cost: Time, path: seq<nat>)
    requires Attained(nodes, j, cost, path) && cost.Fin? && Usable(nodes, i) && Usable(nodes, j)
    requires nodes[j].range.value.end == nodes[i].range.value.start
    ensures Attained(nodes, i, Plus(Plus(cost, Transfer(nodes[j], nodes[i])), nodes[i].latency), path + [i])
  {
    assert (path + [i])[..|path|] == path;
  }

  // ----- the table -----

  type ByLayer = map<int, seq<nat>>

  ghost predicate StartIndex(nodes: seq<Shard>, starts: ByLayer, n: nat) {
    && (forall l, i :: l in starts && i in starts[l] ==> Usable(nodes, i) && nodes[i].range.value.start == l)
    && (forall i :: 0 <= i < n && Usable(nodes, i) ==>
          nodes[i].range.value.start in starts && i in starts[nodes[i].range.value.start])
  }

  ghost predicate EndIndex(nodes: seq<Shard>, ends: ByLayer, n: nat) {
    && (forall l, i :: l in ends && i in ends[l] ==> Usable(nodes, i) && nodes[i].range.value.end == l)
    && (forall i :: 0 <= i < n && Usable(nodes, i) ==>
          nodes[i].range.value.end in ends && i in ends[nodes[i].range.value.end])
  }

  function At(index: ByLayer, layer: int): seq<nat> {
    if layer in index then index[layer] else []
  }

  function Append(index: ByLayer, layer: int, i: nat): ByLayer {
    index[layer := At(index, layer) + [i]]
  }

  lemma AppendStarts(nodes: seq<Shard>, starts: ByLayer, ends: ByLayer, i: nat)
    requires i < |nodes| && StartIndex(nodes, starts, i) && EndIndex(nodes, ends, i)
    ensures Usable(nodes, i) ==> StartIndex(nodes, Append(starts, nodes[i].range.value.start, i), i + 1)
    ensures !Usable(nodes, i) ==> StartIndex(nodes, starts, i + 1)
  {
    if Usable(nodes, i) {
      var layer := nodes[i].range.value.start;
      assert forall j :: j in At(starts, layer) + [i] <==> j in At(starts, layer) || j == i;
    }
  }

  lemma AppendEnds(nodes: seq<Shard>, starts: ByLayer, ends: ByLayer, i: nat)
    requires i < |nodes| && StartIndex(nodes, starts, i) && EndIndex(nodes, ends, i)
    ensures Usable(nodes, i) ==> EndIndex(nodes, Append(ends, nodes[i].range.value.end, i), i + 1)
    ensures !Usable(nodes, i) ==> EndIndex(nodes, ends, i + 1)
  {
    if Usable(nodes, i) {
      var layer := nodes[i].range.value.end;
      assert forall j :: j in At(ends, layer) + [i] <==> j in At(ends, layer) || j == i;
    }
  }

  /** The usable nodes by start layer and by end layer. */
  method Collect(nodes: seq<Shard>) returns (starts: ByLayer, ends: ByLayer)
    ensures StartIndex(nodes, starts, |nodes|) && EndIndex(nodes, ends, |nodes|)
  {
    hide StartIndex, EndIndex, Append;
    starts, ends := map[], map[];
    NothingIndexed(nodes);
    for i := 0 to |nodes|
      invariant StartIndex(nodes, starts, i) && EndIndex(nodes, ends, i)
    {
      AppendStarts(nodes, starts, ends, i);
      AppendEnds(nodes, starts, ends, i);
      if Usable(nodes, i) {
        starts := Append(starts, nodes[i].range.value.start, i);
        ends := Append(ends, nodes[i].range.value.end, i);
      }
    }
  }

  lemma NothingIndexed(nodes: seq<Shard>)
    ensures StartIndex(nodes, map[], 0) && EndIndex(nodes, map[], 0)
  {
  }

  datatype Vertex = Vertex(index: nat, start: int, end: int)

  function EarlierRange(): (le: (Vertex, Vertex) -> bool) {
    (x: Vertex, y: Vertex) => x.start < y.start || (x.start == y.start && x.end <= y.end)
  }

  ghost predicate VertexOf(nodes: seq<Shard>, v: Vertex) {
    v.index < |nodes| && nodes[v.index].range == Some(Range(v.start, v.end))
  }

  /** Every node with a range, earlier ranges first; inactive nodes are listed too. */
  ghost predicate InOrder(nodes: seq<Shard>, order: seq<Vertex>) {
    && (forall k :: 0 <= k < |order| ==> VertexOf(nodes, order[k]))
    && (forall k, m :: 0 <= k < m < |order| ==> order[k].start <= order[m].start && order[k].index != order[m].index)
    && (forall i :: 0 <= i < |nodes| && nodes[i].range.Some? ==> exists k :: 0 <= k < |order| && order[k].index == i)
  }

  method Ordered(nodes: seq<Shard>) returns (order: seq<Vertex>)
    ensures InOrder(nodes, order)
  {
    var list: seq<Vertex> := [];
    for i := 0 to |nodes|
      invariant forall k :: 0 <= k < |list| ==> VertexOf(nodes, list[k]) && list[k].index < i
      invariant forall k, m :: 0 <= k < m < |list| ==> list[k].index != list[m].index
      invariant forall j :: 0 <= j < i && nodes[j].range.Some? ==> exists k :: 0 <= k < |list| && list[k].index == j
    {
      if nodes[i].range.Some? {
        ghost var before := list;
        list := list + [Vertex(i, nodes[i].range.value.start, nodes[i].range.value.end)];
        forall j | 0 <= j < i + 1 && nodes[j].range.Some? ensures exists k :: 0 <= k < |list| && list[k].index == j {
          if j == i {
            assert list[|before|].index == j;
          } else {
            var k :| 0 <= k < |before| && before[k].index == j;
            assert list[k].index == j;
          }
        }
      }
    }
    order := SortBy(EarlierRange(), list);
    SortedOrder(nodes, list);
  }

  lemma StartsGoUp(list: seq<Vertex>)
    ensures var order := SortBy(EarlierRange(), list);
            && multiset(order) == multiset(list)
            && forall k, m :: 0 <= k < m < |order| ==> order[k].start <= order[m].start
  {
    var order := SortBy(EarlierRange(), list);
    SortBySorts(EarlierRange(), list);
    SortByRearranges(EarlierRange(), list);
    forall k, m | 0 <= k < m < |order| ensures order[k].start <= order[m].start {
      assert EarlierRange()(order[k], order[m]);
    }
  }

  lemma SameEntries(nodes: seq<Shard>, list: seq<Vertex>, order: seq<Vertex>)
    requires multiset(order) == multiset(list)
    requires forall k :: 0 <= k < |list| ==> VertexOf(nodes, list[k])
    requires forall j :: 0 <= j < |nodes| && nodes[j].range.Some? ==> exists k :: 0 <= k < |list| && list[k].index == j
    ensures forall k :: 0 <= k < |order| ==> VertexOf(nodes, order[k])
    ensures forall j :: 0 <= j < |nodes| && nodes[j].range.Some? ==> exists k :: 0 <= k < |order| && order[k].index == j
  {
    forall k | 0 <= k < |order| ensures VertexOf(nodes, order[k]) {
      assert order[k] in multiset(order);
      var m := FindIn(order[k], list);
    }
    forall j | 0 <= j < |nodes| && nodes[j].range.Some? ensures exists k :: 0 <= k < |order| && order[k].index == j {
      var m :| 0 <= m < |list| && list[m].index == j;
      assert list[m] in multiset(list);
      var k := FindIn(list[m], order);
    }
  }

  lemma SortedOrder(nodes: seq<Shard>, list: seq<Vertex>)
    requires forall k :: 0 <= k < |list| ==> VertexOf(nodes, list[k])
    requires forall k, m {:trigger list[k], list[m]} :: 0 <= k < m < |list| ==> list[k].index != list[m].index
    requires forall j :: 0 <= j < |nodes| && nodes[j].range.Some? ==> exists k :: 0 <= k < |list| && list[k].index == j
    ensures InOrder(nodes, SortBy(EarlierRange(), list))
  {
    var order := SortBy(EarlierRange(), list);
    StartsGoUp(list);
    hide SortBy;
    SameEntries(nodes, list, order);
    forall k, m | 0 <= k < m < |order| ensures order[k].index != order[m].index {
      assert VertexOf(nodes, order[k]) && VertexOf(nodes, order[m]);
      EachOnce(list, order[k]);
      if order[k] == order[m] {
        Twice(order, k, m);
      }
    }
  }

  // ----- the search -----

  /** Where the table stands after the first `done` vertices: their entries are the optimal costs, with
      the chains that attain them. */
  ghost predicate Settled(nodes: seq<Shard>, dp: seq<Time>, paths: seq<seq<nat>>, i: nat)
    requires |dp| == |paths| == |nodes| && i < |nodes|
  {
    Usable(nodes, i) ==> LowerBound(nodes, i, dp[i]) && Attained(nodes, i, dp[i], paths[i])
  }

  /** Parent links spell out the recorded chains, and lead to earlier ranges. */
  ghost predicate Linked(nodes: seq<Shard>, parent: seq<Option<nat>>, paths: seq<seq<nat>>, i: nat)
    requires |parent| == |paths| == |nodes| && i < |paths|
  {
    match parent[i]
    case None => paths[i] == [i]
    case Some(j) =>
      && j < |paths| && Usable(nodes, j) && nodes[i].range.Some?
      && nodes[j].range.value.end == nodes[i].range.value.start && paths[i] == paths[j] + [i]
  }

  ghost predicate TableOk(nodes: seq<Shard>, order: seq<Vertex>, dp: seq<Time>, parent: seq<Option<nat>>,
                          paths: seq<seq<nat>>, done: nat)
    requires done <= |order| && forall k :: 0 <= k < |order| ==> order[k].index < |nodes|
  {
    && |dp| == |parent| == |paths| == |nodes|
    && (forall k :: 0 <= k < done ==>
          Settled(nodes, dp, paths, order[k].index) && Linked(nodes, parent, paths, order[k].index))
    && (forall k :: done <= k < |order| ==> Untouched(nodes, dp, parent, paths, order[k].index))
  }

  /** A node not yet reached in the order holds its starting value. */
  ghost predicate Untouched(nodes: seq<Shard>, dp: seq<Time>, parent: seq<Option<nat>>, paths: seq<seq<nat>>, i: nat)
    requires |dp| == |parent| == |paths| == |nodes| && i < |nodes|
  {
    && parent[i] == None && paths[i] == [i]
    && dp[i] == if Usable(nodes, i) && nodes[i].range.value.start == 0 then nodes[i].latency else Inf
  }

  /** Relaxes node `i` over its predecessors. */
  method Relax(nodes: seq<Shard>, preds: seq<nat>, i: nat, dp: seq<Time>, parent: seq<Option<nat>>, ghost paths: seq<seq<nat>>)
      returns (dp': seq<Time>, parent': seq<Option<nat>>, ghost paths': seq<seq<nat>>)
    requires ProperRanges(nodes) && i < |nodes| == |dp| == |parent| == |paths| && nodes[i].range.Some?
    requires Untouched(nodes, dp, parent, paths, i)
    requires forall m :: 0 <= m < |preds| ==> preds[m] < |nodes|
    requires forall j :: j in preds ==>
               Usable(nodes, j) && nodes[j].range.value.end == nodes[i].range.value.start && Settled(nodes, dp, paths, j)
    requires forall j :: 0 <= j < |nodes| && Usable(nodes, j) && nodes[j].range.value.end == nodes[i].range.value.start
               ==> j in preds
    ensures |dp'| == |parent'| == |paths'| == |nodes|
    ensures Settled(nodes, dp', paths', i) && Linked(nodes, parent', paths', i)
    ensures dp' == dp[i := dp'[i]] && parent' == parent[i := parent'[i]] && paths' == paths[i := paths'[i]]
  {
    dp', parent', paths' := dp, parent, paths;
    StartAttained(nodes, i, dp[i]);
    for k := 0 to |preds|
      invariant |dp'| == |parent'| == |paths'| == |nodes|
      invariant dp' == dp[i := dp'[i]] && parent' == parent[i := parent'[i]] && paths' == paths[i := paths'[i]]
      invariant Linked(nodes, parent', paths', i)
      invariant AtMost(dp'[i], dp[i]) && (Usable(nodes, i) ==> Attained(nodes, i, dp'[i], paths'[i]))
      invariant forall m :: 0 <= m < k ==> AtMost(dp'[i], Via(nodes, dp, preds[m], i))
    {
      var j := preds[k];
      if dp'[j].Fin? {
        var cand := Plus(Plus(dp'[j], Transfer(nodes[j], nodes[i])), nodes[i].latency);
        if Less(cand, dp'[i]) {
          if Usable(nodes, i) {
            ExtendChain(nodes, j, i, dp[j], paths[j]);
          }
          dp' := dp'[i := cand];
          parent' := parent'[i := Some(j)];
          paths' := paths'[i := paths[j] + [i]];
        }
      }
    }
    if Usable(nodes, i) {
      RelaxedIsOptimal(nodes, preds, i, dp, paths, dp'[i]);
    }
  }

  lemma StartAttained(nodes: seq<Shard>, i: nat, cost: Time)
    requires i < |nodes| && nodes[i].range.Some?
    requires cost == if Usable(nodes, i) && nodes[i].range.value.start == 0 then nodes[i].latency else Inf
    ensures Usable(nodes, i) ==> Attained(nodes, i, cost, [i])
  {
  }

  lemma {:induction false} RelaxedIsOptimal(nodes: seq<Shard>, preds: seq<nat>, i: nat, dp: seq<Time>, paths: seq<seq<nat>>, cost: Time)
    requires i < |nodes| == |dp| == |paths| && Usable(nodes, i)
    requires nodes[i].range.value.start == 0 ==> AtMost(cost, nodes[i].latency)
    requires forall m :: 0 <= m < |preds| ==> preds[m] < |nodes| && AtMost(cost, Via(nodes, dp, preds[m], i))
    requires forall j :: j in preds ==> Usable(nodes, j) && Settled(nodes, dp, paths, j)
    requires forall j :: 0 <= j < |nodes| && Usable(nodes, j) && nodes[j].range.value.end == nodes[i].range.value.start
               ==> j in preds
    ensures LowerBound(nodes, i, cost)
  {
    forall path | ChainTo(nodes, path, i) ensures CostsAtLeast(nodes, path, cost) {
      ChainNodes(nodes, path, i);
      if |path| > 1 {
        var j := path[|path| - 2];
        assert ChainTo(nodes, path[..|path| - 1], j) && j in preds;
        assert Settled(nodes, dp, paths, j);
      }
      StepBound(nodes, dp, i, cost, path);
    }
  }

  /** The ids along a path. */
  function Names(nodes: seq<Shard>, path: seq<nat>): seq<NodeId>
    requires forall k :: 0 <= k < |path| ==> path[k] < |nodes|
  {
    seq(|path|, k requires 0 <= k < |path| => nodes[path[k]].id)
  }

  /** Chains over all layers. */
  ghost predicate FullChain(nodes: seq<Shard>, layers: int, path: seq<nat>) {
    path != [] && ChainTo(nodes, path, path[|path| - 1]) && nodes[path[|path| - 1]].range.value.end == layers
  }

  /** The starting values of the table. */
  method Initialize(nodes: seq<Shard>, starts: ByLayer) returns (dp: seq<Time>)
    requires StartIndex(nodes, starts, |nodes|)
    ensures |dp| == |nodes|
    ensures forall i :: 0 <= i < |nodes| ==>
              dp[i] == if Usable(nodes, i) && nodes[i].range.value.start == 0 then nodes[i].latency else Inf
  {
    dp := seq(|nodes|, _ => Inf);
    var first := At(starts, 0);
    for k := 0 to |first|
      invariant |dp| == |nodes|
      invariant forall i :: 0 <= i < |nodes| ==> dp[i] == if i in first[..k] then nodes[i].latency else Inf
    {
      assert 0 in starts && first[k] in starts[0];
      assert Usable(nodes, first[k]);
      dp := dp[first[k] := nodes[first[k]].latency];
      assert first[..k + 1] == first[..k] + [first[k]];
    }
    assert first[..|first|] == first;
  }

  /** Fills the table in the order of the ranges. */
  method Fill(nodes: seq<Shard>, starts: ByLayer, ends: ByLayer, order: seq<Vertex>)
      returns (dp: seq<Time>, parent: seq<Option<nat>>, ghost paths: seq<seq<nat>>)
    requires ProperRanges(nodes) && InOrder(nodes, order)
    requires StartIndex(nodes, starts, |nodes|) && EndIndex(nodes, ends, |nodes|)
    ensures |dp| == |parent| == |paths| == |nodes|
    ensures forall i :: 0 <= i < |nodes| && Usable(nodes, i) ==> LowerBound(nodes, i, dp[i])
    ensures forall i :: 0 <= i < |nodes| && nodes[i].range.Some? ==>
              Settled(nodes, dp, paths, i) && Linked(nodes, parent, paths, i)
  {
    dp := Initialize(nodes, starts);
    parent, paths := seq(|nodes|, _ => None), seq(|nodes|, i => [i]);
    for k := 0 to |order|
      invariant TableOk(nodes, order, dp, parent, paths, k)
    {
      var i := order[k].index;
      assert VertexOf(nodes, order[k]);
      var preds := At(ends, order[k].start);
      ghost var dp0, parent0, paths0 := dp, parent, paths;
      PredsAreSettled(nodes, ends, order, dp, parent, paths, k);
      dp, parent, paths := Relax(nodes, preds, i, dp, parent, paths);
      RelaxKeepsTable(nodes, order, dp0, parent0, paths0, k, dp, parent, paths);
    }
    forall i | 0 <= i < |nodes| && nodes[i].range.Some?
      ensures Settled(nodes, dp, paths, i) && Linked(nodes, parent, paths, i)
    {
      var k :| 0 <= k < |order| && order[k].index == i;
    }
    forall i | 0 <= i < |nodes| && Usable(nodes, i) ensures LowerBound(nodes, i, dp[i]) {
      assert Settled(nodes, dp, paths, i);
    }
  }

  /** Whatever ends where a vertex starts comes before it. */
  lemma PredsAreSettled(nodes: seq<Shard>, ends: ByLayer, order: seq<Vertex>, dp: seq<Time>, parent: seq<Option<nat>>,
                        paths: seq<seq<nat>>, k: nat)
    requires ProperRanges(nodes) && InOrder(nodes, order) && EndIndex(nodes, ends, |nodes|) && k < |order|
    requires TableOk(nodes, order, dp, parent, paths, k)
    ensures var preds := At(ends, order[k].start);
            && (forall m :: 0 <= m < |preds| ==> preds[m] < |nodes|)
            && (forall j :: j in preds ==>
                  Usable(nodes, j) && nodes[j].range.value.end == order[k].start && Settled(nodes, dp, paths, j))
            && (forall j :: 0 <= j < |nodes| && Usable(nodes, j) && nodes[j].range.value.end == order[k].start ==> j in preds)
  {
    var preds := At(ends, order[k].start);
    assert VertexOf(nodes, order[k]);
    forall j | j in preds
      ensures Usable(nodes, j) && nodes[j].range.value.end == order[k].start && Settled(nodes, dp, paths, j)
    {
      assert Usable(nodes, j);
      var m :| 0 <= m < |order| && order[m].index == j;
      assert VertexOf(nodes, order[m]);
      assert order[m].start < order[k].start;
      assert m < k;
    }
    assert forall m :: 0 <= m < |preds| ==> preds[m] in preds;
  }

  lemma RelaxKeepsTable(nodes: seq<Shard>, order: seq<Vertex>, dp: seq<Time>, parent: seq<Option<nat>>, paths: seq<seq<nat>>,
                        k: nat, dp': seq<Time>, parent': seq<Option<nat>>, paths': seq<seq<nat>>)
    requires ProperRanges(nodes) && InOrder(nodes, order) && k < |order|
    requires TableOk(nodes, order, dp, parent, paths, k)
    requires |dp'| == |parent'| == |paths'| == |nodes|
    requires var i := order[k].index;
             && i < |nodes| && Settled(nodes, dp', paths', i) && Linked(nodes, parent', paths', i)
             && dp' == dp[i := dp'[i]] && parent' == parent[i := parent'[i]] && paths' == paths[i := paths'[i]]
    ensures TableOk(nodes, order, dp', parent', paths', k + 1)
  {
    var i := order[k].index;
    assert VertexOf(nodes, order[k]);
    forall m | 0 <= m < k
      ensures Settled(nodes, dp', paths', order[m].index) && Linked(nodes, parent', paths', order[m].index)
    {
      assert VertexOf(nodes, order[m]) && order[m].index != i;
      assert Settled(nodes, dp, paths, order[m].index) && Linked(nodes, parent, paths, order[m].index);
    }
    forall m | k + 1 <= m < |order| ensures Untouched(nodes, dp', parent', paths', order[m].index) {
      assert order[m].index != i;
    }
  }

  /** The first terminal of least cost. */
  method Cheapest(terminals: seq<nat>, dp: seq<Time>) returns (best: nat)
    requires terminals != [] && forall m :: 0 <= m < |terminals| ==> terminals[m] < |dp|
    ensures best in terminals && best < |dp|
    ensures forall m :: 0 <= m < |terminals| ==> AtMost(dp[best], dp[terminals[m]])
  {
    best := terminals[0];
    for k := 1 to |terminals|
      invariant best in terminals && best < |dp|
      invariant forall m :: 0 <= m < k ==> AtMost(dp[best], dp[terminals[m]])
    {
      if Less(dp[terminals[k]], dp[best]) {
        best := terminals[k];
      }
    }
  }

  lemma NothingCheaper(nodes: seq<Shard>, layers: int, terminals: seq<nat>, dp: seq<Time>, paths: seq<seq<nat>>, cost: Time)
    requires |dp| == |paths| == |nodes|
    requires forall i :: 0 <= i < |nodes| && nodes[i].range.Some? ==> Settled(nodes, dp, paths, i)
    requires forall i :: 0 <= i < |nodes| && Usable(nodes, i) && nodes[i].range.value.end == layers ==> i in terminals
    requires forall m :: 0 <= m < |terminals| ==> terminals[m] < |dp| && AtMost(cost, dp[terminals[m]])
    ensures forall q :: FullChain(nodes, layers, q) ==> CostsAtLeast(nodes, q, cost)
  {
    forall q | FullChain(nodes, layers, q) ensures CostsAtLeast(nodes, q, cost) {
      var i := q[|q| - 1];
      assert Usable(nodes, i) && i in terminals;
      assert Settled(nodes, dp, paths, i);
      assert CostsAtLeast(nodes, q, dp[i]);
      AtMostTransitive(cost, dp[i], Cost(nodes, q));
    }
  }

  /** Follows the parent links back from the end. */
  method Reconstruct(nodes: seq<Shard>, parent: seq<Option<nat>>, ghost paths: seq<seq<nat>>, end: nat) returns (path: seq<nat>)
    requires ProperRanges(nodes) && |parent| == |paths| == |nodes| && end < |nodes| && nodes[end].range.Some?
    requires forall i {:trigger Linked(nodes, parent, paths, i)} ::
               0 <= i < |nodes| && nodes[i].range.Some? ==> Linked(nodes, parent, paths, i)
    ensures path == paths[end]
  {
    path := [];
    var cur: Option<nat> := Some(end);
    while cur.Some?
      invariant cur.Some? ==> 0 <= cur.value < |nodes| && nodes[cur.value].range.Some? && paths[cur.value] + path == paths[end]
      invariant cur.None? ==> path == paths[end]
      decreases if cur.Some? then nodes[cur.value].range.value.start + 1 else 0
    {
      ghost var c, rest := cur.value, path;
      assert Linked(nodes, parent, paths, c);
      assert parent[c].Some? ==> (paths[parent[c].value] + [c]) + rest == paths[parent[c].value] + ([c] + rest);
      path := [cur.value] + path;
      cur := parent[cur.value];
    }
  }

  method FindOptimalPath(nodes: seq<Shard>, layers: int) returns (names: seq<NodeId>, latency: Time, ghost path: seq<nat>)
    requires ProperRanges(nodes)
    ensures layers <= 0 || nodes == [] ==> names == [] && latency == Fin(0.0)
    ensures layers > 0 && nodes != [] ==> forall q :: FullChain(nodes, layers, q) ==> CostsAtLeast(nodes, q, latency)
    ensures layers > 0 && nodes != [] ==> (names == [] <==> latency == Inf)
    ensures names != [] ==> FullChain(nodes, layers, path) && Attained(nodes, path[|path| - 1], latency, path) && latency.Fin?
    ensures names != [] ==> (forall k :: 0 <= k < |path| ==> path[k] < |nodes|) && names == Names(nodes, path)
  {
    path := [];
    if layers <= 0 || nodes == [] {
      return [], Fin(0.0), [];
    }
    var starts, ends := Collect(nodes);
    var order := Ordered(nodes);
    var dp, parent;
    ghost var paths;
    dp, parent, paths := Fill(nodes, starts, ends, order);
    var terminals := At(ends, layers);
    if terminals == [] {
      assert forall i :: Usable(nodes, i) ==> nodes[i].range.value.end != layers;
      return [], Inf, [];
    }
    assert forall m :: 0 <= m < |terminals| ==> terminals[m] in ends[layers] && Usable(nodes, terminals[m]);
    var end := Cheapest(terminals, dp);
    NothingCheaper(nodes, layers, terminals, dp, paths, dp[end]);
    if dp[end] == Inf {
      return [], Inf, [];
    }
    path := paths[end];
    ChainNodes(nodes, path, end);
    var indices := Reconstruct(nodes, parent, paths, end);
    names, latency := Names(nodes, indices), dp[end];
  }
}
