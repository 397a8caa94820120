/** Deciding whether the allocated ranges chain from the first layer to the last. */
module FullPipelines {
  // Nodes that a global allocation left over are then given layers; that only adds ranges.

  import opened Ordering
  import opened ClusterNode
  import opened LayerIndex
  import opened LayerAllocator

  // ----- the depth-first search -----

  /** End layers of the allocated ranges, by start layer. */
  type EndsByStart = map<int, seq<int>>

  /** A chain from `current` can be completed to exactly `total`. */
  predicate CanReach(index: EndsByStart, current: int, total: int)
    decreases total - current
  {
    if current >= total then current == total
    else current in index && exists e | e in index[current] :: e > current && CanReach(index, e, total)
  }

  ghost predicate Indexes(index: EndsByStart, ranges: set<Range>) {
    && (forall s, e :: s in index && e in index[s] ==> Range(s, e) in ranges)
    && (forall r :: r in ranges ==> r.start in index && r.end in index[r.start])
  }

  lemma {:induction false} ReachMeansChain(index: EndsByStart, ranges: set<Range>, current: int, total: int)
    requires Indexes(index, ranges)
    ensures CanReach(index, current, total) ==> exists path: seq<Range> :: ChainIn(ranges, path, current, total)
    decreases total - current
  {
    if CanReach(index, current, total) {
      if current == total {
        assert ChainIn(ranges, [], current, total);
      } else {
        var e :| e in index[current] && e > current && CanReach(index, e, total);
        ReachMeansChain(index, ranges, e, total);
        var path: seq<Range> :| ChainIn(ranges, path, e, total);
        var longer := [Range(current, e)] + path;
        assert longer[1..] == path;
        assert ChainIn(ranges, longer, current, total);
      }
    }
  }

  lemma {:induction false} ChainMeansReach(index: EndsByStart, ranges: set<Range>, path: seq<Range>, current: int, total: int)
    requires Indexes(index, ranges) && ChainIn(ranges, path, current, total)
    ensures CanReach(index, current, total)
  {
    ChainGoesUp(path, current, total);
    if path != [] {
      assert path[0] in ranges;
      ChainMeansReach(index, ranges, path[1..], path[0].end, total);
      ChainGoesUp(path[1..], path[0].end, total);
    }
  }

  /** Lists the end layers of every allocated range under its start layer. */
  method BuildIndex(alloc: Allocation) returns (index: EndsByStart)
    ensures Indexes(index, alloc.Values)
  {
    index := map[];
    var todo := alloc.Keys;
    while todo != {}
      invariant todo <= alloc.Keys
      invariant forall s, e :: s in index && e in index[s] ==> Range(s, e) in alloc.Values
      invariant forall id :: id in alloc.Keys - todo ==> alloc[id].start in index && alloc[id].end in index[alloc[id].start]
      decreases |todo|
    {
      var id :| id in todo;
      var r := alloc[id];
      assert r in alloc.Values;
      var ends := if r.start in index then index[r.start] else [];
      var longer := ends + [r.end];
      assert forall e :: e in longer ==> e in ends || e == r.end;
      index := index[r.start := longer];
      todo := todo - {id};
    }
    forall r | r in alloc.Values ensures r.start in index && r.end in index[r.start] {
      var id :| id in alloc && alloc[id] == r;
      assert id in alloc.Keys - todo;
    }
  }

  /** True exactly when some chain of allocated ranges covers all layers. */
  method HasFullPipeline(alloc: Allocation, layers: nat) returns (full: bool)
    ensures full <==> FullPipeline(alloc, layers)
  {
    var index := BuildIndex(alloc);
    if 0 !in index {
      full := false;
    } else {
      full := exists e | e in index[0] :: e > 0 && CanReach(index, e, layers);
    }
    FullMeansReach(index, alloc, layers);
  }

  lemma FullMeansReach(index: EndsByStart, alloc: Allocation, layers: nat)
    requires Indexes(index, alloc.Values)
    ensures FullPipeline(alloc, layers) <==> 0 in index && exists e | e in index[0] :: e > 0 && CanReach(index, e, layers)
  {
    if FullPipeline(alloc, layers) {
      var path: seq<Range> :| path != [] && ChainIn(alloc.Values, path, 0, layers);
      assert path[0] in alloc.Values;
      assert ChainIn(alloc.Values, path[1..], path[0].end, layers);
      ChainMeansReach(index, alloc.Values, path[1..], path[0].end, layers);
    }
    if 0 in index && exists e | e in index[0] :: e > 0 && CanReach(index, e, layers) {
      var e :| e in index[0] && e > 0 && CanReach(index, e, layers);
      ReachMeansChain(index, alloc.Values, e, layers);
      var path: seq<Range> :| ChainIn(alloc.Values, path, e, layers);
      var longer := [Range(0, e)] + path;
      assert longer[1..] == path;
      assert ChainIn(alloc.Values, longer, 0, layers);
    }
  }

  // ----- left-over nodes -----

  /** The entries of `before` are still there. */
  ghost predicate Extends(before: Allocation, after: Allocation) {
    forall id :: id in before ==> id in after && after[id] == before[id]
  }

  lemma ExtendingKeepsPipelines(before: Allocation, after: Allocation, layers: nat)
    requires Extends(before, after) && FullPipeline(before, layers)
    ensures FullPipeline(after, layers)
  {
    forall v | v in before.Values ensures v in after.Values {
      var id :| id in before && before[id] == v;
      assert after[id] == v;
    }
    MoreRangesKeepPipelines(before, after, layers);
  }

  /** The node has room for a layer even next to both endpoints. */
  predicate HoldsALayer(layers: nat, n: Node) {
    layers > 0 && DecoderCapacity(n.hardware, true, true) > 0
  }

  /** Whoever has room for a layer is allocated. */
  ghost predicate Accommodated(list: seq<Node>, layers: nat, alloc: Allocation) {
    forall k :: 0 <= k < |list| && HoldsALayer(layers, list[k]) ==> list[k].id in alloc
  }

  lemma OneMoreAccommodated(list: seq<Node>, k: nat, layers: nat, before: Allocation, after: Allocation)
    requires k < |list| && Accommodated(list[..k], layers, before) && Extends(before, after)
    requires HoldsALayer(layers, list[k]) ==> list[k].id in after
    ensures Accommodated(list[..k + 1], layers, after)
  {
    assert list[..k + 1] == list[..k] + [list[k]];
  }

  lemma RearrangedAccommodated(a: seq<Node>, b: seq<Node>, layers: nat, alloc: Allocation)
    requires Members(a) == Members(b) && Accommodated(a, layers, alloc)
    ensures Accommodated(b, layers, alloc)
  {
    forall k | 0 <= k < |b| && HoldsALayer(layers, b[k]) ensures b[k].id in alloc {
      assert b[k] in Members(a);
      var m :| 0 <= m < |a| && a[m] == b[k];
    }
  }

  lemma ListedNode(a: Allocator, n: Node)
    requires a.Valid() && n in Members(a.nodes)
    ensures n.id in a.nodeById && a.nodeById[n.id] == n
    ensures n.range.Some? <==> n.id in a.allocation
  {
    assert a.NodesOk() && a.RangesOk();
  }

  /** The node was given layers from the lightest one on, as far as it may, if there is room for any. */
  ghost predicate Joined(a: Allocator, nodes: map<NodeId, Node>, node: Node, before: Allocation, after: Allocation) {
    if a.layers == 0 then after == before
    else exists t :: Lightest(before, nodes, a.layers, t)
           && after == if a.EndForTail(node, t) <= t then before else before[node.id := Range(t, a.EndForTail(node, t))]
  }

  /** One node after the other: the unallocated ones join. */
  ghost predicate LeftOverRun(a: Allocator, nodes: map<NodeId, Node>, order: seq<Node>, steps: seq<Allocation>) {
    && |steps| == |order| + 1
    && forall i :: 0 <= i < |order| ==> LeftOverStep(a, nodes, order[i], steps[i], steps[i + 1])
  }

  ghost predicate LeftOverStep(a: Allocator, nodes: map<NodeId, Node>, node: Node, before: Allocation, after: Allocation) {
    if node.id in before then after == before else Joined(a, nodes, node, before, after)
  }

  ghost predicate LeftOver(a: Allocator, nodes: map<NodeId, Node>, order: seq<Node>, before: Allocation, after: Allocation) {
    exists steps :: LeftOverRun(a, nodes, order, steps) && steps[0] == before && steps[|order|] == after
  }

  lemma NothingJoined(a: Allocator, nodes: map<NodeId, Node>, order: seq<Node>, alloc: Allocation)
    ensures LeftOver(a, nodes, order[..0], alloc, alloc)
  {
    assert LeftOverRun(a, nodes, order[..0], [alloc]);
  }

  lemma OneMoreJoined(a: Allocator, nodes: map<NodeId, Node>, order: seq<Node>, i: nat, before: Allocation, middle: Allocation,
                      after: Allocation)
    requires i < |order| && LeftOver(a, nodes, order[..i], before, middle) && LeftOverStep(a, nodes, order[i], middle, after)
    ensures LeftOver(a, nodes, order[..i + 1], before, after)
  {
    hide LeftOverStep;
    var steps :| LeftOverRun(a, nodes, order[..i], steps) && steps[0] == before && steps[i] == middle;
    var longer := steps + [after];
    forall k | 0 <= k < i + 1 ensures LeftOverStep(a, nodes, order[..i + 1][k], longer[k], longer[k + 1]) {
      assert k < i ==> LeftOverStep(a, nodes, order[..i][k], steps[k], steps[k + 1]);
    }
    assert LeftOverRun(a, nodes, order[..i + 1], longer);
  }

  /** Joins one node, if it has no layers yet. */
  method JoinLeftOver(a: Allocator, node: Node)
    requires a.Valid() && node in Members(a.nodes)
    modifies a, node, a.loads
    ensures a.Valid() && a.nodeById == old(a.nodeById) && Members(a.nodes) == Members(old(a.nodes))
    ensures LeftOverStep(a, a.nodeById, node, old(a.allocation), a.allocation)
    ensures HoldsALayer(a.layers, node) ==> node.id in a.allocation
    ensures Extends(old(a.allocation), a.allocation)
    ensures ByCapacity(old(a.nodes)) ==> a.nodes == old(a.nodes)
    ensures Fits(old(a.allocation), a.nodeById) ==> Fits(a.allocation, a.nodeById)
    ensures node.isActive == old(node.isActive)
  {
    hide ByCapacity, Allocator.Valid, Fits, Lightest;
    ListedNode(a, node);
    if node.id !in a.allocation {
      HeapIsThere(a);
      ghost var top := if a.heap == [] then 0 else a.heap[0].layerId;
      ghost var alloc, byId := a.allocation, a.nodeById;
      if a.heap != [] {
        TopIsLightest(a);
        assert Lightest(alloc, byId, a.layers, top);
      }
      var r := a.Join(node);
      assert a.nodeById == byId[node.id := node] == byId;
      if r.Ok? {
        ghost var got := a.allocation[node.id];
        AddedFits(alloc, a.nodeById, node.id, got, got.start == 0, got.end == a.layers);
        assert got.start == top;
        assert got.end == a.EndForTail(node, got.start);
      }
      ghost var end := a.EndForTail(node, top);
      assert a.layers > 0 ==> a.allocation == if end <= top then alloc else alloc[node.id := Range(top, end)];
      assert a.layers > 0 ==> Lightest(alloc, byId, a.layers, top);
    }
  }

  /** Joins every unallocated node, largest first; only nodes that cannot host a layer are skipped. */
  method AllocateLeftOver(a: Allocator)
    requires a.Valid()
    modifies a, Members(a.nodes), a.loads
    ensures a.Valid() && a.nodeById == old(a.nodeById) && Members(a.nodes) == Members(old(a.nodes))
    ensures Extends(old(a.allocation), a.allocation) && Accommodated(old(a.nodes), a.layers, a.allocation)
    ensures ByCapacity(old(a.nodes)) ==> a.nodes == old(a.nodes)
    ensures Fits(old(a.allocation), a.nodeById) ==> Fits(a.allocation, a.nodeById)
    ensures FullPipeline(old(a.allocation), a.layers) ==> FullPipeline(a.allocation, a.layers)
    ensures NoneActivated(old(Members(a.nodes)))
    ensures LeftOver(a, a.nodeById, SortBy(LargestFirst(), old(a.nodes)), old(a.allocation), a.allocation)
  {
    hide ByCapacity, SortBy, Allocator.Valid, Accommodated, Extends, Fits, FullPipeline, LeftOver, LeftOverStep;
    var order := SortBy(LargestFirst(), a.nodes);
    SortedByCapacity(a.nodes);
    RearrangedMembers(a.nodes, order);
    NothingChanged(order, a.layers, a.allocation);
    ghost var before := a.allocation;
    NothingJoined(a, a.nodeById, order, before);
    for i := 0 to |order|
      invariant a.Valid() && a.nodeById == old(a.nodeById) && Members(a.nodes) == Members(old(a.nodes))
      invariant Extends(before, a.allocation) && Accommodated(order[..i], a.layers, a.allocation)
      invariant ByCapacity(old(a.nodes)) ==> a.nodes == old(a.nodes)
      invariant Fits(before, a.nodeById) ==> Fits(a.allocation, a.nodeById)
      invariant NoneActivated(old(Members(a.nodes)))
      invariant LeftOver(a, a.nodeById, order[..i], before, a.allocation)
    {
      var node := order[i];
      assert node in Members(order);
      ghost var alloc := a.allocation;
      JoinLeftOver(a, node);
      ExtendsTwice(before, alloc, a.allocation);
      OneMoreAccommodated(order, i, a.layers, alloc, a.allocation);
      OneMoreJoined(a, a.nodeById, order, i, before, alloc, a.allocation);
    }
    assert order[..|order|] == order;
    RearrangedAccommodated(order, old(a.nodes), a.layers, a.allocation);
    if FullPipeline(before, a.layers) {
      ExtendingKeepsPipelines(before, a.allocation, a.layers);
    }
  }

  lemma NothingChanged(list: seq<Node>, layers: nat, alloc: Allocation)
    ensures Extends(alloc, alloc) && Accommodated(list[..0], layers, alloc)
  {
  }

  lemma ExtendsTwice(before: Allocation, middle: Allocation, after: Allocation)
    requires Extends(before, middle) && Extends(middle, after)
    ensures Extends(before, after)
  {
  }
}
