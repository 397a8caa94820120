/** The allocator's mutable state.

    The allocation map, the endpoint lists, the per-layer loads and the heap over them agree after every
    step: allocating a range, taking it back, declaring a node, and a join or a leave. */
module LayerAllocator {
  import opened Outcomes
  import opened Ordering
  import opened ClusterNode
  import opened LayerIndex

  ghost predicate NoDuplicates(s: seq<NodeId>) {
    forall i, j :: 0 <= i < j < |s| ==> s[i] != s[j]
  }

  /** `list.remove`: drops the first occurrence. */
  function RemoveFirst(s: seq<NodeId>, x: NodeId): seq<NodeId> {
    if s == [] then [] else if s[0] == x then s[1..] else [s[0]] + RemoveFirst(s[1..], x)
  }

  lemma {:induction false} RemoveFirstRemoves(s: seq<NodeId>, x: NodeId)
    requires NoDuplicates(s)
    ensures NoDuplicates(RemoveFirst(s, x))
    ensures forall y :: y in RemoveFirst(s, x) <==> y in s && y != x
  {
    if s != [] {
      assert s == [s[0]] + s[1..];
      if s[0] == x {
        assert x !in s[1..];
      } else {
        RemoveFirstRemoves(s[1..], x);
        var rest := RemoveFirst(s[1..], x);
        assert s[0] !in s[1..] && s[0] !in rest;
        assert RemoveFirst(s, x) == [s[0]] + rest;
      }
    }
  }

  ghost predicate Lists(s: seq<NodeId>, elements: set<NodeId>) {
    NoDuplicates(s) && forall x :: x in s <==> x in elements
  }

  /** One record per layer. */
  ghost predicate RecordsMatch(loads: seq<LayerLoad>, layers: nat) {
    && |loads| == layers && (forall l :: 0 <= l < |loads| ==> loads[l].layerId == l)
    && (forall i, j :: 0 <= i < j < |loads| ==> loads[i] != loads[j])
  }

  /** The index by id holds every listed node under its own id. */
  ghost predicate NodesMatch(nodes: seq<Node>, byId: map<NodeId, Node>) {
    && (forall i :: 0 <= i < |nodes| ==> nodes[i].id in byId && byId[nodes[i].id] == nodes[i])
    && DistinctIds(nodes)
    && (forall id :: id in byId ==> byId[id].id == id)
  }

  /** The endpoint lists name exactly the nodes that host the first and the last layer. */
  ghost predicate EndsMatch(embedding: seq<NodeId>, lmHead: seq<NodeId>, alloc: Allocation, layers: nat) {
    Lists(embedding, Starting(alloc)) && Lists(lmHead, Ending(alloc, layers))
  }

  class Allocator {
    const layers: nat
    const iterations: nat
    const loads: seq<LayerLoad>
    var nodes: seq<Node>
    var nodeById: map<NodeId, Node>
    var allocation: Allocation
    var embeddingIds: seq<NodeId>
    var lmHeadIds: seq<NodeId>
    var heap: seq<LayerLoad>

    // ----- invariant -----

    ghost predicate NodesOk()
      reads `nodes, `nodeById
    {
      NodesMatch(nodes, nodeById)
    }

    ghost predicate RangesOk()
      reads `nodeById, `allocation, nodeById.Values
    {
      && allocation.Keys <= nodeById.Keys
      && forall id :: id in nodeById ==>
           nodeById[id].range == (if id in allocation then Some(allocation[id]) else None)
    }

    ghost predicate EndsOk()
      reads `embeddingIds, `lmHeadIds, `allocation
    {
      EndsMatch(embeddingIds, lmHeadIds, allocation, layers)
    }

    ghost function Views(): seq<LoadView>
      reads loads
    {
      ViewsOf(loads)
    }

    ghost predicate RecordsOk() {
      RecordsMatch(loads, layers)
    }

    ghost predicate LoadsOk()
      reads `nodeById, `allocation, loads
    {
      RecordsOk() && Accurate(Views(), allocation, nodeById, layers)
    }

    /** The heap holds every record, the lexicographically least one on top. */
    ghost predicate HeapOk()
      reads `heap, loads
    {
      && |heap| == |loads| && (forall l :: 0 <= l < |loads| ==> loads[l] in heap)
      && (heap != [] ==> heap[0] in loads && forall l :: 0 <= l < |loads| ==> heap[0].NotHeavier(loads[l]))
    }

    ghost predicate Valid()
      reads this, nodeById.Values, loads
    {
      NodesOk() && RangesOk() && EndsOk() && LoadsOk() && HeapOk()
    }

    // ----- lists and heap -----

    /** Sorts the shared node list by capacity, largest first; equal capacities keep their order. */
    method SortNodes()
      requires NodesOk()
      modifies this`nodes
      ensures NodesOk() && ByCapacity(nodes) && |nodes| == |old(nodes)|
      ensures Members(nodes) == Members(old(nodes))
      ensures ByCapacity(old(nodes)) ==> nodes == old(nodes)
      ensures StablySorted(old(nodes), nodes)
    {
      hide SortBy, NodesMatch, ByCapacity, StablySorted;
      SortedByCapacity(nodes);
      SortedStably(nodes);
      RearrangedMatch(nodes, SortBy(LargestFirst(), nodes), nodeById);
      nodes := SortBy(LargestFirst(), nodes);
    }

    /** Rebuilds the heap from the records; only its top is ever read. */
    method UpdateHeap()
      modifies this`heap
      ensures HeapOk()
    {
      heap := loads;
      var best := 0;
      var l := 1;
      while l < |loads|
        invariant |loads| > 0 ==> 0 <= best < l <= |loads|
        invariant forall q :: 0 <= q < l && q < |loads| ==> loads[best].NotHeavier(loads[q])
        invariant heap == loads
      {
        if !loads[best].NotHeavier(loads[l]) {
          best := l;
        }
        l := l + 1;
      }
      if |loads| > 0 {
        heap := [loads[best]] + RemoveAt(loads, best);
        forall q | 0 <= q < |loads| ensures loads[q] in heap {
          if q != best {
            assert heap[if q < best then q + 1 else q] == loads[q];
          }
        }
      }
    }

    // ----- construction -----

    /** One empty record per layer. */
    static method NewRecords(layers: nat) returns (records: seq<LayerLoad>)
      ensures RecordsMatch(records, layers) && fresh(records)
      ensures forall q :: 0 <= q < |records| ==> records[q].kvSize == 0 && records[q].hosts == {}
    {
      records := [];
      var l := 0;
      while l < layers
        invariant 0 <= l <= layers && |records| == l && fresh(records)
        invariant forall q :: 0 <= q < l ==> records[q].layerId == q
        invariant forall q :: 0 <= q < l ==> records[q].kvSize == 0 && records[q].hosts == {}
        invariant forall i, j :: 0 <= i < j < l ==> records[i] != records[j]
      {
        var record := new LayerLoad(l);
        records := records + [record];
        l := l + 1;
      }
    }

    constructor (layers: nat, nodes: seq<Node>, iterations: nat)
      requires forall n :: n in nodes ==> n.range == None
      requires DistinctIds(nodes)
      ensures Valid() && allocation == map[] && this.layers == layers && this.iterations == iterations
      ensures |this.nodes| == |nodes| && ByCapacity(this.nodes) && Members(this.nodes) == Members(nodes)
      ensures nodeById == ById(nodes)
      ensures fresh(loads)
    {
      hide ByCapacity, Accurate, NodesMatch, EndsMatch, HeapOk, RecordsMatch, ViewsOf, ById;
      var records := NewRecords(layers);
      this.layers, this.iterations, this.loads := layers, iterations, records;
      this.nodes := nodes;
      nodeById, allocation := ById(nodes), map[];
      embeddingIds, lmHeadIds, heap := [], [], [];
      new;
      IndexMatches(nodes);
      NothingAllocated(loads, nodeById, layers);
      assert LoadsOk() && EndsOk() && RangesOk() && NodesOk();
      SortNodes();
      UpdateHeap();
    }

    // ----- allocate and deallocate -----

    /** Adds one covering node to the records of its layers. */
    method AddLoads(node: Node, start: int, end: int)
      requires RecordsOk() && 0 <= start < end <= layers && node.range == Some(Range(start, end))
      modifies loads
      ensures Views() == Added(old(Views()), node.id, node.Share(Range(start, end)), Range(start, end))
    {
      ghost var before := Views();
      for layer := start to end
        invariant forall l :: 0 <= l < layers ==>
                    Views()[l] == if start <= l < layer then before[l].Plus(node.id, node.Share(Range(start, end))) else before[l]
      {
        loads[layer].AddNode(node);
      }
    }

    method RemoveLoads(node: Node, start: int, end: int)
      requires RecordsOk() && 0 <= start < end <= layers && node.range == Some(Range(start, end))
      requires Held(Views(), node.id, Range(start, end))
      modifies loads
      ensures Views() == Removed(old(Views()), node.id, node.Share(Range(start, end)), Range(start, end))
    {
      ghost var before := Views();
      for layer := start to end
        invariant forall l :: 0 <= l < layers ==>
                    Views()[l] == if start <= l < layer then before[l].Minus(node.id, node.Share(Range(start, end))) else before[l]
      {
        assert Views()[layer] == before[layer];
        loads[layer].RemoveNode(node);
      }
    }

    /** Allocating an unallocated node adds its range and changes nothing else; an empty range raises. */
    method Allocate(node: Node, start: int, end: int) returns (r: Result<()>)
      requires Valid() && 0 <= start && end <= layers
      requires node.id !in allocation && node.range == None
      requires node.id in nodeById ==> nodeById[node.id] == node
      modifies this, node, loads
      ensures Valid() && nodes == old(nodes)
      ensures r == if start < end then Ok(()) else Raise(EmptyRange)
      ensures r.Ok? ==> allocation == old(allocation)[node.id := Range(start, end)] && nodeById == old(nodeById)[node.id := node]
      ensures r.Raise? ==> allocation == old(allocation) && nodeById == old(nodeById)
      ensures node.isActive == old(node.isActive)
    {
      if end <= start {
        return Raise(EmptyRange);
      }
      RecordRange(node, Range(start, end));
      r := Ok(());
    }

    /** The state changes of a successful allocation. */
    method RecordRange(node: Node, range: Range)
      requires Valid() && 0 <= range.start < range.end <= layers
      requires node.id !in allocation && node.range == None
      requires node.id in nodeById ==> nodeById[node.id] == node
      modifies this, node, loads
      ensures Valid() && nodes == old(nodes)
      ensures allocation == old(allocation)[node.id := range] && nodeById == old(nodeById)[node.id := node]
      ensures node.isActive == old(node.isActive)
    {
      hide Accurate, Added, NodesMatch, EndsMatch, RecordsMatch, ViewsOf, HeapOk, RangesOk;
      AccurateAdded(Views(), allocation, nodeById, node, range, layers);
      SetRange(node, range);
      AddLoads(node, range.start, range.end);
      UpdateHeap();
    }

    /** Everything but the load records. */
    method SetRange(node: Node, range: Range)
      requires NodesOk() && RangesOk() && EndsOk()
      requires node.id !in allocation && node.range == None
      requires node.id in nodeById ==> nodeById[node.id] == node
      modifies this`nodeById, this`allocation, this`embeddingIds, this`lmHeadIds, node`range
      ensures NodesOk() && RangesOk() && EndsOk()
      ensures allocation == old(allocation)[node.id := range] && nodeById == old(nodeById)[node.id := node]
      ensures node.range == Some(range)
    {
      hide NodesMatch, EndsMatch;
      NodesDeclared(nodes, nodeById, node);
      EndsAdded(embeddingIds, lmHeadIds, allocation, node.id, range, layers);
      nodeById := nodeById[node.id := node];
      node.range := Some(range);
      allocation := allocation[node.id := range];
      if range.start == 0 {
        embeddingIds := embeddingIds + [node.id];
      }
      if range.end == layers {
        lmHeadIds := lmHeadIds + [node.id];
      }
    }

    /** Deallocating a node takes its range out, marks it inactive, and changes nothing else. */
    method Deallocate(node: Node)
      requires Valid() && node.id in nodeById && nodeById[node.id] == node
      modifies this, node, loads
      ensures Valid() && nodes == old(nodes) && nodeById == old(nodeById)
      ensures allocation == old(allocation) - {node.id} && node.range == None
      ensures node.isActive == (old(node.isActive) && node.id !in old(allocation))
    {
      hide Accurate, Removed, Held, NodesMatch, EndsMatch, RecordsMatch, ViewsOf, HeapOk;
      if node.range == None {
        assert allocation == allocation - {node.id};
        return;
      }
      var range := node.range.value;
      AccurateRemoved(Views(), allocation, nodeById, node.id, layers);
      RemoveLoads(node, range.start, range.end);
      ClearRange(node);
      UpdateHeap();
    }

    /** Everything but the load records. */
    method ClearRange(node: Node)
      requires NodesOk() && RangesOk() && EndsOk()
      requires node.id in nodeById && nodeById[node.id] == node
      modifies this`allocation, this`embeddingIds, this`lmHeadIds, node`range, node`isActive
      ensures NodesOk() && RangesOk() && EndsOk()
      ensures allocation == old(allocation) - {node.id}
      ensures node.range == None && !node.isActive
    {
      hide NodesMatch, EndsMatch;
      NodesDeclared(nodes, nodeById, node);
      EndsRemoved(embeddingIds, lmHeadIds, allocation, node.id, layers);
      allocation := allocation - {node.id};
      if node.id in embeddingIds {
        embeddingIds := RemoveFirst(embeddingIds, node.id);
      }
      if node.id in lmHeadIds {
        lmHeadIds := RemoveFirst(lmHeadIds, node.id);
      }
      node.range, node.isActive := None, false;
    }

    /** Deallocate, then allocate: on an empty range the node ends up without one. */
    method Reallocate(node: Node, start: int, end: int) returns (r: Result<()>)
      requires Valid() && 0 <= start && end <= layers
      requires node.id in nodeById && nodeById[node.id] == node
      modifies this, node, loads
      ensures Valid() && nodes == old(nodes) && nodeById == old(nodeById)
      ensures r == if start < end then Ok(()) else Raise(EmptyRange)
      ensures allocation == if start < end then old(allocation)[node.id := Range(start, end)] else old(allocation) - {node.id}
      ensures node.isActive == (old(node.isActive) && node.id !in old(allocation))
    {
      hide Accurate, NodesMatch, EndsMatch, RecordsMatch, ViewsOf, HeapOk;
      ghost var alloc := allocation;
      Deallocate(node);
      r := Allocate(node, start, end);
      assert (alloc - {node.id})[node.id := Range(start, end)] == alloc[node.id := Range(start, end)];
      assert nodeById == old(nodeById);
    }

    // ----- joining and leaving -----

    /** Makes the node known, and keeps the node list in capacity order. */
    method Declare(node: Node)
      requires Valid()
      requires if node.id in nodeById then nodeById[node.id] == node else node.range == None
      modifies this`nodes, this`nodeById
      ensures Valid() && allocation == old(allocation) && ByCapacity(nodes)
      ensures nodeById == old(nodeById)[node.id := node]
      ensures Members(nodes) == Members(old(nodes)) + (if node.id in old(nodeById) then {} else {node})
      ensures node.id in old(nodeById) && ByCapacity(old(nodes)) ==> nodes == old(nodes)
    {
      hide Accurate, NodesMatch, EndsMatch, RecordsMatch, ViewsOf, HeapOk, ByCapacity;
      if node.id !in nodeById {
        NodeAdded(nodes, nodeById, node);
        KnownSharesStay(Views(), allocation, nodeById, node, layers);
        nodes := nodes + [node];
        nodeById := nodeById[node.id := node];
      }
      SortNodes();
    }

    /** The record on top of the heap, if there is any layer. */
    function LightestLayer(): (top: Option<LayerLoad>)
      reads this
    {
      if heap == [] then None else Some(heap[0])
    }

    /** The range reaches the last layer, or fills the capacity: the one next to the LM head when the plain
        capacity would have reached the last layer. */
    predicate AsManyAsAllowed(node: Node, r: Range) {
      var first := r.start == 0;
      var plain := DecoderCapacity(node.hardware, first, false);
      || r.end == layers
      || (r.start + plain < layers && r.end - r.start == plain)
      || (r.start + plain >= layers && r.end - r.start == DecoderCapacity(node.hardware, first, true))
    }

    /** As many layers from `start` as the node can hold, with the LM head if it reaches the last. */
    function EndForTail(node: Node, start: int): (end: int)
      ensures end <= layers
      ensures end - start <= DecoderCapacity(node.hardware, start == 0, end == layers) || end == start
      ensures AsManyAsAllowed(node, Range(start, end))
      ensures start < layers && end <= start ==> DecoderCapacity(node.hardware, true, true) <= 0
    {
      CapacityFacts(node.hardware);
      var capacity := DecoderCapacity(node.hardware, start == 0, false);
      var end := if start + capacity < layers then start + capacity else layers;
      if end == layers then
        var withHead := DecoderCapacity(node.hardware, start == 0, true);
        if start + withHead < layers then start + withHead else layers
      else end
    }

    /** A joining node hosts layers from the least loaded one on, no more than it can hold. */
    method Join(node: Node) returns (r: Result<()>)
      requires Valid() && node.range == None && node.id !in allocation
      requires node.id in nodeById ==> nodeById[node.id] == node
      modifies this, node, loads
      ensures Valid() && nodeById == old(nodeById)[node.id := node] && ByCapacity(nodes)
      ensures Members(nodes) == Members(old(nodes)) + (if node.id in old(nodeById) then {} else {node})
      ensures node.id in old(nodeById) && ByCapacity(old(nodes)) ==> nodes == old(nodes)
      ensures r.Raise? ==> allocation == old(allocation)
      ensures r.Ok? ==> node.id in allocation && allocation == old(allocation)[node.id := allocation[node.id]]
      ensures r.Ok? ==> var got := allocation[node.id];
                && old(heap) != [] && got.start == old(heap)[0].layerId
                && got.end - got.start <= DecoderCapacity(node.hardware, got.start == 0, got.end == layers)
                && AsManyAsAllowed(node, got) && got.start < got.end == EndForTail(node, got.start)
      ensures r.Raise? ==> old(heap) == [] || EndForTail(node, old(heap)[0].layerId) <= old(heap)[0].layerId
      ensures r.Raise? ==> layers == 0 || DecoderCapacity(node.hardware, true, true) <= 0
      ensures node.isActive == old(node.isActive)
    {
      hide Accurate, NodesMatch, EndsMatch, RecordsMatch, ViewsOf;
      Declare(node);
      var lightest := LightestLayer();
      if lightest.None? {
        RecordCount(loads, layers);
        return Raise(NoLayers);
      }
      var start := lightest.value.layerId;
      assert 0 <= start < layers by { RecordIds(loads, layers, lightest.value); }
      var end := EndForTail(node, start);
      r := Allocate(node, start, end);
    }

    /** A leaving node's range goes with it; an unknown id raises. */
    method Leave(id: NodeId) returns (r: Result<()>)
      requires Valid()
      modifies this, if id in nodeById then {nodeById[id]} else {}, loads
      ensures Valid()
      ensures r == if id in old(nodeById) then Ok(()) else Raise(UnknownNode)
      ensures allocation == old(allocation) - {id} && nodeById == old(nodeById) - {id}
      ensures Members(nodes) == Members(old(nodes)) - (if id in old(nodeById) then {old(nodeById)[id]} else {})
      ensures ByCapacity(old(nodes)) ==> ByCapacity(nodes)
    {
      hide ByCapacity, Dropped, Accurate, NodesMatch, EndsMatch, RecordsMatch, ViewsOf, HeapOk;
      if id !in nodeById {
        assert id !in allocation && allocation - {id} == allocation && nodeById - {id} == nodeById;
        return Raise(UnknownNode);
      }
      DroppedNode(nodes, nodeById, id);
      Deallocate(nodeById[id]);
      SharesSurvive(Views(), allocation, nodeById, id, layers);
      nodeById := nodeById - {id};
      nodes := Dropped(nodes, id);
      r := Ok(());
    }
  }

  /** Summed share of the nodes that host the layer. */
  ghost function LoadAt(alloc: Allocation, nodes: map<NodeId, Node>, l: int): int
    requires alloc.Keys <= nodes.Keys && forall id :: id in alloc ==> alloc[id].start < alloc[id].end
  {
    SumShares(Hosting(alloc, l), alloc, nodes)
  }

  /** The layer has the smallest load of all, and is the first of those that have. */
  ghost predicate Lightest(alloc: Allocation, nodes: map<NodeId, Node>, layers: nat, t: int) {
    && alloc.Keys <= nodes.Keys && ValidRanges(alloc, layers) && 0 <= t < layers
    && forall l :: 0 <= l < layers ==>
         LoadAt(alloc, nodes, t) < LoadAt(alloc, nodes, l) || (LoadAt(alloc, nodes, t) == LoadAt(alloc, nodes, l) && t <= l)
  }

  /** It is the one on top of the heap. */
  lemma TopIsLightest(a: Allocator)
    requires a.Valid() && a.heap != []
    ensures Lightest(a.allocation, a.nodeById, a.layers, a.heap[0].layerId)
  {
    var t :| 0 <= t < |a.loads| && a.loads[t] == a.heap[0];
    var views := a.Views();
    assert views[t].kvSize == LoadAt(a.allocation, a.nodeById, t);
    forall l | 0 <= l < a.layers
      ensures LoadAt(a.allocation, a.nodeById, t) < LoadAt(a.allocation, a.nodeById, l)
              || (LoadAt(a.allocation, a.nodeById, t) == LoadAt(a.allocation, a.nodeById, l) && t <= l)
    {
      assert a.loads[t].NotHeavier(a.loads[l]);
      assert views[l].kvSize == LoadAt(a.allocation, a.nodeById, l);
    }
  }

  lemma HeapIsThere(a: Allocator)
    requires a.Valid()
    ensures a.heap == [] <==> a.layers == 0
  {
    RecordCount(a.loads, a.layers);
  }

  /** No node has become active. */
  twostate predicate NoneActivated(nodes: set<Node>)
    reads nodes
  {
    forall n :: n in nodes && n.isActive ==> old(n.isActive)
  }

  /** No node hosts more layers than it can store. */
  ghost predicate Fits(alloc: Allocation, nodes: map<NodeId, Node>) {
    forall id :: id in alloc ==> id in nodes && alloc[id].end - alloc[id].start <= nodes[id].Capacity()
  }

  /** A range within a capacity that may have endpoints reserved. */
  lemma AddedFits(alloc: Allocation, nodes: map<NodeId, Node>, id: NodeId, r: Range, first: bool, last: bool)
    requires id in nodes && r.end - r.start <= DecoderCapacity(nodes[id].hardware, first, last)
    ensures Fits(alloc, nodes) ==> Fits(alloc[id := r], nodes)
  {
    CapacityFacts(nodes[id].hardware);
  }

  lemma FewerFit(alloc: Allocation, nodes: map<NodeId, Node>, ids: set<NodeId>)
    ensures Fits(alloc, nodes) ==> Fits(alloc - ids, nodes)
  {
  }

  /** When the plain capacity would reach the last layer, only as many layers are taken as fit next to the LM
      head.  The node then falls short of what it could host without reaching the last layer exactly when these
      stop more than one layer before it. */
  lemma JoinFallsShort(a: Allocator, node: Node, start: nat)
    requires start < a.layers
    ensures var plain := DecoderCapacity(node.hardware, start == 0, false);
            var withHead := DecoderCapacity(node.hardware, start == 0, true);
            var end := a.EndForTail(node, start);
            end < a.layers && end - start < Least(plain, a.layers - 1 - start) <==>
              start + plain >= a.layers && start + withHead < a.layers - 1
  {
    CapacityFacts(node.hardware);
  }

  function Least(x: int, y: int): int {
    if x < y then x else y
  }

  /** A node for five layers, or three next to the head, joins at the sixth of ten: it hosts three layers and
      does not reach the last one, though it could host four. */
  lemma HeadReservedInVain(a: Allocator, node: Node)
    requires a.layers == 10 && node.hardware == Memory(50, 20, 10.0, false)
    ensures a.EndForTail(node, 5) == 8 && node.Capacity() == 5
  {
  }

  /** Position of the first node with the id, or the length of the list. */
  function FirstWith(nodes: seq<Node>, id: NodeId): (k: nat)
    ensures k <= |nodes| && (k < |nodes| ==> nodes[k].id == id)
    ensures forall q :: 0 <= q < k ==> nodes[q].id != id
  {
    if nodes == [] || nodes[0].id == id then 0 else 1 + FirstWith(nodes[1..], id)
  }

  /** The first node with the id taken out. */
  function Dropped(nodes: seq<Node>, id: NodeId): seq<Node> {
    var k := FirstWith(nodes, id);
    if k < |nodes| then nodes[..k] + nodes[k + 1..] else nodes
  }

  // ----- the load records against the allocation map -----

  datatype LoadView = LoadView(hosts: set<NodeId>, kvSize: int) {
    function Plus(id: NodeId, share: int): LoadView {
      LoadView(hosts + {id}, kvSize + share)
    }

    function Minus(id: NodeId, share: int): LoadView {
      LoadView(hosts - {id}, kvSize - share)
    }
  }

  /** The contents of the records, layer by layer. */
  ghost function ViewsOf(loads: seq<LayerLoad>): (views: seq<LoadView>)
    reads loads
    ensures |views| == |loads|
  {
    seq(|loads|, l requires 0 <= l < |loads| reads loads => LoadView(loads[l].hosts, loads[l].kvSize))
  }

  ghost predicate Held(views: seq<LoadView>, id: NodeId, r: Range) {
    forall l :: 0 <= l < |views| && Hosts(r, l) ==> id in views[l].hosts
  }

  function Added(views: seq<LoadView>, id: NodeId, share: int, r: Range): (v: seq<LoadView>)
    ensures |v| == |views|
  {
    seq(|views|, l requires 0 <= l < |views| => if Hosts(r, l) then views[l].Plus(id, share) else views[l])
  }

  function Removed(views: seq<LoadView>, id: NodeId, share: int, r: Range): (v: seq<LoadView>)
    ensures |v| == |views|
  {
    seq(|views|, l requires 0 <= l < |views| => if Hosts(r, l) then views[l].Minus(id, share) else views[l])
  }

  /** Each layer's record holds exactly the nodes that cover it, and their summed share. */
  ghost predicate Accurate(views: seq<LoadView>, alloc: Allocation, nodes: map<NodeId, Node>, layers: nat) {
    && |views| == layers && ValidRanges(alloc, layers) && alloc.Keys <= nodes.Keys
    && (forall l :: 0 <= l < layers ==> views[l].hosts == Hosting(alloc, l))
    && (forall l :: 0 <= l < layers ==> views[l].kvSize == SumShares(Hosting(alloc, l), alloc, nodes))
  }

  lemma NothingAllocated(loads: seq<LayerLoad>, nodes: map<NodeId, Node>, layers: nat)
    requires RecordsMatch(loads, layers)
    requires forall l :: 0 <= l < |loads| ==> loads[l].kvSize == 0 && loads[l].hosts == {}
    ensures Accurate(ViewsOf(loads), map[], nodes, layers)
    ensures EndsMatch([], [], map[], layers)
  {
    forall l ensures Hosting(map[], l) == {} {
    }
  }

  lemma IndexMatches(nodes: seq<Node>)
    requires DistinctIds(nodes)
    ensures NodesMatch(nodes, ById(nodes))
  {
  }

  lemma EndsAdded(embedding: seq<NodeId>, lmHead: seq<NodeId>, alloc: Allocation, id: NodeId, r: Range, layers: nat)
    requires EndsMatch(embedding, lmHead, alloc, layers) && id !in alloc
    ensures EndsMatch(if r.start == 0 then embedding + [id] else embedding,
                      if r.end == layers then lmHead + [id] else lmHead, alloc[id := r], layers)
  {
    assert id !in embedding && id !in lmHead;
  }

  lemma NodeAdded(nodes: seq<Node>, byId: map<NodeId, Node>, node: Node)
    requires NodesMatch(nodes, byId) && node.id !in byId
    ensures NodesMatch(nodes + [node], byId[node.id := node])
    ensures Members(nodes + [node]) == Members(nodes) + {node}
  {
    assert Members(nodes + [node]) == Members(nodes) + {node};
  }

  lemma DroppedMembers(nodes: seq<Node>, node: Node)
    requires DistinctIds(nodes) && forall n :: n in Members(nodes) && n.id == node.id ==> n == node
    ensures Members(Dropped(nodes, node.id)) == Members(nodes) - {node}
  {
    var k := FirstWith(nodes, node.id);
    var rest := Dropped(nodes, node.id);
    forall n | n in Members(nodes) - {node} ensures n in Members(rest) {
      var q :| 0 <= q < |nodes| && nodes[q] == n;
      assert k < |nodes| ==> rest[if q < k then q else q - 1] == n;
    }
    forall n | n in Members(rest) ensures n in Members(nodes) - {node} {
      var q :| 0 <= q < |rest| && rest[q] == n;
      assert rest[q] == nodes[if q < k then q else q + 1];
    }
  }

  lemma DroppedOrder(nodes: seq<Node>, id: NodeId)
    ensures DistinctIds(nodes) ==> DistinctIds(Dropped(nodes, id))
    ensures ByCapacity(nodes) ==> ByCapacity(Dropped(nodes, id))
  {
  }

  lemma DroppedNode(nodes: seq<Node>, byId: map<NodeId, Node>, id: NodeId)
    requires NodesMatch(nodes, byId) && id in byId
    ensures NodesMatch(Dropped(nodes, id), byId - {id}) && byId[id].id == id
    ensures Members(Dropped(nodes, id)) == Members(nodes) - {byId[id]}
    ensures ByCapacity(nodes) ==> ByCapacity(Dropped(nodes, id))
  {
    hide Dropped, DistinctIds, ByCapacity;
    DroppedMembers(nodes, byId[id]);
    DroppedOrder(nodes, id);
    var rest := Dropped(nodes, id);
    forall i | 0 <= i < |rest| ensures rest[i].id in byId - {id} && (byId - {id})[rest[i].id] == rest[i] {
      assert rest[i] in Members(rest);
      var q :| 0 <= q < |nodes| && nodes[q] == rest[i];
    }
  }

  lemma RecordCount(loads: seq<LayerLoad>, layers: nat)
    requires RecordsMatch(loads, layers)
    ensures |loads| == layers
  {
  }

  lemma RecordIds(loads: seq<LayerLoad>, layers: nat, record: LayerLoad)
    requires RecordsMatch(loads, layers) && record in loads
    ensures 0 <= record.layerId < layers
  {
  }

  /** Making another node known changes no share. */
  lemma KnownSharesStay(views: seq<LoadView>, alloc: Allocation, nodes: map<NodeId, Node>, node: Node, layers: nat)
    requires Accurate(views, alloc, nodes, layers) && node.id !in nodes
    ensures Accurate(views, alloc, nodes[node.id := node], layers)
  {
    forall l | 0 <= l < layers
      ensures views[l].kvSize == SumShares(Hosting(alloc, l), alloc, nodes[node.id := node])
    {
      SumSharesFrame(Hosting(alloc, l), alloc, nodes, alloc, nodes[node.id := node]);
    }
  }

  lemma SharesSurvive(views: seq<LoadView>, alloc: Allocation, nodes: map<NodeId, Node>, id: NodeId, layers: nat)
    requires Accurate(views, alloc, nodes, layers) && id !in alloc
    ensures Accurate(views, alloc, nodes - {id}, layers)
  {
    forall l | 0 <= l < layers
      ensures views[l].kvSize == SumShares(Hosting(alloc, l), alloc, nodes - {id})
    {
      SumSharesFrame(Hosting(alloc, l), alloc, nodes, alloc, nodes - {id});
    }
  }

  lemma NodesDeclared(nodes: seq<Node>, byId: map<NodeId, Node>, node: Node)
    requires NodesMatch(nodes, byId) && (node.id in byId ==> byId[node.id] == node)
    ensures NodesMatch(nodes, byId[node.id := node])
    ensures forall id :: id in byId && id != node.id ==> byId[id] != node
  {
  }

  /** One more allocated node: the layers of its range gain it and its share. */
  lemma HostingAdded(alloc: Allocation, nodes: map<NodeId, Node>, node: Node, r: Range, l: int, layers: nat)
    requires ValidRanges(alloc, layers) && alloc.Keys <= nodes.Keys && node.id !in alloc
    requires 0 <= r.start < r.end <= layers
    ensures var alloc', nodes' := alloc[node.id := r], nodes[node.id := node];
            && Hosting(alloc', l) == (if Hosts(r, l) then Hosting(alloc, l) + {node.id} else Hosting(alloc, l))
            && Hosting(alloc', l) <= alloc'.Keys && Hosting(alloc', l) <= nodes'.Keys
            && (forall id :: id in Hosting(alloc', l) ==> alloc'[id].start < alloc'[id].end)
            && SumShares(Hosting(alloc', l), alloc', nodes') ==
               SumShares(Hosting(alloc, l), alloc, nodes) + (if Hosts(r, l) then node.Share(r) else 0)
  {
    var alloc', nodes' := alloc[node.id := r], nodes[node.id := node];
    var ids := Hosting(alloc, l);
    assert forall id :: id in ids ==> alloc'[id] == alloc[id] && nodes'[id] == nodes[id];
    SumSharesFrame(ids, alloc, nodes, alloc', nodes');
    if Hosts(r, l) {
      assert Hosting(alloc', l) == ids + {node.id};
      SumSharesSplits(ids + {node.id}, alloc', nodes', node.id);
      assert ids + {node.id} - {node.id} == ids;
    } else {
      assert Hosting(alloc', l) == ids;
    }
  }

  lemma EndsRemoved(embedding: seq<NodeId>, lmHead: seq<NodeId>, alloc: Allocation, id: NodeId, layers: nat)
    requires EndsMatch(embedding, lmHead, alloc, layers)
    ensures EndsMatch(if id in embedding then RemoveFirst(embedding, id) else embedding,
                      if id in lmHead then RemoveFirst(lmHead, id) else lmHead, alloc - {id}, layers)
  {
    RemoveFirstRemoves(embedding, id);
    RemoveFirstRemoves(lmHead, id);
  }

  /** One allocated node fewer: the layers of its range lose it and its share. */
  lemma HostingRemoved(alloc: Allocation, nodes: map<NodeId, Node>, id: NodeId, l: int, layers: nat)
    requires ValidRanges(alloc, layers) && alloc.Keys <= nodes.Keys && id in alloc
    ensures var alloc' := alloc - {id};
            && Hosting(alloc', l) == (if Hosts(alloc[id], l) then Hosting(alloc, l) - {id} else Hosting(alloc, l))
            && Hosting(alloc', l) <= alloc'.Keys && ValidRanges(alloc', layers)
            && (forall x :: x in Hosting(alloc', l) ==> alloc'[x].start < alloc'[x].end)
            && SumShares(Hosting(alloc', l), alloc', nodes) ==
               SumShares(Hosting(alloc, l), alloc, nodes) - (if Hosts(alloc[id], l) then nodes[id].Share(alloc[id]) else 0)
  {
    var alloc' := alloc - {id};
    var ids := Hosting(alloc, l);
    if Hosts(alloc[id], l) {
      assert Hosting(alloc', l) == ids - {id};
      SumSharesSplits(ids, alloc, nodes, id);
      SumSharesFrame(ids - {id}, alloc, nodes, alloc', nodes);
    } else {
      assert Hosting(alloc', l) == ids;
      SumSharesFrame(ids, alloc, nodes, alloc', nodes);
    }
  }

  lemma AccurateRemoved(views: seq<LoadView>, alloc: Allocation, nodes: map<NodeId, Node>, id: NodeId, layers: nat)
    requires Accurate(views, alloc, nodes, layers) && id in alloc
    ensures 0 <= alloc[id].start < alloc[id].end <= layers
    ensures Held(views, id, alloc[id])
    ensures Accurate(Removed(views, id, nodes[id].Share(alloc[id]), alloc[id]), alloc - {id}, nodes, layers)
  {
    assert Held(views, id, alloc[id]);
    hide Hosting, SumShares;
    var views' := Removed(views, id, nodes[id].Share(alloc[id]), alloc[id]);
    forall l | 0 <= l < layers
      ensures views'[l].hosts == Hosting(alloc - {id}, l)
      ensures ValidRanges(alloc - {id}, layers)
      ensures Hosting(alloc - {id}, l) <= (alloc - {id}).Keys
      ensures views'[l].kvSize == SumShares(Hosting(alloc - {id}, l), alloc - {id}, nodes)
    {
      HostingRemoved(alloc, nodes, id, l, layers);
    }
  }

  lemma AccurateAdded(views: seq<LoadView>, alloc: Allocation, nodes: map<NodeId, Node>, node: Node, r: Range, layers: nat)
    requires Accurate(views, alloc, nodes, layers) && node.id !in alloc && 0 <= r.start < r.end <= layers
    ensures Accurate(Added(views, node.id, node.Share(r), r), alloc[node.id := r], nodes[node.id := node], layers)
  {
    hide Hosting, SumShares;
    var views' := Added(views, node.id, node.Share(r), r);
    forall l | 0 <= l < layers
      ensures views'[l].hosts == Hosting(alloc[node.id := r], l)
      ensures Hosting(alloc[node.id := r], l) <= nodes[node.id := node].Keys
      ensures ValidRanges(alloc[node.id := r], layers)
      ensures Hosting(alloc[node.id := r], l) <= alloc[node.id := r].Keys
      ensures views'[l].kvSize == SumShares(Hosting(alloc[node.id := r], l), alloc[node.id := r], nodes[node.id := node])
    {
      HostingAdded(alloc, nodes, node, r, l, layers);
    }
  }

  ghost predicate DistinctIds(nodes: seq<Node>) {
    forall i, j :: 0 <= i < j < |nodes| ==> nodes[i].id != nodes[j].id
  }

  function Members(nodes: seq<Node>): set<Node> {
    set n | n in nodes
  }

  function ById(nodes: seq<Node>): (m: map<NodeId, Node>)
    requires DistinctIds(nodes)
    ensures forall i :: 0 <= i < |nodes| ==> nodes[i].id in m && m[nodes[i].id] == nodes[i]
    ensures forall id :: id in m ==> m[id] in nodes && m[id].id == id
  {
    assert forall x, y :: x in nodes && y in nodes && x.id == y.id ==> x == y;
    map n | n in nodes :: n.id := n
  }

  // ----- capacity order -----

  function LargestFirst(): (le: (Node, Node) -> bool) {
    (x: Node, y: Node) => y.Capacity() <= x.Capacity()
  }

  ghost predicate ByCapacity(nodes: seq<Node>) {
    forall i, j :: 0 <= i < j < |nodes| ==> nodes[j].Capacity() <= nodes[i].Capacity()
  }

  /** Nodes of one capacity stand in the order they had. */
  ghost predicate StablySorted(before: seq<Node>, after: seq<Node>) {
    forall i, j :: 0 <= i < j < |after| ==>
      after[i].Capacity() > after[j].Capacity()
      || (after[i].Capacity() == after[j].Capacity() && Stood(before, after[i], after[j]))
  }

  ghost predicate Stood(nodes: seq<Node>, a: Node, b: Node) {
    exists p, q :: 0 <= p < q < |nodes| && nodes[p] == a && nodes[q] == b
  }

  lemma SortedStably(nodes: seq<Node>)
    ensures StablySorted(nodes, SortBy(LargestFirst(), nodes))
  {
    hide SortBy, DecoderCapacity;
    var before := (a: Node, b: Node) => Stood(nodes, a, b);
    SortByKeepsTies(LargestFirst(), before, nodes);
    var sorted := SortBy(LargestFirst(), nodes);
    forall i, j | 0 <= i < j < |sorted|
      ensures sorted[i].Capacity() > sorted[j].Capacity()
              || (sorted[i].Capacity() == sorted[j].Capacity() && Stood(nodes, sorted[i], sorted[j]))
    {
      assert LargestFirst()(sorted[i], sorted[j]);
      assert LargestFirst()(sorted[j], sorted[i]) ==> before(sorted[i], sorted[j]);
    }
  }

  lemma SortedByCapacity(nodes: seq<Node>)
    ensures ByCapacity(SortBy(LargestFirst(), nodes))
    ensures multiset(SortBy(LargestFirst(), nodes)) == multiset(nodes)
    ensures ByCapacity(nodes) ==> SortBy(LargestFirst(), nodes) == nodes
  {
    SortBySorts(LargestFirst(), nodes);
    SortByRearranges(LargestFirst(), nodes);
    var sorted := SortBy(LargestFirst(), nodes);
    assert forall i, j :: 0 <= i < j < |sorted| ==> LargestFirst()(sorted[i], sorted[j]);
    if ByCapacity(nodes) {
      SortByIsStable(LargestFirst(), nodes);
    }
  }

  lemma RearrangedMembers(a: seq<Node>, b: seq<Node>)
    requires multiset(a) == multiset(b)
    ensures Members(a) == Members(b)
  {
    assert forall n :: n in a <==> n in multiset(a);
    assert forall n :: n in b <==> n in multiset(b);
  }

  /** Reordering a list of nodes with distinct ids keeps them distinct, and its members. */
  lemma RearrangedMatch(a: seq<Node>, b: seq<Node>, byId: map<NodeId, Node>)
    requires multiset(a) == multiset(b) && NodesMatch(a, byId)
    ensures NodesMatch(b, byId) && Members(a) == Members(b)
  {
    RearrangedMembers(a, b);
    forall i | 0 <= i < |b| ensures b[i].id in byId && byId[b[i].id] == b[i] {
      assert b[i] in Members(b);
      var q :| 0 <= q < |a| && a[q] == b[i];
    }
    forall i, j | 0 <= i < j < |b| ensures b[i].id != b[j].id {
      EachOnce(a, b[i]);
      if b[i] == b[j] {
        Twice(b, i, j);
      }
    }
  }
}
