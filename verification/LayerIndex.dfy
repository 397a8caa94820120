/** What the allocation map says about each layer.

    Each layer has a load record, with the nodes that host it and their summed share of cache memory;
    the endpoint sets are the nodes that hold the first and the last layer. */
module LayerIndex {
  import opened ClusterNode

  type Allocation = map<NodeId, Range>

  predicate Hosts(r: Range, layer: int) {
    r.start <= layer < r.end
  }

  /** The nodes whose range covers the layer. */
  function Hosting(alloc: Allocation, layer: int): set<NodeId> {
    set id | id in alloc && Hosts(alloc[id], layer)
  }

  function Starting(alloc: Allocation): set<NodeId> {
    set id | id in alloc && alloc[id].start == 0
  }

  function Ending(alloc: Allocation, layers: int): set<NodeId> {
    set id | id in alloc && alloc[id].end == layers
  }

  ghost predicate ValidRanges(alloc: Allocation, layers: int) {
    forall id :: id in alloc ==> 0 <= alloc[id].start < alloc[id].end <= layers
  }

  /** Summed KV share of the listed nodes. */
  ghost function SumShares(ids: set<NodeId>, alloc: Allocation, nodes: map<NodeId, Node>): int
    requires ids <= alloc.Keys && ids <= nodes.Keys
    requires forall id :: id in ids ==> alloc[id].start < alloc[id].end
  {
    if ids == {} then 0
    else
      var id :| id in ids;
      nodes[id].Share(alloc[id]) + SumShares(ids - {id}, alloc, nodes)
  }

  lemma {:induction false} SumSharesSplits(ids: set<NodeId>, alloc: Allocation, nodes: map<NodeId, Node>, x: NodeId)
    requires ids <= alloc.Keys && ids <= nodes.Keys && x in ids
    requires forall id :: id in ids ==> alloc[id].start < alloc[id].end
    ensures SumShares(ids, alloc, nodes) == nodes[x].Share(alloc[x]) + SumShares(ids - {x}, alloc, nodes)
  {
    var y :| y in ids && SumShares(ids, alloc, nodes) == nodes[y].Share(alloc[y]) + SumShares(ids - {y}, alloc, nodes);
    if y != x {
      SumSharesSplits(ids - {y}, alloc, nodes, x);
      SumSharesSplits(ids - {x}, alloc, nodes, y);
      assert ids - {y} - {x} == ids - {x} - {y};
    }
  }

  /** The sum depends only on the entries of the listed nodes. */
  lemma {:induction false} SumSharesFrame(ids: set<NodeId>, alloc: Allocation, nodes: map<NodeId, Node>,
                                          alloc': Allocation, nodes': map<NodeId, Node>)
    requires ids <= alloc.Keys && ids <= nodes.Keys && ids <= alloc'.Keys && ids <= nodes'.Keys
    requires forall id :: id in ids ==> alloc[id] == alloc'[id] && nodes[id] == nodes'[id]
    requires forall id :: id in ids ==> alloc[id].start < alloc[id].end
    ensures SumShares(ids, alloc, nodes) == SumShares(ids, alloc', nodes')
  {
    if ids != {} {
      var x :| x in ids;
      SumSharesSplits(ids, alloc, nodes, x);
      SumSharesSplits(ids, alloc', nodes', x);
      SumSharesFrame(ids - {x}, alloc, nodes, alloc', nodes');
    }
  }

  /** The load record of one layer. */
  class LayerLoad {
    const layerId: int
    var kvSize: int
    var hosts: set<NodeId>

    constructor (layerId: int)
      ensures this.layerId == layerId && kvSize == 0 && hosts == {}
    {
      this.layerId, kvSize, hosts := layerId, 0, {};
    }

    method AddNode(node: Node)
      requires node.range.Some? && node.range.value.start < node.range.value.end
      modifies this
      ensures hosts == old(hosts) + {node.id}
      ensures kvSize == old(kvSize) + node.Share(node.range.value)
    {
      hosts := hosts + {node.id};
      kvSize := kvSize + node.Share(node.range.value);
    }

    method RemoveNode(node: Node)
      requires node.range.Some? && node.range.value.start < node.range.value.end
      modifies this
      ensures hosts == old(hosts) - {node.id}
      ensures kvSize == old(kvSize) - (if node.id in old(hosts) then node.Share(node.range.value) else 0)
    {
      if node.id in hosts {
        hosts := hosts - {node.id};
        kvSize := kvSize - node.Share(node.range.value);
      }
    }

    /** Less KV memory first, then the smaller layer. */
    predicate NotHeavier(other: LayerLoad)
      reads this, other
    {
      kvSize < other.kvSize || (kvSize == other.kvSize && layerId <= other.layerId)
    }
  }

  // ----- chains of ranges -----

  /** Ranges that follow one another without gap or overlap, from layer `from` to layer `to`. */
  predicate Chain(path: seq<Range>, from: int, to: int) {
    if path == [] then from == to
    else path[0].start == from && path[0].start < path[0].end && Chain(path[1..], path[0].end, to)
  }

  ghost predicate ChainIn(ranges: set<Range>, path: seq<Range>, from: int, to: int) {
    Chain(path, from, to) && forall q :: 0 <= q < |path| ==> path[q] in ranges
  }

  /** Some chain of allocated ranges runs from the first layer to the last. */
  ghost predicate FullPipeline(alloc: Allocation, layers: int) {
    exists path: seq<Range> :: path != [] && ChainIn(alloc.Values, path, 0, layers)
  }

  lemma MoreRangesKeepPipelines(alloc: Allocation, alloc': Allocation, layers: int)
    requires alloc.Values <= alloc'.Values && FullPipeline(alloc, layers)
    ensures FullPipeline(alloc', layers)
  {
    var path: seq<Range> :| path != [] && ChainIn(alloc.Values, path, 0, layers);
    assert ChainIn(alloc'.Values, path, 0, layers);
  }

  lemma AddingKeepsValues(alloc: Allocation, id: NodeId, r: Range)
    requires id !in alloc
    ensures alloc.Values <= alloc[id := r].Values
  {
    forall v | v in alloc.Values ensures v in alloc[id := r].Values {
      var x :| x in alloc && alloc[x] == v;
      assert alloc[id := r][x] == v;
    }
  }

  lemma {:induction false} ChainGoesUp(path: seq<Range>, from: int, to: int)
    requires Chain(path, from, to)
    ensures from <= to && (path != [] ==> from < to)
  {
    if path != [] {
      ChainGoesUp(path[1..], path[0].end, to);
    }
  }
}
