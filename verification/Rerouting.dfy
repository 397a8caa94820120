/** Whether a rebuilt full pipeline can be routed to. */
module Rerouting {
  // Taking a node's range away marks it inactive, and giving it one does not make it active again; the router
  // over whole shards uses active nodes only.

  import opened Outcomes
  import opened ClusterNode
  import opened LayerAllocator
  import opened LayerIndex
  import opened Latency
  import opened ShardRouting
  import opened WarmUp
  import opened GlobalAllocation
  import opened ClusterBootstrap
  import BootstrapWitness

  /** A chain of active nodes over all layers whose latency is finite. */
  ghost predicate FiniteChain(shards: seq<Shard>, layers: int, path: seq<nat>) {
    FullChain(shards, layers, path) && (forall k :: 0 <= k < |path| ==> path[k] < |shards|) && Cost(shards, path).Fin?
  }

  ghost predicate Routable(shards: seq<Shard>, layers: int) {
    exists path :: FiniteChain(shards, layers, path)
  }

  /** The shards are the nodes as they are now. */
  ghost predicate Current(shards: seq<Shard>, a: Allocator, measured: Measured)
    reads a, a.nodes
  {
    && Snapshot(shards, a.nodes, a.allocation) && MeasuredBy(shards, measured)
    && forall i :: 0 <= i < |shards| ==> shards[i].active == a.nodes[i].isActive
  }

  lemma ChainIsActive(shards: seq<Shard>, layers: int, path: seq<nat>)
    requires FullChain(shards, layers, path)
    ensures forall k :: 0 <= k < |path| ==> path[k] < |shards| && shards[path[k]].active
  {
    ChainNodes(shards, path, path[|path| - 1]);
  }

  lemma ProperFromAllocation(a: Allocator, shards: seq<Shard>)
    requires a.Valid() && Snapshot(shards, a.nodes, a.allocation)
    ensures ProperRanges(shards)
  {
    SnapshotShards(a, shards);
    forall i | 0 <= i < |shards| && shards[i].range.Some? ensures 0 <= shards[i].range.value.start < shards[i].range.value.end {
      assert ShardOf(shards[i], a.allocation);
    }
  }

  /** Routes over the nodes as they are: a path is found exactly when some chain of active nodes covers all
      layers at a finite latency, and only active nodes are on it. */
  method RouteNow(a: Allocator, measured: Measured) returns (names: seq<NodeId>, latency: Time, ghost shards: seq<Shard>)
    requires a.Valid() && a.layers > 0 && a.nodes != []
    ensures Current(shards, a, measured) && (names != [] <==> Routable(shards, a.layers))
    ensures OnlyActive(a.nodes, names)
  {
    hide Allocator.Valid, MeasuredBy;
    var current := BuildShards(a, measured);
    shards := current;
    ProperFromAllocation(a, current);
    ghost var path;
    names, latency, path := FindOptimalPath(current, a.layers);
    FoundExactly(current, a.layers, names, latency, path);
    if names != [] {
      ChainIsActive(current, a.layers, path);
      forall k | 0 <= k < |names| ensures exists i :: 0 <= i < |a.nodes| && a.nodes[i].id == names[k] && a.nodes[i].isActive {
        assert a.nodes[path[k]].id == names[k];
      }
    }
  }

  lemma FoundExactly(shards: seq<Shard>, layers: int, names: seq<NodeId>, latency: Time, path: seq<nat>)
    requires forall q :: FullChain(shards, layers, q) ==> CostsAtLeast(shards, q, latency)
    requires names == [] <==> latency == Inf
    requires names != [] ==> FullChain(shards, layers, path) && Attained(shards, path[|path| - 1], latency, path) && latency.Fin?
    ensures names != [] <==> Routable(shards, layers)
  {
    if names != [] {
      assert FiniteChain(shards, layers, path);
    } else {
      forall q ensures !FiniteChain(shards, layers, q) {
        if FullChain(shards, layers, q) {
          assert CostsAtLeast(shards, q, latency);
        }
      }
    }
  }

  /** After a clearing rebuild, and before any node reports, only nodes that were active and had no range are
      routed to.  If all nodes had one, nothing is routed, although a full pipeline may exist. */
  method RouteAfterRebuild(s: ClusterScheduler, measured: Measured)
    returns (r: Result<bool>, names: seq<NodeId>, ghost shards: seq<Shard>)
    requires s.Valid() && s.allocator.layers > 0 && s.allocator.nodes != []
    modifies s`bootstrapped, s.allocator, Members(s.allocator.nodes), s.allocator.loads
    ensures s.Valid() && s.allocator.nodes == old(s.allocator.nodes)
    ensures r == Ok(true) ==> s.bootstrapped && s.Full()
    ensures s.Easy() && Feasible(s.allocator.layers, s.allocator.nodes) ==> r == Ok(true)
    ensures Current(shards, s.allocator, measured) && (names != [] <==> Routable(shards, s.allocator.layers))
    ensures OnlyRangeless(s.allocator.nodes, names)
    ensures (forall i :: 0 <= i < |s.allocator.nodes| ==> old(s.allocator.nodes[i].range.Some?)) ==> names == []
  {
    hide ClusterScheduler.Valid, Allocator.Valid, Routable, Current, Feasible, Comfortable, FullPipeline, Realizes, CarriedOut, BestPlan,
         GivenUpAt, WarmedUp, PlanFor, AllAdjustable, KeepsPipeline, NoneActivated, HostsDeactivated;
    ghost var nodes := s.allocator.nodes;
    ghost var route, built;
    r, route, built := s.Bootstrap(true, true, measured);
    BootstrapWitness.SchedulerIsValid(s);
    var latency;
    names, latency, shards := RouteNow(s.allocator, measured);
    ActiveWereRangeless(nodes);
    assert names == [] || names[0] in names;
  }

  /** The nodes of these names were active and had no range. */
  twostate predicate OnlyRangeless(nodes: seq<Node>, names: seq<NodeId>)
    reads nodes
  {
    forall k :: 0 <= k < |names| ==>
      exists i :: 0 <= i < |nodes| && nodes[i].id == names[k] && old(nodes[i].isActive && nodes[i].range.None?)
  }

  /** The nodes of these names are active. */
  ghost predicate OnlyActive(nodes: seq<Node>, names: seq<NodeId>)
    reads nodes
  {
    forall k :: 0 <= k < |names| ==> exists i :: 0 <= i < |nodes| && nodes[i].id == names[k] && nodes[i].isActive
  }

  twostate lemma ActiveWereRangeless(nodes: seq<Node>)
    requires NoneActivated(Members(nodes)) && HostsDeactivated(Members(nodes))
    ensures forall i :: 0 <= i < |nodes| ==> nodes[i] in Members(nodes) && (nodes[i].isActive ==> old(nodes[i].isActive && nodes[i].range.None?))
  {
    assert forall i :: 0 <= i < |nodes| ==> nodes[i] in Members(nodes);
  }

  lemma WideIsReady(s: ClusterScheduler)
    requires s.Valid() && s.allocator.layers == 3 && s.allocator.iterations == 40
    requires s.allocator.allocation == map["wide" := Range(0, 3)] && s.allocator.nodeById.Keys == {"wide"}
    requires s.allocator.nodeById["wide"].hardware == BootstrapWitness.Wide() && s.allocator.nodeById["wide"].power == 1.0
    ensures s.Easy() && Feasible(3, s.allocator.nodes) && s.allocator.nodes != []
    ensures Members(s.allocator.nodes) == {s.allocator.nodeById["wide"]}
    ensures forall i :: 0 <= i < |s.allocator.nodes| ==> s.allocator.nodes[i].range.Some?
  {
    hide Allocator.Valid, Feasible, Comfortable;
    var a := s.allocator;
    BootstrapWitness.Facts(s);
    BootstrapWitness.WideAndOthers(a.nodes, a.nodeById);
    BootstrapWitness.WideIsComfortable(a.nodes, a.iterations);
    HostHasRange(a, "wide");
    assert forall i :: 0 <= i < |a.nodes| ==> a.nodes[i] in Members(a.nodes);
  }

  lemma HostHasRange(a: Allocator, id: NodeId)
    requires a.Valid() && id in a.allocation
    ensures id in a.nodeById && a.nodeById[id].range.Some?
  {
    assert a.RangesOk();
  }

  /** One node serves all layers.  A clearing rebuild gives it all of them again and succeeds, but the router
      finds no path until the node reports. */
  method RebuiltUnrouted() returns (s: ClusterScheduler, r: Result<bool>, names: seq<NodeId>)
    ensures fresh(s) && s.Valid() && r == Ok(true) && s.bootstrapped && s.Full() && names == []
  {
    hide ClusterScheduler.Valid, Allocator.Valid, Feasible, Comfortable, FullPipeline;
    s := BootstrapWitness.WideCluster();
    WideIsReady(s);
    ghost var shards;
    r, names, shards := RouteAfterRebuild(s, BootstrapWitness.Fast());
  }
}
