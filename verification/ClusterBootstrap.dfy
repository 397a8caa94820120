/** The cluster scheduler's bootstrap flag: as long as it is set, a full pipeline exists. */
module ClusterBootstrap {
  // Nodes join and leave, and allocations are rebuilt and warmed up.

  import opened Outcomes
  import opened ClusterNode
  import opened LayerIndex
  import opened LayerAllocator
  import opened Latency
  import opened ShardRouting
  import opened TurningPoints
  import opened WarmUp
  import opened FullPipelines
  import opened GlobalAllocation

  /** Measured latencies and round trips; what was never measured is infinite. */
  datatype Measured = Measured(latency: map<NodeId, Time>, rtt: map<NodeId, map<NodeId, real>>)

  ghost predicate MeasuredBy(shards: seq<Shard>, measured: Measured) {
    forall i :: 0 <= i < |shards| ==>
      && shards[i].latency == (if shards[i].id in measured.latency then measured.latency[shards[i].id] else Inf)
      && shards[i].rtt == (if shards[i].id in measured.rtt then measured.rtt[shards[i].id] else map[])
  }

  /** A cheapest route, or none when no route has a finite cost. */
  ghost predicate CheapestFinite(shards: seq<Shard>, layers: nat, route: seq<nat>, cost: Time) {
    if route == [] then forall q: seq<nat> :: q != [] && |q| == layers && Route(shards, q) ==> RouteCost(shards, q) == Inf
    else cost.Fin? && BestRoute(shards, layers, route, cost)
  }

  /** A warm-up has been run: a cheapest route over the nodes as they were, and what it left. */
  ghost predicate WarmedUp(nodes: seq<Node>, measured: Measured, before: Allocation, after: Allocation, layers: nat,
                           route: seq<nat>)
  {
    exists shards, cost ::
      && Snapshot(shards, nodes, before) && MeasuredBy(shards, measured)
      && CheapestFinite(shards, layers, route, cost) && Warmed(shards, before, after, route, cost)
  }

  /** The shards warm-up searches: the listed nodes with their ranges and measurements. */
  method BuildShards(a: Allocator, measured: Measured) returns (shards: seq<Shard>)
    requires a.Valid()
    ensures Snapshot(shards, a.nodes, a.allocation) && MeasuredBy(shards, measured)
    ensures forall i :: 0 <= i < |shards| ==> shards[i].active == a.nodes[i].isActive
  {
    shards := [];
    for i := 0 to |a.nodes|
      invariant |shards| == i
      invariant forall k :: 0 <= k < i ==> shards[k].id == a.nodes[k].id && ShardOf(shards[k], a.allocation)
      invariant MeasuredBy(shards, measured)
      invariant forall k :: 0 <= k < i ==> shards[k].active == a.nodes[k].isActive
    {
      var n := a.nodes[i];
      assert a.nodeById[n.id] == n;
      shards := shards + [Shard(n.id, n.range, n.isActive,
                                if n.id in measured.latency then measured.latency[n.id] else Inf,
                                if n.id in measured.rtt then measured.rtt[n.id] else map[])];
    }
  }

  /** Every known node is on the list. */
  ghost predicate AllListed(nodes: seq<Node>, byId: map<NodeId, Node>) {
    forall id :: id in byId ==> byId[id] in Members(nodes)
  }

  ghost predicate Powered(nodes: seq<Node>) {
    forall n :: n in Members(nodes) ==> n.power > 0.0
  }

  lemma ListedAreKnown(a: Allocator)
    requires a.Valid() && AllListed(a.nodes, a.nodeById)
    ensures AllocatedAreListed(a.nodes, a.allocation)
  {
    assert a.NodesOk() && a.RangesOk();
    forall id | id in a.allocation ensures exists k :: 0 <= k < |a.nodes| && a.nodes[k].id == id {
      assert a.nodeById[id] in Members(a.nodes) && a.nodeById[id].id == id;
      var k :| 0 <= k < |a.nodes| && a.nodes[k] == a.nodeById[id];
    }
  }

  lemma ListPowered(nodes: seq<Node>)
    requires Powered(nodes)
    ensures forall i :: 0 <= i < |nodes| ==> nodes[i].power > 0.0
  {
    assert forall i :: 0 <= i < |nodes| ==> nodes[i] in Members(nodes);
  }

  /** The nodes that had a range are inactive. */
  twostate predicate HostsDeactivated(nodes: set<Node>)
    reads nodes
  {
    forall n :: n in nodes && old(n.range.Some?) ==> !n.isActive
  }

  /** Takes the node's range away, if it has one. */
  method TakeRange(a: Allocator, n: Node)
    requires a.Valid() && n in a.nodes
    modifies a, n, a.loads
    ensures a.Valid() && a.nodes == old(a.nodes) && a.nodeById == old(a.nodeById)
    ensures a.allocation == old(a.allocation) - {n.id} && n.isActive == (old(n.isActive) && old(n.range.None?))
  {
    hide Allocator.Valid;
    assert n in Members(a.nodes);
    ListedNode(a, n);
    if n.range.Some? {
      a.Deallocate(n);
    } else {
      assert a.allocation - {n.id} == a.allocation;
    }
  }

  /** Whether each node is active, and whether it has a range. */
  datatype Flags = Flags(active: bool, hosts: bool)

  ghost function FlagsOf(nodes: seq<Node>): (flags: seq<Flags>)
    reads nodes
    ensures |flags| == |nodes|
    ensures forall k :: 0 <= k < |nodes| ==> flags[k] == Flags(nodes[k].isActive, nodes[k].range.Some?)
  {
    seq(|nodes|, k requires 0 <= k < |nodes| reads nodes => Flags(nodes[k].isActive, nodes[k].range.Some?))
  }

  /** Of the first `i` nodes those that had a range are inactive, and none has become active. */
  ghost predicate TakenSince(flags: seq<Flags>, now: seq<Flags>, i: nat) {
    && |now| == |flags| && i <= |now|
    && (forall k :: 0 <= k < i ==> now[k].active == (flags[k].active && !flags[k].hosts))
    && (forall k :: i <= k < |now| ==> now[k] == flags[k])
  }

  lemma NothingTaken(flags: seq<Flags>)
    ensures TakenSince(flags, flags, 0)
  {
  }

  twostate lemma AllTaken(nodes: seq<Node>)
    requires TakenSince(old(FlagsOf(nodes)), FlagsOf(nodes), |nodes|)
    ensures NoneActivated(Members(nodes)) && HostsDeactivated(Members(nodes))
  {
    forall n | n in Members(nodes) ensures (n.isActive ==> old(n.isActive)) && (old(n.range.Some?) ==> !n.isActive) {
      var k :| 0 <= k < |nodes| && nodes[k] == n;
      assert FlagsOf(nodes)[k].active == (old(FlagsOf(nodes))[k].active && !old(FlagsOf(nodes))[k].hosts);
    }
  }

  lemma NextTaken(flags: seq<Flags>, before: seq<Flags>, now: seq<Flags>, i: nat)
    requires TakenSince(flags, before, i) && i < |now| == |before|
    requires now[i].active == (before[i].active && !before[i].hosts)
    requires forall k :: 0 <= k < |now| && k != i ==> now[k] == before[k]
    ensures TakenSince(flags, now, i + 1)
  {
  }

  /** Takes every range away. */
  method DeallocateAll(a: Allocator)
    requires a.Valid() && AllListed(a.nodes, a.nodeById)
    modifies a, Members(a.nodes), a.loads
    ensures a.Valid() && a.nodes == old(a.nodes) && a.nodeById == old(a.nodeById) && a.allocation == map[]
    ensures NoneActivated(Members(a.nodes)) && HostsDeactivated(Members(a.nodes))
  {
    hide Allocator.Valid, AllListed, TakenSince, FlagsOf, NoneActivated, HostsDeactivated;
    ListedAreKnown(a);
    DistinctObjects(a);
    ghost var nodes, before := a.nodes, a.allocation;
    ghost var flags := FlagsOf(nodes);
    NothingTaken(flags);
    var i := 0;
    while i < |a.nodes|
      invariant i <= |nodes| && a.Valid() && a.nodes == nodes && a.nodeById == old(a.nodeById)
      invariant a.allocation.Keys <= before.Keys
      invariant forall k :: 0 <= k < i ==> nodes[k].id !in a.allocation
      invariant TakenSince(flags, FlagsOf(nodes), i)
    {
      ghost var now := FlagsOf(nodes);
      TakeRange(a, a.nodes[i]);
      NextTaken(flags, now, FlagsOf(nodes), i);
      i := i + 1;
    }
    assert a.allocation.Keys == {};
    AllTaken(nodes);
  }

  lemma DistinctObjects(a: Allocator)
    requires a.Valid()
    ensures forall i, j :: 0 <= i < j < |a.nodes| ==> a.nodes[i] != a.nodes[j]
  {
    NodesAreDistinct(a);
  }

  lemma OneMoreListed(nodes: seq<Node>, byId: map<NodeId, Node>, node: Node, nodes': seq<Node>)
    requires Members(nodes') == Members(nodes) + {node} && node.power > 0.0
    ensures AllListed(nodes, byId) ==> AllListed(nodes', byId[node.id := node])
    ensures Powered(nodes) ==> Powered(nodes')
  {
  }

  lemma SameListed(nodes: seq<Node>, nodes': seq<Node>, byId: map<NodeId, Node>)
    requires Members(nodes') == Members(nodes)
    ensures AllListed(nodes, byId) ==> AllListed(nodes', byId)
    ensures Powered(nodes) ==> Powered(nodes')
  {
  }

  lemma JoiningKeepsPipelines(before: Allocation, after: Allocation, id: NodeId, layers: nat)
    requires id !in before && id in after && after == before[id := after[id]]
    ensures FullPipeline(before, layers) ==> FullPipeline(after, layers)
  {
    AddingKeepsValues(before, id, after[id]);
    if FullPipeline(before, layers) {
      MoreRangesKeepPipelines(before, after, layers);
    }
  }

  lemma KnownStillFit(alloc: Allocation, nodes: map<NodeId, Node>, id: NodeId, node: Node)
    requires Fits(alloc, nodes)
    ensures id !in nodes ==> Fits(alloc, nodes[id := node])
    ensures Fits(alloc - {id}, nodes - {id})
  {
  }

  lemma ShrunkStillFit(before: Allocation, after: Allocation, nodes: map<NodeId, Node>)
    requires Fits(before, nodes) && Shrunk(before, after)
    ensures Fits(after, nodes)
  {
  }

  /** The route of the search is a cheapest one, unless even that has no finite cost. */
  lemma FoundIsCheapest(shards: seq<Shard>, layers: nat, path: seq<nat>, cost: Time)
    requires path != [] <==> layers > 0 && shards != [] && EveryLayerHosted(shards, layers)
    requires path != [] ==> BestRoute(shards, layers, path, cost)
    ensures CheapestFinite(shards, layers, if cost.Fin? then path else [], cost)
  {
    forall q: seq<nat> | q != [] && |q| == layers && Route(shards, q)
      ensures path != [] && (cost.Inf? ==> RouteCost(shards, q) == Inf)
    {
      forall l | 0 <= l < layers ensures Hosted(shards, l) {
        assert HostsLayer(shards, q[l], l);
      }
      assert CostsNoLess(shards, q, cost);
    }
  }

  lemma NothingWarmed(shards: seq<Shard>, before: Allocation, after: Allocation, path: seq<nat>, cost: Time)
    requires Warmed(shards, before, after, path, cost)
    ensures path == [] || cost.Inf? ==> after == before && Warmed(shards, before, after, [], cost)
  {
  }

  // ----- what a warm-up loses -----

  /** A node off the route hosts the layer. */
  ghost predicate HeldElsewhere(nodes: seq<Node>, route: seq<nat>, alloc: Allocation, l: int) {
    exists id :: id in alloc && Hosts(alloc[id], l) && OffRoute(nodes, route, id)
  }

  ghost predicate OffRoute(nodes: seq<Node>, route: seq<nat>, id: NodeId) {
    forall k :: 0 <= k < |route| && route[k] < |nodes| ==> nodes[route[k]].id != id
  }

  /** Every layer the route's nodes lose is hosted by a node off the route. */
  ghost predicate LostAreHeld(nodes: seq<Node>, route: seq<nat>, alloc: Allocation) {
    forall l :: LostAt(route, l) ==> HeldElsewhere(nodes, route, alloc, l)
  }

  /** No layer the route's nodes lose is. */
  ghost predicate LostAreGone(nodes: seq<Node>, route: seq<nat>, alloc: Allocation) {
    forall l :: LostAt(route, l) ==> !HeldElsewhere(nodes, route, alloc, l)
  }

  /** The ranges with every node on the route cut back to its first unbroken stretch. */
  ghost function Cropped(nodes: seq<Node>, route: seq<nat>, alloc: Allocation): Allocation {
    map id | id in alloc ::
      if k :| 0 <= k < |route| && route[k] < |nodes| && nodes[route[k]].id == id then StretchOf(route, route[k]) else alloc[id]
  }

  lemma NobodyCropped(nodes: seq<Node>, alloc: Allocation)
    ensures Cropped(nodes, [], alloc) == alloc
  {
  }

  /** What a warm-up leaves is determined by the ranges before it and the route. */
  lemma WarmedIsCropped(nodes: seq<Node>, shards: seq<Shard>, before: Allocation, after: Allocation, route: seq<nat>, cost: Time)
    requires DistinctIds(nodes) && Snapshot(shards, nodes, before)
    requires route != [] && cost.Fin? && Warmed(shards, before, after, route, cost)
    ensures after == Cropped(nodes, route, before)
  {
    hide Warmed, Snapshot, DistinctIds;
    var cropped := Cropped(nodes, route, before);
    assert after.Keys == before.Keys == cropped.Keys by { SameIdsWarmed(shards, before, after, route, cost); }
    forall id | id in before ensures after[id] == cropped[id] {
      WarmedNode(nodes, shards, before, after, route, cost, id);
    }
  }

  lemma SameIdsWarmed(shards: seq<Shard>, before: Allocation, after: Allocation, route: seq<nat>, cost: Time)
    requires Warmed(shards, before, after, route, cost)
    ensures after.Keys == before.Keys
  {
  }

  lemma WarmedNode(nodes: seq<Node>, shards: seq<Shard>, before: Allocation, after: Allocation, route: seq<nat>, cost: Time, id: NodeId)
    requires DistinctIds(nodes) && Snapshot(shards, nodes, before)
    requires route != [] && cost.Fin? && Warmed(shards, before, after, route, cost) && id in before
    ensures id in after && after[id] == Cropped(nodes, route, before)[id]
  {
    hide FirstStretch, StretchOf;
    if k :| 0 <= k < |route| && route[k] < |nodes| && nodes[route[k]].id == id {
      var left := LeftOnRoute(shards, route, after);
      assert route[k] in left && left[route[k]] == after[id];
      OnlyOneStretch(route, route[k], after[id]);
      assert forall m :: 0 <= m < |route| && route[m] < |nodes| && nodes[route[m]].id == id ==> route[m] == route[k];
    }
  }

  lemma NodesAreDistinct(a: Allocator)
    requires a.Valid()
    ensures DistinctIds(a.nodes)
  {
  }

  lemma HeldOffIsElsewhere(shards: seq<Shard>, nodes: seq<Node>, route: seq<nat>, alloc: Allocation)
    requires Snapshot(shards, nodes, alloc)
    requires forall l :: LostAt(route, l) ==> HeldOff(shards, route, alloc, l)
    ensures LostAreHeld(nodes, route, alloc)
  {
    hide LostAt;
    forall l | LostAt(route, l) ensures HeldElsewhere(nodes, route, alloc, l) {
      var id :| id in alloc && Hosts(alloc[id], l) && OffRouteId(shards, route, id);
      assert OffRoute(nodes, route, id);
    }
  }

  /** A route of at most one layer loses none. */
  lemma ShortRouteLosesNothing(nodes: seq<Node>, route: seq<nat>, alloc: Allocation)
    requires |route| <= 1
    ensures NeverReturns(route) && LostAreHeld(nodes, route, alloc)
  {
  }

  lemma GoneMeansReturning(nodes: seq<Node>, route: seq<nat>, alloc: Allocation)
    requires LostAreGone(nodes, route, alloc) && LostAreHeld(nodes, route, alloc)
    ensures NeverReturns(route)
  {
    ReturningLoses(route);
  }

  class ClusterScheduler {
    const allocator: Allocator
    const minNodes: nat
    const warmUps: nat
    var bootstrapped: bool

    /** The allocator is in order and knows all its nodes, and none of them hosts more than it can store. */
    ghost predicate Valid()
      reads allocator, allocator.nodeById.Values, allocator.loads
    {
      && allocator.Valid() && ByCapacity(allocator.nodes) && AllListed(allocator.nodes, allocator.nodeById)
      && Powered(allocator.nodes) && Fits(allocator.allocation, allocator.nodeById)
    }

    /** Some chain of allocated ranges covers all layers. */
    ghost predicate Full()
      reads allocator`allocation
    {
      FullPipeline(allocator.allocation, allocator.layers)
    }

    /** The flag is only set while a full pipeline exists. */
    ghost predicate Safe()
      reads `bootstrapped, allocator`allocation
    {
      bootstrapped ==> Full()
    }

    /** Every node can hold a layer next to an endpoint, and the bisection is fine enough. */
    ghost predicate Easy()
      reads allocator`nodes
    {
      Comfortable(allocator.nodes, allocator.iterations)
    }

    constructor (allocator: Allocator, minNodes: nat, warmUps: nat)
      requires allocator.Valid() && ByCapacity(allocator.nodes) && AllListed(allocator.nodes, allocator.nodeById)
      requires Powered(allocator.nodes) && Fits(allocator.allocation, allocator.nodeById)
      ensures Valid() && Safe() && !bootstrapped
      ensures this.allocator == allocator && this.minNodes == minNodes && this.warmUps == warmUps
    {
      this.allocator, this.minNodes, this.warmUps, bootstrapped := allocator, minNodes, warmUps, false;
    }

    /** Cuts nodes back to the cheapest route.  A full pipeline stays if that route never returns to a node it
        has left, and can only stay if every layer its nodes lose is hosted off the route. */
    method RunWarmupAndTruncate(measured: Measured) returns (ghost route: seq<nat>)
      requires Valid()
      modifies allocator, Members(allocator.nodes), allocator.loads
      ensures Valid() && allocator.nodes == old(allocator.nodes) && allocator.nodeById == old(allocator.nodeById)
      ensures allocator.allocation == Cropped(allocator.nodes, route, old(allocator.allocation))
      ensures old(Full()) && NeverReturns(route) ==> Full()
      ensures old(Full()) && Full() ==> LostAreHeld(allocator.nodes, route, old(allocator.allocation))
      ensures WarmedUp(allocator.nodes, measured, old(allocator.allocation), allocator.allocation, allocator.layers, route)
      ensures NoneActivated(Members(allocator.nodes))
    {
      hide Allocator.Valid, FullPipeline, NeverReturns, ByCapacity, BestRoute, EveryLayerHosted, Warmed, Fits, Shrunk, MeasuredBy,
           HeldOff, LostAreHeld, LostAt, Snapshot, CheapestFinite, Cropped;
      ListedAreKnown(allocator);
      var shards := BuildShards(allocator, measured);
      ghost var before := allocator.allocation;
      ghost var path, cost;
      var r;
      path, cost, r := RunWarmup(allocator, shards);
      FoundIsCheapest(shards, allocator.layers, path, cost);
      route := if cost.Fin? then path else [];
      NothingWarmed(shards, before, allocator.allocation, path, cost);
      ShortRouteLosesNothing(allocator.nodes, [], before);
      NobodyCropped(allocator.nodes, before);
      if route != [] {
        NodesAreDistinct(allocator);
        WarmedIsCropped(allocator.nodes, shards, before, allocator.allocation, route, cost);
        if Full() {
          HeldOffIsElsewhere(shards, allocator.nodes, path, before);
        }
      }
      ShrunkStillFit(before, allocator.allocation, allocator.nodeById);
    }

    /** What an allocation starts from. */
    ghost function From(clear: bool): Allocation
      reads allocator`allocation
    {
      if clear then map[] else allocator.allocation
    }

    /** The pipelines an allocation of the nodes settles on, if any. */
    ghost function Plan(): seq<seq<nat>>
      reads allocator`nodes
    {
      PlanFor(allocator.nodes, allocator.layers)
    }

    /** Each of them can take its layers. */
    ghost predicate Adjusts()
      reads allocator`nodes
    {
      AllAdjustable(allocator.nodes, Plan(), allocator.layers, allocator.iterations)
    }

    /** Carrying them out on top of the present ranges leaves a full pipeline. */
    ghost predicate Keeps()
      reads allocator`nodes, allocator`allocation
    {
      KeepsPipeline(allocator.nodes, Plan(), allocator.allocation, allocator.layers, allocator.iterations)
    }

    /** Clears the flag and every range if told to, then allocates globally. */
    method Rebuild(clear: bool) returns (r: Result<bool>)
      requires Valid()
      modifies `bootstrapped, allocator, Members(allocator.nodes), allocator.loads
      ensures Valid() && allocator.nodes == old(allocator.nodes) && allocator.nodeById == old(allocator.nodeById)
      ensures bootstrapped <==> old(bootstrapped) && !clear
      ensures Easy() ==> r.Ok?
      ensures Feasible(allocator.layers, allocator.nodes) <==> Plan() != []
      ensures Plan() != [] ==> BestPlan(allocator.nodes, Plan(), allocator.layers)
      ensures (r.Ok? <==> Adjusts()) && (r == Ok(false) <==> Plan() == [])
      ensures r == Ok(true) ==> Full()
      ensures r == Ok(true) ==>
                && Realizes(allocator.nodes, Plan(), old(From(clear)), allocator.allocation, allocator.layers, allocator.iterations)
                && CarriedOut(allocator, allocator.nodes, allocator.nodeById, Plan(), old(From(clear)), allocator.allocation)
      ensures r == Ok(false) ==> allocator.allocation == old(From(clear))
      ensures r.Raise? ==> exists p ::
                GivenUpAt(allocator.nodes, Plan(), old(From(clear)), allocator.allocation, allocator.layers, allocator.iterations, p)
      ensures !clear && Plan() != [] ==> (Full() <==> old(Keeps()))
      ensures NoneActivated(Members(allocator.nodes)) && (clear ==> HostsDeactivated(Members(allocator.nodes)))
    {
      hide Allocator.Valid, ByCapacity, AllListed, FullPipeline, Feasible, Comfortable, Fits, Realizes, CarriedOut, BestPlan, GivenUpAt,
           PlanFor, AllAdjustable, KeepsPipeline;
      NothingFits(allocator.nodeById);
      if clear {
        bootstrapped := false;
        DeallocateAll(allocator);
      }
      ListPowered(allocator.nodes);
      ghost var before := allocator.allocation;
      assert before == old(From(clear));
      r := GlobalAllocation.GlobalAllocation(allocator);
      if r.Raise? {
        ghost var p :|
          GivenUpAt(allocator.nodes, Plan(), before, allocator.allocation, allocator.layers, allocator.iterations, p);
        assert GivenUpAt(allocator.nodes, Plan(), old(From(clear)), allocator.allocation, allocator.layers, allocator.iterations, p);
      }
    }

    /** Whether bootstrapping gets as far as allocating. */
    predicate Attempts(clear: bool)
      reads allocator`nodes
    {
      clear || |allocator.nodes| >= minNodes
    }

    /** Whether an allocation that succeeds is followed by a warm-up. */
    predicate WarmsUp(skipWarmup: bool) {
      !skipWarmup && warmUps > 0
    }

    /** Rebuilds the allocation, from scratch when told to clear, and sets the flag if a full pipeline is left
        after warm-up.

        A flag that was safe stays safe when it is cleared or was not set.  Otherwise, if the rebuild raises or
        there is no warm-up, it stays safe exactly when the plan for the nodes keeps a full pipeline, which
        depends on the nodes and their ranges before the call only.  After a warm-up it is safe exactly when the
        ranges the rebuild left (`built`), cropped to the route, form one: so they do when the route never
        returns, and only then unless nodes off the route host layers that the route's nodes lose.
        BootstrapWitness has a run for each way to lose the pipeline. */
    method Bootstrap(clear: bool, skipWarmup: bool, measured: Measured)
      returns (r: Result<bool>, ghost route: seq<nat>, ghost built: Allocation)
      requires Valid()
      modifies `bootstrapped, allocator, Members(allocator.nodes), allocator.loads
      ensures Valid() && allocator.nodes == old(allocator.nodes) && allocator.nodeById == old(allocator.nodeById)
      ensures r == Ok(true) ==> bootstrapped && Full()
      ensures r != Ok(true) ==> (bootstrapped <==> old(bootstrapped) && !clear)
      // When the flag is safe.
      ensures old(Safe()) && (r.Raise? || !WarmsUp(skipWarmup)) ==>
                (Safe() <==> clear || !old(bootstrapped) || !Attempts(clear) || Plan() == [] || old(Keeps()))
      ensures old(Safe()) && r.Ok? && WarmsUp(skipWarmup) && Attempts(clear) && Plan() != [] ==>
                (Safe() <==> clear || !old(bootstrapped) || FullPipeline(Cropped(allocator.nodes, route, built), allocator.layers))
      ensures old(Safe()) && r.Ok? && WarmsUp(skipWarmup) && (clear || !old(bootstrapped) || NeverReturns(route)) ==> Safe()
      ensures old(Safe()) && r.Ok? && WarmsUp(skipWarmup) && LostAreGone(allocator.nodes, route, built) ==>
                (Safe() <==> clear || !old(bootstrapped) || NeverReturns(route))
      // When it succeeds, and what it leaves.
      ensures Easy() ==> r.Ok?
      ensures r.Ok? <==> !Attempts(clear) || old(Adjusts())
      ensures Attempts(clear) && Adjusts() && (WarmsUp(skipWarmup) ==> NeverReturns(route)) ==> (r == Ok(true) <==> Plan() != [])
      ensures !Attempts(clear) ==> r == Ok(false) && allocator.allocation == old(allocator.allocation)
      ensures Attempts(clear) ==> (Feasible(allocator.layers, allocator.nodes) <==> Plan() != [])
      ensures Attempts(clear) && Plan() != [] ==> BestPlan(allocator.nodes, Plan(), allocator.layers)
      ensures Attempts(clear) && Plan() == [] ==> r == Ok(false) && allocator.allocation == old(From(clear))
      ensures Attempts(clear) && Plan() != [] && r.Ok? ==>
                && Realizes(allocator.nodes, Plan(), old(From(clear)), built, allocator.layers, allocator.iterations)
                && CarriedOut(allocator, allocator.nodes, allocator.nodeById, Plan(), old(From(clear)), built)
                && (if WarmsUp(skipWarmup) then
                      WarmedUp(allocator.nodes, measured, built, allocator.allocation, allocator.layers, route)
                    else allocator.allocation == built)
      ensures r.Raise? ==> exists p ::
                GivenUpAt(allocator.nodes, Plan(), old(From(clear)), allocator.allocation, allocator.layers, allocator.iterations, p)
      // Who is active.
      ensures NoneActivated(Members(allocator.nodes)) && (clear ==> HostsDeactivated(Members(allocator.nodes)))
    {
      hide ClusterScheduler.Valid, FullPipeline, Feasible, Comfortable, NeverReturns, Realizes, CarriedOut, BestPlan, GivenUpAt, WarmedUp,
           PlanFor, AllAdjustable, KeepsPipeline, LostAreHeld, LostAreGone, Cropped;
      route, built := [], map[];
      ShortRouteLosesNothing(allocator.nodes, [], map[]);
      if !clear && |allocator.nodes| < minNodes {
        return Ok(false), [], map[];
      }
      r := Rebuild(clear);
      if r.Raise? || !r.value {
        return;
      }
      built := allocator.allocation;
      if !skipWarmup && warmUps > 0 {
        route := RunWarmupAndTruncate(measured);
        if Full() && LostAreGone(allocator.nodes, route, built) {
          GoneMeansReturning(allocator.nodes, route, built);
        }
      }
      var full := HasFullPipeline(allocator.allocation, allocator.layers);
      if !full {
        r := Ok(false);
        return;
      }
      bootstrapped := true;
      r := Ok(true);
    }

    /** A new node is made known; unless that is deferred to bootstrapping it gets layers right away.
        Ranges are only added, so pipelines stay. */
    method Join(node: Node, deferred: bool) returns (r: Result<()>)
      requires Valid() && node.id !in allocator.nodeById && node.range == None && node.power > 0.0
      modifies allocator, node, allocator.loads
      ensures Valid() && allocator.nodeById == old(allocator.nodeById)[node.id := node]
      ensures old(Full()) ==> Full()
      ensures old(Safe()) ==> Safe()
      ensures deferred || r.Raise? ==> allocator.allocation == old(allocator.allocation)
      ensures !deferred && r.Ok? ==>
                node.id in allocator.allocation
                && allocator.allocation == old(allocator.allocation)[node.id := allocator.allocation[node.id]]
      ensures !deferred && r.Ok? ==>
                && old(allocator.heap) != []
                && allocator.allocation[node.id].start == old(allocator.heap)[0].layerId
                && allocator.AsManyAsAllowed(node, allocator.allocation[node.id])
      ensures !deferred && r.Raise? ==> allocator.layers == 0 || DecoderCapacity(node.hardware, true, true) <= 0
    {
      hide FullPipeline, ByCapacity, Allocator.Valid, AllListed, Powered, Fits;
      UnknownHasNoRange(node.id);
      ghost var before, nodes, byId := allocator.allocation, allocator.nodes, allocator.nodeById;
      allocator.Declare(node);
      OneMoreListed(nodes, byId, node, allocator.nodes);
      KnownStillFit(before, byId, node.id, node);
      r := Ok(());
      if !deferred {
        ghost var declared := allocator.nodes;
        r := allocator.Join(node);
        assert allocator.nodeById == byId[node.id := node];
        SameListed(declared, allocator.nodes, allocator.nodeById);
      }
      if r.Ok? && !deferred {
        ghost var got := allocator.allocation[node.id];
        AddedFits(before, allocator.nodeById, node.id, got, got.start == 0, got.end == allocator.layers);
        JoiningKeepsPipelines(before, allocator.allocation, node.id, allocator.layers);
      }
    }

    lemma UnknownHasNoRange(id: NodeId)
      requires Valid() && id !in allocator.nodeById
      ensures id !in allocator.allocation
    {
      assert allocator.RangesOk();
    }

    /** Everything was cleared and allocated anew: the plan is in place and the flag set, or the flag is unset and
        nothing is allocated, for want of a plan, or what a raise left. */
    ghost predicate Rebuilt(r: Result<()>)
      reads this, allocator
    {
      && (r.Raise? <==> !Adjusts())
      && (r.Ok? && Plan() != [] ==>
            && bootstrapped && Realizes(allocator.nodes, Plan(), map[], allocator.allocation, allocator.layers, allocator.iterations)
            && CarriedOut(allocator, allocator.nodes, allocator.nodeById, Plan(), map[], allocator.allocation))
      && (Plan() == [] ==> r == Ok(()) && !bootstrapped && allocator.allocation == map[])
      && (r.Raise? ==> !bootstrapped && exists p ::
            GivenUpAt(allocator.nodes, Plan(), map[], allocator.allocation, allocator.layers, allocator.iterations, p))
    }

    /** Clears everything and allocates anew, without a warm-up. */
    method StartOver(measured: Measured) returns (r: Result<()>)
      requires Valid()
      modifies `bootstrapped, allocator, Members(allocator.nodes), allocator.loads
      ensures Valid() && allocator.nodes == old(allocator.nodes) && allocator.nodeById == old(allocator.nodeById)
      ensures Rebuilt(r) && (r.Raise? ==> !bootstrapped && !Adjusts() && !Easy()) && (bootstrapped ==> Full())
      ensures r.Ok? && Feasible(allocator.layers, allocator.nodes) ==> bootstrapped
      ensures NoneActivated(Members(allocator.nodes)) && HostsDeactivated(Members(allocator.nodes))
    {
      hide ClusterScheduler.Valid, FullPipeline, Feasible, Comfortable, NeverReturns, Realizes, CarriedOut, BestPlan, GivenUpAt, WarmedUp,
           PlanFor, AllAdjustable, KeepsPipeline, LostAreHeld, LostAreGone, Cropped, NoneActivated, HostsDeactivated;
      ghost var route, built;
      var ok;
      ok, route, built := Bootstrap(true, true, measured);
      r := if ok.Raise? then Raise(ok.error) else Ok(());
    }

    /** After a leave: while a full pipeline is left and the load is balanced nothing happens.  Without one a
        warm-up is tried, and if that leaves none either, or when the load is unbalanced, all starts over. */
    method Settle(unbalanced: bool, measured: Measured) returns (r: Result<()>, ghost route: seq<nat>)
      requires Valid()
      modifies `bootstrapped, allocator, Members(allocator.nodes), allocator.loads
      ensures Valid() && allocator.nodes == old(allocator.nodes) && allocator.nodeById == old(allocator.nodeById)
      ensures (old(Full()) && !unbalanced) || allocator.nodes == [] ==>
                r == Ok(()) && allocator.allocation == old(allocator.allocation) && bootstrapped == old(bootstrapped)
      ensures allocator.nodes != [] && unbalanced && old(Full()) ==> Rebuilt(r) && HostsDeactivated(Members(allocator.nodes))
      ensures allocator.nodes != [] && !old(Full()) ==>
                var cropped := Cropped(allocator.nodes, route, old(allocator.allocation));
                && WarmedUp(allocator.nodes, measured, old(allocator.allocation), cropped, allocator.layers, route)
                && if FullPipeline(cropped, allocator.layers) then
                     r == Ok(()) && allocator.allocation == cropped && bootstrapped == old(bootstrapped)
                   else Rebuilt(r) && HostsDeactivated(Members(allocator.nodes))
      ensures NoneActivated(Members(allocator.nodes))
      ensures r.Raise? ==> !bootstrapped && !Adjusts() && !Easy()
      ensures bootstrapped && allocator.nodes != [] ==> Full()
      ensures r.Ok? && old(bootstrapped) && Feasible(allocator.layers, allocator.nodes) ==> bootstrapped
    {
      hide ClusterScheduler.Valid, FullPipeline, Feasible, Comfortable, NeverReturns, WarmedUp, Realizes, CarriedOut, BestPlan, GivenUpAt, PlanFor,
           AllAdjustable, KeepsPipeline, LostAreHeld, LostAreGone, Cropped, ClusterScheduler.Rebuilt;
      r, route := Ok(()), [];
      HostsAreAllocated(this);
      var full := HasFullPipeline(allocator.allocation, allocator.layers);
      // With no node left, all of them count as manually assigned, and nothing is rebuilt.
      if (full && !unbalanced) || |allocator.nodes| == 0 {
        return;
      }
      if !full {
        ghost var before := allocator.allocation;
        route := RunWarmupAndTruncate(measured);
        SameIdsCropped(allocator.nodes, route, before);
        full := HasFullPipeline(allocator.allocation, allocator.layers);
        if full {
          return;
        }
      }
      HostsAreAllocated(this);
      r := StartOver(measured);
    }

    /** A node leaves, and the others are settled.  An exception of that is passed on, with the flag unset.  With
        nodes left the flag stays safe, and without an exception it is kept while a pipeline can be built. */
    method Leave(id: NodeId, unbalanced: bool, measured: Measured) returns (r: Result<()>, ghost route: seq<nat>)
      requires Valid()
      modifies `bootstrapped, allocator, Members(allocator.nodes), allocator.loads
      ensures Valid() && allocator.nodeById == old(allocator.nodeById) - {id}
      ensures id !in old(allocator.nodeById) ==>
                r == Raise(UnknownNode) && allocator.allocation == old(allocator.allocation) && bootstrapped == old(bootstrapped)
      ensures id in old(allocator.nodeById) && r.Raise? ==> !bootstrapped && !Adjusts() && !Easy()
      ensures id in old(allocator.nodeById)
              && (allocator.nodes == [] || (FullPipeline(old(allocator.allocation) - {id}, allocator.layers) && !unbalanced)) ==>
                r == Ok(()) && allocator.allocation == old(allocator.allocation) - {id} && bootstrapped == old(bootstrapped)
      ensures id in old(allocator.nodeById) && allocator.nodes != [] && unbalanced
              && FullPipeline(old(allocator.allocation) - {id}, allocator.layers) ==>
                Rebuilt(r) && HostsDeactivated(Members(allocator.nodes))
      ensures id in old(allocator.nodeById) && allocator.nodes != []
              && !FullPipeline(old(allocator.allocation) - {id}, allocator.layers) ==>
                var cropped := Cropped(allocator.nodes, route, old(allocator.allocation) - {id});
                && WarmedUp(allocator.nodes, measured, old(allocator.allocation) - {id}, cropped, allocator.layers, route)
                && if FullPipeline(cropped, allocator.layers) then
                     r == Ok(()) && allocator.allocation == cropped && bootstrapped == old(bootstrapped)
                   else Rebuilt(r) && HostsDeactivated(Members(allocator.nodes))
      ensures old(Safe()) && allocator.nodes != [] ==> Safe()
      ensures allocator.nodes == [] ==> bootstrapped == old(bootstrapped)
      ensures r.Ok? && old(bootstrapped) && allocator.nodes != [] && Feasible(allocator.layers, allocator.nodes) ==>
                bootstrapped && Full()
    {
      hide FullPipeline, ByCapacity, Feasible, Comfortable, Allocator.Valid, Fits, WarmedUp, PlanFor, AllAdjustable, Cropped,
           ClusterScheduler.Rebuilt;
      if id !in allocator.nodeById {
        UnknownHasNoRange(id);
        assert allocator.nodeById - {id} == allocator.nodeById && allocator.allocation - {id} == allocator.allocation;
        return Raise(UnknownNode), [];
      }
      RemovedStillListed(allocator, id);
      KnownStillFit(allocator.allocation, allocator.nodeById, id, allocator.nodeById[id]);
      r := allocator.Leave(id);
      r, route := Settle(unbalanced, measured);
    }
  }

  /** A listed node has a range exactly if one is recorded for it. */
  lemma HostsAreAllocated(s: ClusterScheduler)
    requires s.Valid()
    ensures forall n :: n in Members(s.allocator.nodes) ==> (n.range.Some? <==> n.id in s.allocator.allocation)
  {
    hide FullPipeline;
    forall n | n in Members(s.allocator.nodes) ensures n.range.Some? <==> n.id in s.allocator.allocation {
      ListedNode(s.allocator, n);
    }
  }

  lemma SameIdsCropped(nodes: seq<Node>, route: seq<nat>, alloc: Allocation)
    ensures Cropped(nodes, route, alloc).Keys == alloc.Keys
  {
  }

  lemma NothingFits(nodes: map<NodeId, Node>)
    ensures Fits(map[], nodes)
  {
  }

  lemma RemovedStillListed(a: Allocator, id: NodeId)
    requires a.Valid() && AllListed(a.nodes, a.nodeById) && id in a.nodeById
    ensures a.nodeById[id] in Members(a.nodes)
    ensures AllListedWithout(a.nodes, a.nodeById, id)
  {
    assert a.NodesOk();
  }

  /** The other nodes are on the list, and are other nodes. */
  ghost predicate AllListedWithout(nodes: seq<Node>, byId: map<NodeId, Node>, id: NodeId)
    requires id in byId
  {
    forall x :: x in byId - {id} ==> byId[x] in Members(nodes) - {byId[id]}
  }
}
