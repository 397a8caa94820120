/** Two runs that lose the full pipeline while the bootstrap flag stays set.

    In the first, five spacious nodes are bootstrapped, and a node without room next to an endpoint joins.  The
    best plan then begins with that node, so that a second bootstrap raises half-way, after it has taken the
    ranges of three others away.  In the second, every node has room: a wide node hosts all layers, and two
    small ones the first two layers once more.  Warm-up then follows a route that returns to the wide node,
    and leaves nobody with the last layer. */
module BootstrapWitness {
  import opened Ordering
  import opened Outcomes
  import opened PipelineSearch
  import opened PipelinePlans
  import opened PipelineCount
  import opened ClusterNode
  import opened LayerIndex
  import opened LayerAllocator
  import opened Latency
  import opened ShardRouting
  import opened TurningPoints
  import opened WarmUp
  import opened WaterFilling
  import PipelineAdjust
  import opened GlobalAllocation
  import opened ClusterBootstrap

  // ----- lists of nodes and what the index says of them -----

  lemma {:induction false} ManyIds(nodes: seq<Node>)
    requires DistinctIds(nodes)
    ensures |PipelineAdjust.Ids(nodes)| == |nodes|
  {
    if nodes != [] {
      ManyIds(nodes[1..]);
      var rest := PipelineAdjust.Ids(nodes[1..]);
      assert nodes == [nodes[0]] + nodes[1..];
      assert PipelineAdjust.Ids(nodes) == {nodes[0].id} + rest;
      assert forall n :: n in nodes[1..] ==> n.id != nodes[0].id;
    }
  }

  /** The list holds exactly the indexed nodes, each once. */
  lemma ListedOnce(nodes: seq<Node>, byId: map<NodeId, Node>)
    requires NodesMatch(nodes, byId) && AllListed(nodes, byId)
    ensures |nodes| == |byId.Keys| && Members(nodes) == byId.Values
  {
    ManyIds(nodes);
    var ids := PipelineAdjust.Ids(nodes);
    forall id ensures id in ids <==> id in byId.Keys {
      if id in ids {
        var n :| n in nodes && n.id == id;
      }
      if id in byId {
        assert byId[id] in Members(nodes);
      }
    }
    assert ids == byId.Keys;
    forall n | n in byId.Values ensures n in Members(nodes) {
      var id :| id in byId && byId[id] == n;
    }
    forall n | n in Members(nodes) ensures n in byId.Values {
      var i :| 0 <= i < |nodes| && nodes[i] == n;
    }
  }

  lemma OneMoreKey(byId: map<NodeId, Node>, id: NodeId, node: Node)
    requires id !in byId
    ensures |byId[id := node].Keys| == |byId.Keys| + 1
  {
    assert byId[id := node].Keys == byId.Keys + {id};
  }

  /** Joins a new node. */
  method Add(s: ClusterScheduler, id: NodeId, hardware: Hardware, kvMemory: real, deferred: bool)
    returns (node: Node, r: Result<()>)
    requires s.Valid() && id !in s.allocator.nodeById
    modifies s.allocator, s.allocator.loads
    ensures s.Valid() && fresh(node) && s.allocator.nodeById == old(s.allocator.nodeById)[id := node]
    ensures node.id == id && node.hardware == hardware && node.power == 1.0 && node.kvMemory == kvMemory
    ensures deferred || r.Raise? ==> s.allocator.allocation == old(s.allocator.allocation)
    ensures !deferred && r.Ok? ==>
              && id in s.allocator.allocation
              && s.allocator.allocation == old(s.allocator.allocation)[id := s.allocator.allocation[id]]
              && old(s.allocator.heap) != [] && s.allocator.allocation[id].start == old(s.allocator.heap)[0].layerId
              && s.allocator.AsManyAsAllowed(node, s.allocator.allocation[id])
    ensures !deferred && r.Raise? ==> s.allocator.layers == 0 || DecoderCapacity(hardware, true, true) <= 0
  {
    node := new Node(id, hardware, 1.0, kvMemory);
    r := s.Join(node, deferred);
  }

  // ----- a bootstrap that raises -----

  /** Holds three layers, or one next to an endpoint. */
  function Spacious(): Hardware { Memory(30, 20, 10.0, false) }

  /** Holds four layers, and none next to an endpoint. */
  function Tight(): Hardware { Memory(20, 20, 5.0, false) }

  lemma Capacities(n: Node)
    ensures n.hardware == Spacious() ==> n.Caps() == Caps(3, 1)
    ensures n.hardware == Tight() ==> n.Caps() == Caps(4, 0)
  {
  }

  /** Five spacious nodes, and perhaps a tight one before them. */
  ghost predicate Fleet5(fleet: seq<Caps>, tight: bool) {
    && |fleet| == (if tight then 6 else 5) && (tight ==> fleet[0] == Caps(4, 0))
    && forall i :: (if tight then 1 else 0) <= i < |fleet| ==> fleet[i] == Caps(3, 1)
  }

  lemma {:induction false} SpaciousResidual(s: Search, p: seq<nat>)
    requires s.layers == 7 && 0 < |p| <= 5 && Within(s, p) && forall q :: 0 <= q < |p| ==> s.fleet[p[q]] == Caps(3, 1)
    ensures Residual(s, p) == [6, 3, 2, 1, 0][|p| - 1]
  {
    if |p| > 1 {
      SpaciousResidual(s, p[..|p| - 1]);
    }
  }

  lemma {:induction false} TightResidual(s: Search, p: seq<nat>)
    requires s.layers == 7 && 0 < |p| <= 4 && Within(s, p) && s.fleet[p[0]] == Caps(4, 0)
    requires forall q :: 0 < q < |p| ==> s.fleet[p[q]] == Caps(3, 1)
    ensures Residual(s, p) == [7, 4, 1, 0][|p| - 1]
  {
    if |p| > 1 {
      TightResidual(s, p[..|p| - 1]);
    }
  }

  /** The layers still missing after a few nodes, with the tight node first or without it. */
  lemma ResidualOfFirst(s: Search, p: seq<nat>, tight: bool)
    requires s.layers == 7 && Fleet5(s.fleet, tight) && p != [] && Within(s, p) && Increasing(p)
    requires |p| <= if tight && p[0] == 0 then 4 else 5
    ensures Residual(s, p) == (if tight && p[0] == 0 then [7, 4, 1, 0] else [6, 3, 2, 1, 0])[|p| - 1]
  {
    hide Residual;
    assert forall q :: 0 < q < |p| ==> p[0] < p[q];
    if tight && p[0] == 0 {
      TightResidual(s, p);
    } else {
      SpaciousResidual(s, p);
    }
  }

  /** With the tight node first four nodes close a pipeline, without it five. */
  lemma ClosingLength(s: Search, p: seq<nat>, tight: bool)
    requires s.layers == 7 && Fleet5(s.fleet, tight) && Closes(s, p)
    ensures |p| == if tight && p[0] == 0 then 4 else 5
  {
    hide Residual, Fleet5;
    var n := if tight && p[0] == 0 then 4 else 5;
    var prefix := if |p| < n then p else p[..n];
    assert forall q :: 0 <= q < |prefix| ==> prefix[q] == p[q];
    ResidualOfFirst(s, prefix, tight);
    assert p[..|p|] == p;
  }

  /** The spacious nodes alone make one pipeline. */
  lemma SpaciousPlan(s: Search)
    requires s.layers == 7 && s.target == 1 && Fleet5(s.fleet, false)
    ensures IsPlan(s, [[0, 1, 2, 3, 4]])
  {
    var p: seq<nat> := [0, 1, 2, 3, 4];
    SpaciousResidual(s, p);
    forall m | 0 < m < |p| ensures Residual(s, p[..m]) > 0 {
      SpaciousResidual(s, p[..m]);
    }
    OneIsAPlan(s, p);
  }

  /** The tight node and three spacious ones make one, too. */
  lemma TightPlan(s: Search)
    requires s.layers == 7 && s.target == 1 && Fleet5(s.fleet, true)
    ensures IsPlan(s, [[0, 1, 2, 3]]) && Stages([[0, 1, 2, 3]]) == 4
  {
    var p: seq<nat> := [0, 1, 2, 3];
    TightResidual(s, p);
    forall m | 0 < m < |p| ensures Residual(s, p[..m]) > 0 {
      TightResidual(s, p[..m]);
    }
    OneIsAPlan(s, p);
    assert [p][1..] == [];
  }

  lemma OneIsAPlan(s: Search, p: seq<nat>)
    requires s.target == 1 && Closes(s, p)
    ensures IsPlan(s, [p])
  {
    assert [p][1..] == [];
    assert Uses([p]) == multiset(p);
    forall x: nat ensures Uses([p])[x] <= 1 {
      EachOnce(p, x);
    }
  }

  /** With the tight node in the fleet, every best plan is one pipeline of that node and three others. */
  lemma BestIsTight(nodes: seq<Node>, plan: seq<seq<nat>>)
    requires Fleet5(Fleet(nodes), true) && BestPlan(nodes, plan, 7)
    ensures |plan| == 1 && |plan[0]| == 4 && plan[0][0] == 0 && Increasing(plan[0]) && Within(Search(7, Fleet(nodes), 1), plan[0])
  {
    var s := Search(7, Fleet(nodes), |plan|);
    TightPlan(Search(7, Fleet(nodes), 1));
    assert Builds(7, Fleet(nodes), 1, [[0, 1, 2, 3]]);
    forall p | 0 <= p < |plan| ensures Closes(s, plan[p]) && |plan[p]| == if plan[p][0] == 0 then 4 else 5 {
      ClosingLength(s, plan[p], true);
    }
    if |plan| >= 2 {
      BothWouldShare(plan[0], plan[1]);
      var x :| x in plan[0] && x in plan[1];
      UsedByTwo(plan, 0, 1, x);
      assert false;
    }
    assert plan == [plan[0]] && Stages(plan) == |plan[0]| by { assert plan[1..] == []; }
    assert 1 * 1 * Stages(plan) <= 1 * 1 * 4;
  }

  /** Two such pipelines among six nodes have a node in common. */
  lemma BothWouldShare(p: seq<nat>, q: seq<nat>)
    requires p != [] && Increasing(p) && |p| == (if p[0] == 0 then 4 else 5) && forall i :: 0 <= i < |p| ==> p[i] < 6
    requires q != [] && Increasing(q) && |q| == (if q[0] == 0 then 4 else 5) && forall i :: 0 <= i < |q| ==> q[i] < 6
    ensures exists x :: x in p && x in q
  {
    if p[0] == 0 {
      if q[0] == 0 {
        assert 0 in p && 0 in q;
      } else {
        FiveAreAll(q);
        assert p[1] in p && p[1] in q;
      }
    } else {
      FiveAreAll(p);
      assert q[1] in q && q[1] in p;
    }
  }

  lemma FiveAreAll(p: seq<nat>)
    requires Increasing(p) && |p| == 5 && p[0] > 0 && p[4] < 6
    ensures forall x: nat :: 0 < x < 6 ==> x in p
  {
    assert p[0] < p[1] < p[2] < p[3] < p[4];
    assert p == [1, 2, 3, 4, 5];
  }

  /** Five spacious nodes after one more, and none of those on `p` has a range. */
  ghost predicate OthersOnly(nodes: seq<Node>, alloc: Allocation, p: seq<nat>) {
    && |nodes| == 6 && (forall i :: 0 < i < 6 ==> nodes[i].Capacity() <= 3) && |p| == 4 && p[0] == 0 < p[1] < p[2] < p[3] < 6
    && forall q :: 0 <= q < 4 ==> nodes[p[q]].id !in alloc
  }

  /** Two nodes of three layers each do not cover seven. */
  lemma TooFewLeft(nodes: seq<Node>, byId: map<NodeId, Node>, alloc: Allocation, p: seq<nat>)
    requires OthersOnly(nodes, alloc, p) && NodesMatch(nodes, byId) && AllListed(nodes, byId) && Fits(alloc, byId)
    ensures !FullPipeline(alloc, 7)
  {
    hide NodesMatch, AllListed, Fits, Chain, OthersOnly;
    if FullPipeline(alloc, 7) {
      var path: seq<Range> :| path != [] && ChainIn(alloc.Values, path, 0, 7);
      ChainGoesOn(path, 0, 7);
      var a := OtherHost(nodes, byId, alloc, p, path[0]);
      var x, y, z := p[1], p[2], p[3];
      ChainGoesOn(path[1..], path[0].end, 7);
      var b := OtherHost(nodes, byId, alloc, p, path[1]);
      ChainGoesOn(path[2..], path[1].end, 7);
      var c := OtherHost(nodes, byId, alloc, p, path[2]);
      NoThreeLeft(x, y, z, a, b, c);
    }
  }

  lemma OtherHost(nodes: seq<Node>, byId: map<NodeId, Node>, alloc: Allocation, p: seq<nat>, r: Range) returns (i: nat)
    requires OthersOnly(nodes, alloc, p) && NodesMatch(nodes, byId) && AllListed(nodes, byId) && Fits(alloc, byId)
    requires r in alloc.Values
    ensures |p| == 4 && 0 < p[1] < p[2] < p[3] < 6 && 0 < i < 6 && i !in {p[1], p[2], p[3]}
    ensures |nodes| == 6 && nodes[i].id in alloc && alloc[nodes[i].id] == r && r.end - r.start <= 3
  {
    i := HostOf(nodes, byId, alloc, r);
  }

  lemma ChainGoesOn(path: seq<Range>, from: int, to: int)
    requires Chain(path, from, to) && from < to
    ensures path != [] && path[0].start == from < path[0].end && Chain(path[1..], path[0].end, to)
    ensures path[0].end < to ==> |path| > 1 && Chain(path[1..], path[0].end, to)
    ensures |path| > 1 ==> path[1..][0] == path[1] && path[1..][1..] == path[2..]
  {
  }

  lemma NoThreeLeft(x: int, y: int, z: int, a: int, b: int, c: int)
    requires 0 < x < y < z < 6 && 0 < a < 6 && 0 < b < 6 && 0 < c < 6
    requires {x, y, z} !! {a, b, c}
    ensures a == b || a == c || b == c
  {
    assert a !in {x, y, z} && b !in {x, y, z} && c !in {x, y, z};
  }

  /** Whose range it is. */
  lemma HostOf(nodes: seq<Node>, byId: map<NodeId, Node>, alloc: Allocation, r: Range) returns (i: nat)
    requires NodesMatch(nodes, byId) && AllListed(nodes, byId) && Fits(alloc, byId) && r in alloc.Values
    ensures i < |nodes| && nodes[i].id in alloc && alloc[nodes[i].id] == r && r.end - r.start <= nodes[i].Capacity()
  {
    var id :| id in alloc && alloc[id] == r;
    assert byId[id] in Members(nodes);
    i :| 0 <= i < |nodes| && nodes[i] == byId[id];
  }

  /** The spacious nodes, indexed under distinct ids. */
  ghost predicate SpaciousOnly(byId: map<NodeId, Node>, n: nat) {
    && |byId.Keys| == n
    && forall id :: id in byId ==> id != [] && id[0] == 'r' && |id| <= n && byId[id].hardware == Spacious() && byId[id].power == 1.0
  }

  lemma AnotherSpacious(byId: map<NodeId, Node>, n: nat, id: NodeId, node: Node)
    requires SpaciousOnly(byId, n) && |id| == n + 1 && id[0] == 'r' && node.hardware == Spacious() && node.power == 1.0
    ensures id !in byId && SpaciousOnly(byId[id := node], n + 1)
  {
    OneMoreKey(byId, id, node);
  }

  lemma SpaciousList(nodes: seq<Node>, byId: map<NodeId, Node>)
    requires NodesMatch(nodes, byId) && AllListed(nodes, byId) && SpaciousOnly(byId, 5)
    ensures |nodes| == 5 && forall i :: 0 <= i < 5 ==> nodes[i].Caps() == Caps(3, 1) && nodes[i].power == 1.0
  {
    ListedOnce(nodes, byId);
    forall i | 0 <= i < |nodes| ensures nodes[i].Caps() == Caps(3, 1) && nodes[i].power == 1.0 {
      Capacities(nodes[i]);
    }
  }

  lemma SpaciousIsFeasible(nodes: seq<Node>, iterations: nat)
    requires |nodes| == 5 && forall i :: 0 <= i < 5 ==> nodes[i].Caps() == Caps(3, 1) && nodes[i].power == 1.0
    requires iterations >= 4
    ensures Feasible(7, nodes) && Comfortable(nodes, iterations)
  {
    hide SumReal, Pow2, IsPlan;
    SpaciousPlan(Search(7, Fleet(nodes), 1));
    assert Builds(7, Fleet(nodes), 1, [[0, 1, 2, 3, 4]]);
    EvenPowers(PipelineAdjust.Powers(nodes));
    SixteenAndMore(iterations);
  }

  lemma {:induction false} EvenPowers(xs: seq<real>)
    requires forall i :: 0 <= i < |xs| ==> xs[i] == 1.0
    ensures SumReal(xs) == |xs| as real
  {
    if xs != [] {
      EvenPowers(xs[1..]);
    }
  }

  lemma {:induction false} SixteenAndMore(n: nat)
    requires n >= 4
    ensures Pow2(n) >= 16.0
  {
    if n > 4 {
      SixteenAndMore(n - 1);
    } else {
      assert Pow2(4) == 2.0 * Pow2(3) && Pow2(3) == 2.0 * Pow2(2) && Pow2(2) == 2.0 * Pow2(1);
    }
  }

  /** With the tight node among them, it comes first. */
  lemma TightList(nodes: seq<Node>, byId: map<NodeId, Node>, id: NodeId, node: Node)
    requires SpaciousOnly(byId, 5) && id !in byId && node.hardware == Tight()
    requires NodesMatch(nodes, byId[id := node]) && AllListed(nodes, byId[id := node]) && ByCapacity(nodes)
    ensures Fleet5(Fleet(nodes), true) && |nodes| == 6 && forall i :: 0 < i < 6 ==> nodes[i].Capacity() <= 3
  {
    ListedOnce(nodes, byId[id := node]);
    OneMoreKey(byId, id, node);
    forall i | 0 <= i < 6 ensures nodes[i].Caps() == if nodes[i].id == id then Caps(4, 0) else Caps(3, 1) {
      Capacities(nodes[i]);
    }
    assert byId[id := node][id] in Members(nodes);
    var k :| 0 <= k < 6 && nodes[k] == node;
    assert nodes[0].Capacity() >= nodes[k].Capacity() == 4;
  }

  /** The tight node makes the best plan impossible to carry out. */
  lemma TightCannotServe(nodes: seq<Node>, plan: seq<seq<nat>>, before: Allocation, alloc: Allocation)
    requires Fleet5(Fleet(nodes), true)
    ensures forall iterations :: !Realizes(nodes, plan, before, alloc, 7, iterations)
  {
    if BestPlan(nodes, plan, 7) {
      BestIsTight(nodes, plan);
      var line := PipelineNodes(nodes, plan[0]);
      assert PipelineAdjust.StageCap(line, 0) == Fleet(nodes)[0].endpoint;
      NoRoomNoService(line, alloc, 7);
    }
  }

  lemma NoRoomNoService(line: seq<Node>, alloc: Allocation, layers: nat)
    requires line != [] && PipelineAdjust.StageCap(line, 0) <= 0
    ensures forall iterations :: !PipelineAdjust.Serves(line, alloc, layers, iterations)
  {
  }

  /** Giving that plan up leaves two spacious nodes with a range, at most. */
  lemma GivingUpLosesThePipeline(nodes: seq<Node>, byId: map<NodeId, Node>, plan: seq<seq<nat>>, p: nat, before: Allocation,
                                 alloc: Allocation, iterations: nat)
    requires Fleet5(Fleet(nodes), true) && |nodes| == 6 && (forall i :: 0 < i < 6 ==> nodes[i].Capacity() <= 3)
    requires NodesMatch(nodes, byId) && AllListed(nodes, byId) && Fits(alloc, byId)
    requires BestPlan(nodes, plan, 7) && GivenUpAt(nodes, plan, before, alloc, 7, iterations, p)
    ensures !FullPipeline(alloc, 7)
  {
    BestIsTight(nodes, plan);
    assert p == 0;
    assert OthersOnly(nodes, alloc, plan[0]);
    TooFewLeft(nodes, byId, alloc, plan[0]);
  }

  /** Five spacious nodes are bootstrapped. */
  method SpaciousCluster(measured: Measured) returns (s: ClusterScheduler)
    ensures fresh(s) && fresh(s.allocator) && fresh(s.allocator.loads)
    ensures forall id :: id in s.allocator.nodeById ==> fresh(s.allocator.nodeById[id])
    ensures s.Valid() && s.bootstrapped && s.allocator.layers == 7 && s.minNodes == 5 && s.allocator.iterations == 40
    ensures SpaciousOnly(s.allocator.nodeById, 5) && |s.allocator.nodes| == 5
  {
    hide ClusterScheduler.Valid, Allocator.Valid, FullPipeline, SpaciousOnly, Realizes, CarriedOut, BestPlan, GivenUpAt, PlanFor, Feasible, Comfortable;
    s := EmptyCluster(7, 5, 0);
    var a := s.allocator;
    NoneYet();
    for i := 0 to 5
      invariant fresh(s) && fresh(a) && fresh(a.loads) && s.allocator == a && s.Valid() && !s.bootstrapped
      invariant SpaciousOnly(a.nodeById, i) && forall id :: id in a.nodeById ==> fresh(a.nodeById[id])
    {
      var id := seq(i + 1, _ => 'r');
      ghost var byId := a.nodeById;
      NotThere(byId, i, id);
      var node, joined := Add(s, id, Spacious(), 1.0, true);
      AnotherSpacious(byId, i, id, node);
    }
    Facts(s);
    SpaciousList(a.nodes, a.nodeById);
    SpaciousIsFeasible(a.nodes, a.iterations);
    ghost var route, built;
    var r;
    r, route, built := s.Bootstrap(false, true, measured);
  }

  /** What a valid scheduler says of its lists. */
  lemma Facts(s: ClusterScheduler)
    requires s.Valid()
    ensures var a := s.allocator;
            && NodesMatch(a.nodes, a.nodeById) && AllListed(a.nodes, a.nodeById) && ByCapacity(a.nodes)
            && Fits(a.allocation, a.nodeById) && Members(a.nodes) == a.nodeById.Values && a.allocation.Keys <= a.nodeById.Keys
  {
    ListedOnce(s.allocator.nodes, s.allocator.nodeById);
  }

  method EmptyCluster(layers: nat, minNodes: nat, warmUps: nat) returns (s: ClusterScheduler)
    ensures fresh(s) && fresh(s.allocator) && fresh(s.allocator.loads) && s.Valid() && !s.bootstrapped
    ensures s.allocator.nodeById == map[] && s.allocator.allocation == map[] && s.allocator.layers == layers
    ensures s.allocator.iterations == 40 && s.minNodes == minNodes && s.warmUps == warmUps
  {
    hide Allocator.Valid;
    var a := new Allocator(layers, [], 40);
    assert ById([]) == map[];
    s := new ClusterScheduler(a, minNodes, warmUps);
  }

  lemma NotThere(byId: map<NodeId, Node>, n: nat, id: NodeId)
    requires SpaciousOnly(byId, n)
    ensures |id| > n ==> id !in byId
    ensures id != [] && id[0] != 'r' ==> id !in byId
  {
  }

  /** Five spacious nodes are bootstrapped.  A tight one joins, and bootstrapping again without clearing, and with
      no warm-up, raises: the flag is still set, but the full pipeline is gone. */
  method RaisingBootstrap(measured: Measured) returns (s: ClusterScheduler, r: Result<bool>)
    ensures fresh(s) && s.Valid() && s.allocator.layers == 7
    ensures r.Raise? && s.bootstrapped && !s.Full()
  {
    hide ClusterScheduler.Valid, Allocator.Valid, FullPipeline, SpaciousOnly, Realizes, CarriedOut, BestPlan, GivenUpAt, PlanFor, Feasible, Comfortable,
         Fleet5;
    s := SpaciousCluster(measured);
    var a := s.allocator;
    ghost var byId := a.nodeById;
    NotThere(byId, 5, "tight");
    var node, joined := Add(s, "tight", Tight(), 1.0, true);
    Facts(s);
    TightList(a.nodes, byId, "tight", node);
    TightIsFeasible(a.nodes);
    ghost var route, built;
    ghost var before := a.allocation;
    r, route, built := s.Bootstrap(false, true, measured);
    TightCannotServe(a.nodes, s.Plan(), before, built);
    assert r.Raise?;
    ghost var p :| GivenUpAt(a.nodes, s.Plan(), before, a.allocation, 7, a.iterations, p);
    Facts(s);
    GivingUpLosesThePipeline(a.nodes, a.nodeById, s.Plan(), p, before, a.allocation, a.iterations);
  }

  lemma TightIsFeasible(nodes: seq<Node>)
    requires Fleet5(Fleet(nodes), true)
    ensures Feasible(7, nodes)
  {
    TightPlan(Search(7, Fleet(nodes), 1));
    assert Builds(7, Fleet(nodes), 1, [[0, 1, 2, 3]]);
  }

  lemma NoneYet()
    ensures SpaciousOnly(map[], 0)
  {
  }

  // ----- a warm-up that returns -----

  /** Holds six layers, five next to an endpoint or to both. */
  function Wide(): Hardware { Memory(60, 4, 10.0, false) }

  /** Holds one layer, even next to both endpoints. */
  function Small(): Hardware { Memory(19, 4, 10.0, false) }

  lemma WideAndSmall(n: Node)
    ensures n.hardware == Wide() ==> n.Caps() == Caps(6, 5) && DecoderCapacity(n.hardware, true, true) == 5
    ensures n.hardware == Small() ==> n.Caps() == Caps(1, 1) && DecoderCapacity(n.hardware, true, true) == 1
    ensures n.hardware == Small() ==> DecoderCapacity(n.hardware, false, true) == 1
  {
  }

  /** A wide node first, then small ones. */
  ghost predicate WideFirst(fleet: seq<Caps>) {
    fleet != [] && |fleet| <= 3 && fleet[0] == Caps(6, 5) && forall i :: 0 < i < |fleet| ==> fleet[i] == Caps(1, 1)
  }

  lemma WideAlone(s: Search)
    requires s.layers == 3 && s.target == 1 && WideFirst(s.fleet)
    ensures IsPlan(s, [[0]]) && Stages([[0]]) == 1
  {
    OneIsAPlan(s, [0]);
    assert [[0]][1..] == [];
  }

  lemma {:induction false} AtLeastIndex(p: seq<nat>, q: nat)
    requires Increasing(p) && q < |p|
    ensures p[q] >= p[0] + q
  {
    if q > 0 {
      AtLeastIndex(p, q - 1);
    }
  }

  lemma SmallNeverClose(s: Search, p: seq<nat>)
    requires s.layers == 3 && WideFirst(s.fleet) && p != [] && Within(s, p) && Increasing(p) && p[0] > 0
    ensures |p| <= 2 && Residual(s, p) > 0
  {
    AtLeastIndex(p, |p| - 1);
    assert |p| == 2 ==> p[..1] == [p[0]];
  }

  /** Only the wide node can close a pipeline, and by itself. */
  lemma WideCloses(s: Search, p: seq<nat>)
    requires s.layers == 3 && WideFirst(s.fleet) && Closes(s, p)
    ensures p == [0]
  {
    assert p[..1] == [p[0]];
    if p[0] != 0 {
      SmallNeverClose(s, p);
    }
  }

  lemma BestIsWide(nodes: seq<Node>, plan: seq<seq<nat>>)
    requires WideFirst(Fleet(nodes)) && BestPlan(nodes, plan, 3)
    ensures plan == [[0]]
  {
    var s := Search(3, Fleet(nodes), |plan|);
    forall p | 0 <= p < |plan| ensures plan[p] == [0] {
      assert Closes(s, plan[p]);
      WideCloses(s, plan[p]);
    }
    if |plan| >= 2 {
      UsedByTwo(plan, 0, 1, 0);
      assert false;
    }
  }

  /** The wide node then serves all three layers. */
  lemma WideServes(nodes: seq<Node>, plan: seq<seq<nat>>, before: Allocation, alloc: Allocation, iterations: nat)
    requires WideFirst(Fleet(nodes)) && Realizes(nodes, plan, before, alloc, 3, iterations)
    ensures nodes[0].id in alloc && alloc[nodes[0].id] == Range(0, 3)
    ensures forall id :: id in before && id != nodes[0].id ==> id in alloc && alloc[id] == before[id]
  {
    BestIsWide(nodes, plan);
    var line := PipelineNodes(nodes, plan[0]);
    assert PipelineAdjust.Serves(line, alloc, 3, iterations);
    var stages :| PipelineAdjust.Splits(stages, 3) && PipelineAdjust.Placed(line, stages, alloc) && PipelineAdjust.WithinCaps(line, stages);
    assert stages == [stages[0]] && stages[..0] == [] && stages[1..] == [];
    assert PipelineAdjust.PlacedAt(line, stages, alloc, 0);
    forall id | id in PlanIds(nodes, plan, 1) ensures id == nodes[0].id {
    }
  }

  lemma WideIsComfortable(nodes: seq<Node>, iterations: nat)
    requires WideFirst(Fleet(nodes)) && (forall i :: 0 <= i < |nodes| ==> nodes[i].power == 1.0) && iterations >= 5
    ensures Feasible(3, nodes) && Comfortable(nodes, iterations)
  {
    hide SumReal, Pow2, IsPlan;
    WideAlone(Search(3, Fleet(nodes), 1));
    assert Builds(3, Fleet(nodes), 1, [[0]]);
    EvenPowers(PipelineAdjust.Powers(nodes));
    SixteenAndMore(iterations - 1);
    assert Pow2(iterations) == 2.0 * Pow2(iterations - 1) by { Doubled(iterations); }
    forall i | 0 <= i < |nodes| ensures 0 <= nodes[i].Capacity() <= 6 && nodes[i].Caps().endpoint > 0 {
      assert Fleet(nodes)[i] == nodes[i].Caps();
    }
  }

  lemma Doubled(n: nat)
    requires n > 0
    ensures Pow2(n) == 2.0 * Pow2(n - 1)
  {
  }

  // ----- the least loaded layer -----

  ghost predicate EvenShares(alloc: Allocation, nodes: map<NodeId, Node>) {
    forall id :: id in alloc ==> id in nodes && alloc[id].start < alloc[id].end && nodes[id].Share(alloc[id]) == 1
  }

  lemma {:induction false} LoadCounts(ids: set<NodeId>, alloc: Allocation, nodes: map<NodeId, Node>)
    requires EvenShares(alloc, nodes) && ids <= alloc.Keys
    ensures ids <= nodes.Keys && SumShares(ids, alloc, nodes) == |ids|
  {
    assert ids <= nodes.Keys;
    if ids != {} {
      var x :| x in ids;
      SumSharesSplits(ids, alloc, nodes, x);
      LoadCounts(ids - {x}, alloc, nodes);
    }
  }

  /** With even shares the top of the heap is the first of the layers with fewest hosts. */
  lemma TopHasFewest(a: Allocator, l: nat)
    requires a.Valid() && EvenShares(a.allocation, a.nodeById) && l < a.layers && a.heap != []
    ensures 0 <= a.heap[0].layerId < a.layers
    ensures var t := a.heap[0].layerId;
            |Hosting(a.allocation, t)| < |Hosting(a.allocation, l)|
            || (|Hosting(a.allocation, t)| == |Hosting(a.allocation, l)| && t <= l)
  {
    var t :| 0 <= t < |a.loads| && a.loads[t] == a.heap[0];
    assert a.loads[t].NotHeavier(a.loads[l]);
    LoadCounts(Hosting(a.allocation, t), a.allocation, a.nodeById);
    LoadCounts(Hosting(a.allocation, l), a.allocation, a.nodeById);
    assert a.Views()[t].kvSize == SumShares(Hosting(a.allocation, t), a.allocation, a.nodeById);
    assert a.Views()[l].kvSize == SumShares(Hosting(a.allocation, l), a.allocation, a.nodeById);
  }

  // ----- the route that returns -----

  /** Ranges before warm-up: the wide node everything, the small ones the first and the second layer. */
  function Built(): Allocation {
    map["wide" := Range(0, 3), "first" := Range(0, 1), "second" := Range(1, 2)]
  }

  /** The second layer is much faster on its small node, and the other small node was never measured. */
  function Fast(): Measured {
    Measured(map["wide" := Fin(10.0), "second" := Fin(1.0)],
             map["wide" := map["second" := 1.0], "second" := map["wide" := 1.0]])
  }

  /** The shards of that moment, the wide node in front; `c` is the fast one. */
  ghost predicate ThreeShards(shards: seq<Shard>, b: nat, c: nat) {
    && |shards| == 3 && {b, c} == {1, 2}
    && shards[0].id == "wide" && shards[0].range == Some(Range(0, 3)) && shards[0].latency == Fin(10.0)
    && shards[0].rtt == map["second" := 1.0]
    && shards[b].id == "first" && shards[b].range == Some(Range(0, 1)) && shards[b].latency == Inf
    && shards[c].id == "second" && shards[c].range == Some(Range(1, 2)) && shards[c].latency == Fin(1.0)
    && shards[c].rtt == map["wide" := 1.0]
  }

  lemma CostThere(shards: seq<Shard>, b: nat, c: nat)
    requires ThreeShards(shards, b, c)
    ensures Route(shards, [0, c, 0]) && RouteCost(shards, [0, c, 0]) == Fin(23.0)
  {
    var path: seq<nat> := [0, c, 0];
    assert path[..2] == [0, c] && [0, c][..1] == [0 as nat];
    assert Route(shards, [0]) && Route(shards, [0, c]);
    assert RouteCost(shards, [0]) == Fin(10.0) && RouteCost(shards, [0, c]) == Fin(12.0);
  }

  /** Every other route costs more. */
  lemma CostElsewhere(shards: seq<Shard>, b: nat, c: nat, path: seq<nat>)
    requires ThreeShards(shards, b, c) && |path| == 3 && Route(shards, path)
    ensures path == [0, c, 0] || RouteCost(shards, path) == Fin(30.0) || RouteCost(shards, path) == Inf
  {
    assert HostsLayer(shards, path[0], 0) && HostsLayer(shards, path[1], 1) && HostsLayer(shards, path[2], 2);
    var two, one := path[..2], path[..1];
    assert two[..1] == one && path == [path[0], path[1], path[2]];
    assert Route(shards, one) && Route(shards, two);
    assert RouteCost(shards, one) == shards[path[0]].latency;
  }

  lemma RouteReturns(shards: seq<Shard>, b: nat, c: nat, route: seq<nat>, cost: Time)
    requires ThreeShards(shards, b, c) && CheapestFinite(shards, 3, route, cost)
    ensures route == [0, c, 0] && cost == Fin(23.0)
  {
    hide ThreeShards, RouteCost, Route;
    CostThere(shards, b, c);
    var there: seq<nat> := [0, c, 0];
    assert |there| == 3 && RouteCost(shards, there) == Fin(23.0);
    assert CostsNoLess(shards, there, cost);
    CostElsewhere(shards, b, c, route);
  }

  /** A stretch ends where the route goes on to another node. */
  lemma StretchEnds(route: seq<nat>, i: nat, r: Range, f: nat)
    requires FirstStretch(route, i, r) && FirstUse(route, i, f) && f + 1 < |route| && route[f + 1] != i
    ensures r == Range(f, f + 1)
  {
    OneFirstUse(route, i, r.start, f);
  }

  /** The wide node keeps the first layer only, and nobody is left with the last one. */
  lemma LastLayerIsLost(shards: seq<Shard>, b: nat, c: nat, after: Allocation)
    requires ThreeShards(shards, b, c) && Warmed(shards, Built(), after, [0, c, 0], Fin(23.0))
    ensures !FullPipeline(after, 3)
  {
    LeftRanges(shards, b, c, after);
    hide Warmed, ThreeShards;
    assert forall id :: id in after ==> id in Built() && after[id].end < 3;
    forall chain: seq<Range> | chain != [] ensures !ChainIn(after.Values, chain, 0, 3) {
      EndsTooEarly(chain, after.Values, 0, 3);
    }
  }

  lemma LeftRanges(shards: seq<Shard>, b: nat, c: nat, after: Allocation)
    requires ThreeShards(shards, b, c) && Warmed(shards, Built(), after, [0, c, 0], Fin(23.0))
    ensures after.Keys == Built().Keys
    ensures after["wide"] == Range(0, 1) && after["first"] == Range(0, 1) && after["second"] == Range(1, 2)
  {
    var route: seq<nat> := [0, c, 0];
    OffTheRoute(shards, b, c);
    assert route[0] == 0 && route[1] == c && route[2] == 0;
    assert 0 in route && c in route;
    var left := LeftOnRoute(shards, route, after);
    hide Warmed, FirstStretch, ThreeShards;
    assert FirstStretch(route, 0, left[0]) && FirstStretch(route, c, left[c]) by { OnTheRoute(shards, b, c, after); }
    StretchEnds(route, 0, left[0], 0);
    StretchEnds(route, c, left[c], 1);
    assert left[0] == after["wide"] && left[c] == after["second"] by { Names(shards, b, c); }
  }

  lemma Names(shards: seq<Shard>, b: nat, c: nat)
    requires ThreeShards(shards, b, c)
    ensures shards[0].id == "wide" && shards[c].id == "second" && c != 0
  {
  }

  lemma OffTheRoute(shards: seq<Shard>, b: nat, c: nat)
    requires ThreeShards(shards, b, c)
    ensures var route: seq<nat> := [0, c, 0];
            forall k :: 0 <= k < 3 ==> shards[route[k]].id != "first"
  {
    WideAndSmallNames();
  }

  lemma OnTheRoute(shards: seq<Shard>, b: nat, c: nat, after: Allocation)
    requires ThreeShards(shards, b, c) && Warmed(shards, Built(), after, [0, c, 0], Fin(23.0))
    ensures var route: seq<nat> := [0, c, 0];
            var left := LeftOnRoute(shards, route, after);
            0 in left && c in left && FirstStretch(route, 0, left[0]) && FirstStretch(route, c, left[c])
  {
    hide FirstStretch;
    var route: seq<nat> := [0, c, 0];
    assert route[0] == 0 && route[1] == c;
  }

  lemma RangesKnown(built: Allocation)
    requires built.Keys == {"wide", "first", "second"}
    requires built["wide"] == Range(0, 3) && built["first"] == Range(0, 1) && built["second"] == Range(1, 2)
    ensures built == Built()
  {
    assert built.Keys == Built().Keys;
  }

  /** One wide node in front, and up to two small ones, of power 1. */
  ghost predicate WideList(nodes: seq<Node>) {
    && 0 < |nodes| <= 3 && WideFirst(Fleet(nodes)) && nodes[0].id == "wide"
    && (forall i :: 0 <= i < |nodes| ==> nodes[i].power == 1.0)
    && (|nodes| == 3 ==> {nodes[1].id, nodes[2].id} == {"first", "second"})
  }

  lemma WideAndOthers(nodes: seq<Node>, byId: map<NodeId, Node>)
    requires NodesMatch(nodes, byId) && AllListed(nodes, byId) && ByCapacity(nodes)
    requires byId.Keys == {"wide"} || byId.Keys == {"wide", "first", "second"}
    requires byId["wide"].hardware == Wide() && forall id :: id in byId && id != "wide" ==> byId[id].hardware == Small()
    requires forall id :: id in byId ==> byId[id].power == 1.0
    ensures WideList(nodes) && |nodes| == |byId.Keys|
  {
    hide DecoderCapacity;
    ListedOnce(nodes, byId);
    forall i | 0 <= i < |nodes| ensures nodes[i].Caps() == if nodes[i].id == "wide" then Caps(6, 5) else Caps(1, 1) {
      WideAndSmall(nodes[i]);
    }
    assert byId["wide"] in Members(nodes);
    var k :| 0 <= k < |nodes| && nodes[k] == byId["wide"];
    assert nodes[0].Capacity() >= nodes[k].Capacity() == 6 && nodes[0].id == "wide";
    OtherNames(nodes, byId);
  }

  lemma OtherNames(nodes: seq<Node>, byId: map<NodeId, Node>)
    requires NodesMatch(nodes, byId) && |nodes| == |byId.Keys| && nodes != [] && nodes[0].id == "wide"
    requires byId.Keys == {"wide"} || byId.Keys == {"wide", "first", "second"}
    ensures |nodes| <= 3 && (|nodes| == 3 ==> {nodes[1].id, nodes[2].id} == {"first", "second"})
  {
    WideAndSmallNames();
    var rest: set<NodeId> := {"first", "second"};
    assert byId.Keys == {"wide", "first", "second"} ==> byId.Keys == {"wide"} + rest && |rest| == 2;
  }

  /** The warm-up of these nodes under these measurements. */
  lemma WarmUpReturns(nodes: seq<Node>, after: Allocation, route: seq<nat>)
    requires WideList(nodes) && |nodes| == 3 && WarmedUp(nodes, Fast(), Built(), after, 3, route)
    ensures !FullPipeline(after, 3) && route != [] && !NeverReturns(route)
  {
    hide CheapestFinite, Warmed, FullPipeline, RouteCost, Route, WideList;
    var shards, cost :|
      && Snapshot(shards, nodes, Built()) && MeasuredBy(shards, Fast())
      && CheapestFinite(shards, 3, route, cost) && Warmed(shards, Built(), after, route, cost);
    var b, c := SmallOnes(nodes);
    ShardsAreThree(nodes, shards, b, c);
    RouteReturns(shards, b, c, route, cost);
    LastLayerIsLost(shards, b, c, after);
    assert route[0] == route[2] && route[1] != route[0];
  }

  lemma SmallOnes(nodes: seq<Node>) returns (b: nat, c: nat)
    requires WideList(nodes) && |nodes| == 3
    ensures {b, c} == {1, 2} && nodes[b].id == "first" && nodes[c].id == "second"
  {
    WideAndSmallNames();
    b, c := if nodes[1].id == "first" then 1 else 2, if nodes[1].id == "first" then 2 else 1;
  }

  lemma ShardsAreThree(nodes: seq<Node>, shards: seq<Shard>, b: nat, c: nat)
    requires WideList(nodes) && |nodes| == 3 && Snapshot(shards, nodes, Built()) && MeasuredBy(shards, Fast())
    requires {b, c} == {1, 2} && nodes[b].id == "first" && nodes[c].id == "second"
    ensures ThreeShards(shards, b, c)
  {
  }

  /** A small node that joins at an early layer takes that layer only. */
  lemma SmallRange(a: Allocator, node: Node, got: Range)
    requires a.layers == 3 && node.hardware == Small() && a.AsManyAsAllowed(node, got) && 0 <= got.start < 2
    requires got.end - got.start <= node.Capacity()
    ensures got.end == got.start + 1
  {
  }

  lemma TopOfWide(s: ClusterScheduler)
    requires s.Valid() && s.allocator.layers == 3 && s.allocator.heap != []
    requires "wide" in s.allocator.nodeById && s.allocator.nodeById["wide"].kvMemory == 3.0
    requires s.allocator.allocation == map["wide" := Range(0, 3)]
    ensures s.allocator.heap[0].layerId == 0
  {
    var a := s.allocator;
    assert EvenShares(a.allocation, a.nodeById);
    TopHasFewest(a, 0);
    forall l | 0 <= l < 3 ensures Hosting(a.allocation, l) == {"wide"} {
    }
  }

  lemma TopOfTwo(s: ClusterScheduler)
    requires s.Valid() && s.allocator.layers == 3 && s.allocator.heap != []
    requires "wide" in s.allocator.nodeById && s.allocator.nodeById["wide"].kvMemory == 3.0
    requires "first" in s.allocator.nodeById && s.allocator.nodeById["first"].kvMemory == 1.0
    requires s.allocator.allocation == map["wide" := Range(0, 3), "first" := Range(0, 1)]
    ensures s.allocator.heap[0].layerId == 1
  {
    hide ClusterScheduler.Valid, Allocator.Valid, SumShares;
    SchedulerIsValid(s);
    var a := s.allocator;
    assert EvenShares(a.allocation, a.nodeById);
    TopHasFewest(a, 1);
    assert Hosting(a.allocation, 0) == {"wide", "first"};
    assert Hosting(a.allocation, 1) == {"wide"} && Hosting(a.allocation, 2) == {"wide"};
    assert "wide" != "first";
  }

  lemma SchedulerIsValid(s: ClusterScheduler)
    requires s.Valid()
    ensures s.allocator.Valid()
  {
  }

  /** The wide node alone is bootstrapped. */
  method WideCluster() returns (s: ClusterScheduler)
    ensures fresh(s) && fresh(s.allocator) && fresh(s.allocator.loads)
    ensures s.Valid() && s.bootstrapped && s.allocator.layers == 3 && s.minNodes == 1 && s.warmUps == 1 && s.allocator.iterations == 40
    ensures s.allocator.nodeById.Keys == {"wide"} && fresh(s.allocator.nodeById["wide"])
    ensures s.allocator.nodeById["wide"].hardware == Wide() && s.allocator.nodeById["wide"].power == 1.0
    ensures s.allocator.nodeById["wide"].kvMemory == 3.0
    ensures s.allocator.allocation == map["wide" := Range(0, 3)]
  {
    hide ClusterScheduler.Valid, Allocator.Valid, FullPipeline, Realizes, CarriedOut, BestPlan, GivenUpAt, PlanFor, Feasible, Comfortable, WideFirst;
    s := EmptyCluster(3, 1, 1);
    var a := s.allocator;
    var node, joined := Add(s, "wide", Wide(), 3.0, true);
    Facts(s);
    WideAndOthers(a.nodes, a.nodeById);
    WideIsComfortable(a.nodes, a.iterations);
    ghost var route, built;
    var r;
    r, route, built := s.Bootstrap(false, true, Fast());
    WideServes(a.nodes, s.Plan(), map[], built, a.iterations);
    Facts(s);
    OnlyWide(a.allocation);
  }

  lemma OnlyWide(alloc: Allocation)
    requires alloc.Keys <= {"wide"} && "wide" in alloc && alloc["wide"] == Range(0, 3)
    ensures alloc == map["wide" := Range(0, 3)]
  {
  }

  /** The three nodes are the ones meant. */
  ghost predicate ThreeNodes(byId: map<NodeId, Node>) {
    && byId.Keys == {"wide", "first", "second"}
    && byId["wide"].hardware == Wide() && byId["first"].hardware == Small() && byId["second"].hardware == Small()
    && forall id :: id in byId ==> byId[id].power == 1.0
  }

  /** A small node joins, and takes the least loaded layer. */
  method AddSmall(s: ClusterScheduler, id: NodeId, ghost layer: nat) returns (node: Node)
    requires s.Valid() && s.allocator.layers == 3 && id !in s.allocator.nodeById && layer < 2
    requires s.allocator.heap != [] ==> s.allocator.heap[0].layerId == layer
    modifies s.allocator, s.allocator.loads
    ensures s.Valid() && fresh(node) && s.allocator.nodeById == old(s.allocator.nodeById)[id := node]
    ensures node.hardware == Small() && node.power == 1.0 && node.kvMemory == 1.0
    ensures s.allocator.allocation == old(s.allocator.allocation)[id := Range(layer, layer + 1)]
  {
    hide ClusterScheduler.Valid, Allocator.Valid, Allocator.AsManyAsAllowed;
    var joined;
    node, joined := Add(s, id, Small(), 1.0, false);
    WideAndSmall(node);
    Facts(s);
    SmallRange(s.allocator, node, s.allocator.allocation[id]);
  }

  /** Two small nodes join the wide one, and host its first two layers once more. */
  method CoveredTwice() returns (s: ClusterScheduler)
    ensures fresh(s) && fresh(s.allocator) && fresh(s.allocator.loads)
    ensures forall id :: id in s.allocator.nodeById ==> fresh(s.allocator.nodeById[id])
    ensures s.Valid() && s.bootstrapped && s.allocator.layers == 3 && s.minNodes == 1 && s.warmUps == 1 && s.allocator.iterations == 40
    ensures ThreeNodes(s.allocator.nodeById) && s.allocator.allocation == Built()
  {
    hide ClusterScheduler.Valid, Allocator.Valid, FullPipeline;
    s := WideCluster();
    var a := s.allocator;
    WideAndSmallNames();
    if a.heap != [] {
      TopOfWide(s);
    }
    var first := AddSmall(s, "first", 0);
    if a.heap != [] {
      TopOfTwo(s);
    }
    var second := AddSmall(s, "second", 1);
    assert a.allocation == Built();
  }

  lemma WideAndSmallNames()
    ensures "first" != "wide" && "second" != "wide" && "first" != "second"
  {
  }

  /** Bootstrapping these nodes again without clearing runs warm-up along a route that returns: it fails, the
      flag is still set, and the full pipeline is gone, although every node has room next to an endpoint and
      the bisection is fine enough. */
  method ReturningBootstrap() returns (s: ClusterScheduler, r: Result<bool>)
    ensures fresh(s) && s.Valid() && s.allocator.layers == 3 && s.Easy()
    ensures r == Ok(false) && s.bootstrapped && !s.Full()
  {
    hide ClusterScheduler.Valid, Allocator.Valid, FullPipeline, Realizes, CarriedOut, BestPlan, GivenUpAt, PlanFor, Feasible, Comfortable, WideFirst,
         WarmedUp, WideList, Built, Fast, ThreeNodes;
    s := CoveredTwice();
    var a := s.allocator;
    ThreeNodesAreEasy(s);
    ghost var route, built;
    r, route, built := s.Bootstrap(false, false, Fast());
    OnlyThreeNodes(s);
    RouteLosesThePipeline(a.nodes, s.Plan(), built, a.allocation, route, a.iterations);
    NotTrueIsFalse(r);
  }

  lemma NotTrueIsFalse(r: Result<bool>)
    ensures r.Ok? ==> r == Ok(true) || r == Ok(false)
  {
    match r
    case Ok(v) => assert r == Ok(v);
    case Raise(_) =>
  }

  lemma ThreeNodesAreEasy(s: ClusterScheduler)
    requires s.Valid() && ThreeNodes(s.allocator.nodeById) && s.allocator.iterations == 40
    ensures WideList(s.allocator.nodes) && |s.allocator.nodes| == 3 && s.Easy() && Feasible(3, s.allocator.nodes)
    ensures Members(s.allocator.nodes) == s.allocator.nodeById.Values
  {
    hide Allocator.Valid, Feasible, Comfortable;
    var a := s.allocator;
    Facts(s);
    WideAndOthers(a.nodes, a.nodeById);
    WideIsComfortable(a.nodes, a.iterations);
  }

  lemma OnlyThreeNodes(s: ClusterScheduler)
    requires s.Valid() && ThreeNodes(s.allocator.nodeById)
    ensures s.allocator.allocation.Keys <= {"wide", "first", "second"}
  {
    Facts(s);
  }

  lemma RouteLosesThePipeline(nodes: seq<Node>, plan: seq<seq<nat>>, built: Allocation, after: Allocation, route: seq<nat>,
                              iterations: nat)
    requires WideList(nodes) && |nodes| == 3 && Realizes(nodes, plan, Built(), built, 3, iterations)
    requires WarmedUp(nodes, Fast(), built, after, 3, route) && after.Keys <= {"wide", "first", "second"}
    ensures !FullPipeline(after, 3)
  {
    hide Realizes, FullPipeline, WarmedUp, Warmed;
    WideServes(nodes, plan, Built(), built, iterations);
    SameKeys(nodes, built, after, route);
    WideAndSmallNames();
    RangesKnown(built);
    WarmUpReturns(nodes, after, route);
  }

  lemma SameKeys(nodes: seq<Node>, built: Allocation, after: Allocation, route: seq<nat>)
    requires WarmedUp(nodes, Fast(), built, after, 3, route)
    ensures built.Keys == after.Keys
  {
  }
}
