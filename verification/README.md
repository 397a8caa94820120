# Parallax scheduling and serving, modelled in Dafny

This project models four coupled parts of Parallax, a system that serves one language model from many
heterogeneous machines, each hosting a contiguous range of decoder layers, and proves that they do what
they are for.  `dafny verify dfyconfig.toml` checks everything.

**Layer allocation.**  `PipelineSearch`, `SearchTable` and `Backtrack` model the memoised, pruned dynamic
program that builds as many disjoint pipelines as pay off, and the separate replay of its action table.
`PipelinePlans` gives the independent notion of a plan (node-disjoint pipelines that close under the same
accounting), `ResidualRange` what an open pipeline can still miss, `PipelineCount` the choice of how many.
`WaterFilling` turns real targets into whole stage
counts; `PipelineAdjust` places them.  `LayerIndex` and `LayerAllocator` hold the allocation map, endpoint
lists, per-layer load records and heap, kept in agreement by every operation.  `FullPipelines` decides
whether a full pipeline exists, and `GlobalAllocation` joins all of it end to end.

**Routing and the cluster scheduler.**  `ShardRouting` is the shard-level shortest path, `TurningPoints`
the layer-level one, `WarmUp` the truncation it drives, `RoundRobin` the enumerating, rotating and
repairing router together with dispatch.  `ClusterBootstrap` is the bootstrap flag over joins, leaves and
rebuilds, and keeps every range within its node's capacity; `BootstrapWitness` has two runs that lose the
full pipeline under a set flag, and `Rerouting` says when a rebuilt pipeline can be routed to.  A latency (`Latency`) is a real number of milliseconds or infinity.

**Cache and batching on a peer.**  `RadixTree`, `RadixEdits`, `RadixLocks`, `RadixLeaves` and `PrefixCache`
model the prefix cache: a mutable tree that refines a prefix-closed set of token sequences with positions.
`RecentlyUsed` has what a match means for a later eviction.  `PagedCache` holds the block and slot allocators and the tables built on them.  `BatchScheduler` admits
requests and forms batches.

**The ring.**  `Requests` holds requests, packets, wire format and length arithmetic; `Ring` is the protocol
as atomic steps over all peers, with messages delivered in any order (which includes the FIFO order of the
sockets), and `RingProgress` when every request is served under the peers' running limits and token budgets.

`Ordering` holds sorting and sums, `Outcomes` options and results; an exception of the program is a `Raise`.

## What turned out different from the documentation

- Truncating nodes after warm-up keeps the route's layers covered exactly when the route never returns to a
  node it has left.  A cheapest route may return; then the last full pipeline can be lost
  (`WarmUp.ReturningRouteLosesThePipeline`).
- A set bootstrap flag does not always mean that a full pipeline exists.  `bootstrap` called again while
  already bootstrapped, and without clearing, loses the pipeline in two ways: its rebuild raises half-way
  (`BootstrapWitness.RaisingBootstrap`, without any warm-up), or its warm-up follows a route that returns
  (`BootstrapWitness.ReturningBootstrap`, with room next to an endpoint on every node).  Without warm-up such a
  call keeps the flag safe exactly when nothing is attempted, there is no plan, or the first pipeline of the plan
  can take its layers or the other nodes' ranges already chain (`KeepsPipeline`, known before the call); with
  one, exactly when the rebuilt ranges, cropped to the route, still form a full pipeline.  A call that clears,
  or finds the flag unset, always keeps it safe, and so does every join, and every leave that leaves a node.
  The program's own loops call `bootstrap` without clearing only while the flag is unset
  (src/scheduling/scheduler.py 553 and 605), so losing the pipeline takes a direct call of the public method,
  or the two threads racing between the test and the call (553 and 558).
- On peers other than the first, prefill packets carry prompt length 0, so the token budget of a batch is not
  charged for them: it sees every token exactly when no prefill is in the batch
  (`BatchScheduler.LaterPeersMissEveryPrefill`, `BatchScheduler.LaterPeersOverrun`).
- A prompt longer than the first peer's token budget is accepted and admitted, and then passed over by every
  batch: a prefill can run exactly when its prompt fits the budget by itself.  With the defaults of 1024 tokens
  a batch and 2048 a sequence (src/parallax/server/server_args.py 121-125,
  src/parallax/server/executor/base_executor.py 577) that is every prompt of more than 1024 tokens
  (`BatchScheduler.LongPromptNeverRuns`, `RingProgress.ServedExactlyIfItFits`).  Only its timeout, which is not
  part of this model, takes it off the peer.
- Every other request of the ring is served when the routes go up in one order of the peers, as routes by start
  layer do, and no admission is refused (`RingProgress.EveryoneIsServed`).  Routes in opposite directions can
  block each other (`RingProgress.OppositeRoutesBlock`), and a refusal further up leaves the request running on
  the peers before (`RingProgress.StrandedForGood`).
- Taking a node's range away marks it inactive, and giving it one does not make it active again.  After a
  clearing rebuild the shard-level router therefore finds no path over nodes that had a range, although a full
  pipeline exists, until they report (`Rerouting.RouteAfterRebuild`, `Rerouting.RebuiltUnrouted`).
- With linear layers only, `allocate_request` called again for a held request takes another slot and forgets
  the first, exactly then and in no other case (`PagedCache.ForgottenSlot` is a run).  Admission asks
  `has_request` first, so it does not happen there.
- The dynamic program scores a count k by k*k over its stages; the `alpha` of its documentation is unused.
- The residuals of open pipelines are said to lie in 1..L-1.  They do exactly when every node can hold a layer
  next to an endpoint (`ResidualRange.ResidualsOfPipelines`, `ResidualRange.ResidualsOfStates`).
- An over-long prompt is cut and accepted exactly when the sequence limit is at least 6 and the request asks for
  at least one new token or names no number (`Requests.LongPromptsAreServed`).
- A joining node that would reach the last layer without the LM head but not with it hosts only as many layers
  as fit next to the head, although it then does not reach the last layer (`LayerAllocator.JoinFallsShort`,
  `LayerAllocator.HeadReservedInVain`).

## Model

| member | source | states |
|---|---|---|
| PipelineSearch.PruningIsExact | src/scheduling/layer_allocation.py:863-948 | for every state the pruned recursion returns exactly the minimum stage count over all skip, assign and start choices without any cut |
| PipelineSearch.CompletableIsNotCut | src/scheduling/layer_allocation.py:882-892 | a state from which all targets can still be completed passes all three prune tests |
| PipelineSearch.StepNeeds | src/scheduling/layer_allocation.py:894-945 | one node lowers the total open need by at most its plain capacity and begins at most one pipeline, whichever choice is taken |
| PipelineSearch.CheapestChoice | src/scheduling/layer_allocation.py:894-945 | a finite minimum is reached through one of the choices: the successor it leads to has that minimum, less one stage for a node that is used |
| PipelinePlans.SearchIsALowerBound | src/scheduling/layer_allocation.py:863-950 | every set of node-disjoint pipelines that closes under the search's accounting has at least as many stages as the search reports |
| PipelinePlans.PlanStepIsAChoice | src/scheduling/layer_allocation.py:894-945 | walking over the nodes, any such plan makes at each node one of the search's choices and pays one stage unless the node is skipped |
| PipelinePlans.AdvanceIsAChoice | src/scheduling/layer_allocation.py:898-945 | advancing one pipeline by one node is an assign or start choice on the sorted residuals |
| ResidualRange.ResidualsOfPipelines | src/scheduling/layer_allocation.py:787-790 | the documented range of residuals, 1 to L - 1, holds for all open pipelines exactly when every node can hold a layer next to an endpoint |
| ResidualRange.ResidualsOfStates | src/scheduling/layer_allocation.py:894-945 | the same for the residuals of all states the search can come to by skip, assign and start choices |
| SearchTable.TableLeavesRange | src/scheduling/layer_allocation.py:878-942 | even with the cuts, the table of a search holds a residual out of range once a node without room next to an endpoint is met while capacity and nodes for all targets are left |
| SearchTable.Table.constructor | src/scheduling/layer_allocation.py:861-870 | a fresh cache and action table are empty and consistent |
| SearchTable.Table.Prunes | src/scheduling/layer_allocation.py:878-892 | the three cuts read from the state and the capacity suffix are the ones of the plain recursion |
| SearchTable.Table.Solve | src/scheduling/layer_allocation.py:863-948 | the memoised recursion returns what the plain one does, keeps every entry, and leaves an action table that agrees with it; with room next to every endpoint no state in it leaves the range of residuals |
| SearchTable.Table.Expand | src/scheduling/layer_allocation.py:894-947 | trying all choices of one state caches every successor and yields the recursion's own decision |
| SearchTable.DecisionFollowsItsAction | src/scheduling/layer_allocation.py:895-948 | a recorded action is legal, and the cost is that of the state it leads to, plus one stage unless it skips |
| Backtrack.TablesAreReplayable | src/scheduling/layer_allocation.py:955-961 | the table left by the search holds, from the root on, an entry for every state the replay meets, and that entry is the search's decision |
| Backtrack.AssignNode | src/scheduling/layer_allocation.py:997-1015 | giving a node to an open pipeline keeps pipelines, residuals and used nodes in step with the search state after that action |
| Backtrack.StartNode | src/scheduling/layer_allocation.py:1016-1023 | beginning a pipeline does the same |
| Backtrack.Replay | src/scheduling/layer_allocation.py:979-1028 | replaying the table yields the plan the search's own decisions build: exactly the target number of non-empty, node-disjoint pipelines, each closed under the search's accounting, with as many stages in all as the search reported |
| PipelineCount.FeasibleCountIsBounded | src/scheduling/layer_allocation.py:855-855 | any number of pipelines that can be built is at most the number of nodes and at most total capacity over layers |
| PipelineCount.CostCoversPipelines | src/scheduling/layer_allocation.py:878-945 | each pipeline still to begin costs a stage of its own, so a feasible count never scores with zero stages |
| PipelineCount.TryCount | src/scheduling/layer_allocation.py:860-955 | one target count: the least number of stages over all plans with its action table, or that no plan exists; with room next to every endpoint all states of the table are in the documented range |
| PipelineCount.ChoosePipelines | src/scheduling/layer_allocation.py:833-961 | of all feasible counts, not only those tried, the chosen one has the largest square in proportion to its stages, compared as whole numbers, and is the smallest of those; its pipelines come with it, as a function of the layers and the capacities; nothing is found only if no count is feasible |
| WaterFilling.FindLevel | src/scheduling/layer_allocation.py:393-400 | the loop ends where halving the interval ends, at a level that fills all layers |
| WaterFilling.LevelIsLevel | src/scheduling/layer_allocation.py:393-400 | that level fills all layers, and one lower by the last interval does not |
| WaterFilling.LevelIsNearOptimal | src/scheduling/layer_allocation.py:393-400 | the level exceeds that of any real split within the caps by at most the largest cap-to-power ratio over two to the number of steps |
| WaterFilling.TotalGrowsSlowly | src/scheduling/layer_allocation.py:390-391 | raising the level adds at most the raise times the summed power |
| WaterFilling.NextHasRoom | src/scheduling/layer_allocation.py:408-417 | while layers remain, the next largest remainder is positive and its stage is below its cap, so the rounding always finishes |
| WaterFilling.Round | src/scheduling/layer_allocation.py:404-419 | floors and largest remainders give whole stages that sum to the total, between floor and ceiling of their targets and within the caps, with the larger remainders rounded up first and the earlier node of two equal ones; it raises exactly when the floors alone exceed the total |
| WaterFilling.EnoughIterations | src/scheduling/layer_allocation.py:393-419 | if the largest cap-to-power ratio times the summed power is at most two to the number of steps, the floors never exceed the total |
| WaterFilling.Fill | src/scheduling/layer_allocation.py:386-419 | the whole integer split: it raises exactly for too little capacity, or when the floors at the level the bisection ends at exceed the total; never under the bound on the steps |
| WaterFilling.StagesStayNearTheLevel | src/scheduling/layer_allocation.py:402-417 | no node takes more than one layer above what the level gives it |
| ClusterNode.CapacityFacts | src/scheduling/node.py:267-300 | capacity is never negative without endpoints, reserving either endpoint costs the same, and reserving more never raises it |
| ClusterNode.CapacityIsLargest | src/scheduling/node.py:267-300 | the capacity is the largest number of layers that fit into the parameter memory left by the endpoints the node holds; tied endpoints count once |
| ClusterNode.ShareIsEven | src/scheduling/node.py:302-312 | a node's cache memory is split evenly over its layers, rounded down |
| ClusterNode.Node.constructor | src/scheduling/node.py:172-198 | a new node has no range and is active |
| LayerIndex.LayerLoad.AddNode | src/scheduling/layer_allocation.py:41-46 | adding a node to a layer's record adds its id and its share |
| LayerIndex.LayerLoad.RemoveNode | src/scheduling/layer_allocation.py:48-55 | removing takes both away, and does nothing for a node that is not there |
| LayerIndex.MoreRangesKeepPipelines | src/scheduling/layer_allocation.py:545-582 | a full pipeline survives when ranges are only added |
| LayerAllocator.Allocator.constructor | src/scheduling/layer_allocation.py:97-145 | an allocator starts with nodes in capacity order, nothing allocated, and records, endpoint lists and heap in agreement |
| LayerAllocator.Allocator.SortNodes | src/scheduling/layer_allocation.py:111-111 | the shared list is put in descending capacity order without losing a node, and nodes of one capacity keep their order |
| LayerAllocator.Allocator.UpdateHeap | src/scheduling/layer_allocation.py:527-530 | the heap holds all records with the lexicographically least on top |
| LayerAllocator.TopIsLightest | src/scheduling/layer_allocation.py:57-67 | the layer on top of the heap is the one whose hosts' summed share is smallest, and the first of those |
| LayerAllocator.Allocator.AddLoads | src/scheduling/layer_allocation.py:182-185 | exactly the records of the range gain the node and its share |
| LayerAllocator.Allocator.RemoveLoads | src/scheduling/layer_allocation.py:203-205 | exactly the records of the range lose them |
| LayerAllocator.Allocator.Allocate | src/scheduling/layer_allocation.py:168-186 | the node's range is recorded in the map, the endpoint lists, the load records and the heap together, or the call raises on an empty range and changes nothing |
| LayerAllocator.Allocator.Deallocate | src/scheduling/layer_allocation.py:188-208 | the range disappears from all of them, the node becomes inactive, and other nodes keep theirs |
| LayerAllocator.Allocator.Reallocate | src/scheduling/layer_allocation.py:210-213 | the new range replaces the old one everywhere, and a node that had one ends up inactive; on an empty range the node ends up without any and the call raises |
| LayerAllocator.Allocator.Declare | src/scheduling/layer_allocation.py:215-222 | the node becomes known once and the list stays in capacity order |
| LayerAllocator.Allocator.EndForTail | src/scheduling/layer_allocation.py:532-543 | the end fits the capacity next to the endpoints the range touches, and is as far as the code's rule allows |
| LayerAllocator.Allocator.Join | src/scheduling/layer_allocation.py:224-243 | a joining node hosts layers from the one on top of the heap on, exactly as many as the rule for the end allows; it raises only without layers or when the rule leaves it none, which takes a node with no room next to both endpoints |
| LayerAllocator.JoinFallsShort | src/scheduling/layer_allocation.py:532-543 | a joining node falls short of what it could host without reaching the last layer exactly when its plain capacity would reach that layer but its capacity next to the head stops more than one layer before it |
| LayerAllocator.HeadReservedInVain | src/scheduling/layer_allocation.py:532-543 | an input where that happens |
| LayerAllocator.Allocator.Leave | src/scheduling/layer_allocation.py:245-257 | a leaving node takes its range, list entry and index entry with it; an unknown id raises |
| LayerAllocator.AccurateAdded | src/scheduling/layer_allocation.py:182-185 | after adding a range, every record again holds exactly the covering nodes and their summed share |
| LayerAllocator.AccurateRemoved | src/scheduling/layer_allocation.py:203-205 | the same after removing one |
| LayerAllocator.EndsAdded | src/scheduling/layer_allocation.py:178-181 | the endpoint lists name exactly the nodes at the first and last layer after adding a range |
| LayerAllocator.EndsRemoved | src/scheduling/layer_allocation.py:199-202 | the same after removing one |
| FullPipelines.HasFullPipeline | src/scheduling/layer_allocation.py:545-582 | the depth-first search answers true exactly when some chain of allocated ranges covers all layers |
| FullPipelines.FullMeansReach | src/scheduling/layer_allocation.py:564-582 | reaching the last layer from some range that starts at layer 0 is the same as such a chain |
| FullPipelines.JoinLeftOver | src/scheduling/layer_allocation.py:268-279 | an unallocated node takes layers from the lightest one on, exactly as far as the rule allows, or none if that is none |
| FullPipelines.AllocateLeftOver | src/scheduling/layer_allocation.py:259-279 | the unallocated nodes join one after the other, largest first, each from the layer that is lightest then: which ranges that gives is stated step by step; none is more than its node can store, a full pipeline stays, and every node with room for a layer next to both endpoints ends up with one |
| FullPipelines.ExtendingKeepsPipelines | src/scheduling/layer_allocation.py:545-582 | adding ranges keeps full pipelines |
| PipelineAdjust.AdjustPipeline | src/scheduling/layer_allocation.py:329-451 | a rebalanced pipeline covers the layers contiguously in stage order with exactly the water-filled stage counts, within its capacities, and nothing outside it changes; it raises exactly without nodes or layers, when a reserved capacity is not positive, when they do not sum to the layers, or when the floors overshoot, and its nodes are then left without a range |
| PipelineAdjust.ClearRanges | src/scheduling/layer_allocation.py:363-366 | exactly the participating nodes lose their ranges |
| PipelineAdjust.ReadCaps | src/scheduling/layer_allocation.py:368-384 | the caps reserve the first endpoint on the first node and the second on the last, and the call raises exactly when some node is left without room |
| PipelineAdjust.Place | src/scheduling/layer_allocation.py:436-445 | stages are laid end to end from layer 0; a node with an empty stage stays without a range |
| PipelineAdjust.ServingIsFull | src/scheduling/layer_allocation.py:447-451 | stages that sum to the layers form a full pipeline |
| GlobalAllocation.ClosingHasRoom | src/scheduling/layer_allocation.py:386-387 | a pipeline that closes in the search has caps that sum to at least the layers, so that error is unreachable |
| GlobalAllocation.ClosingIsRoomy | src/scheduling/layer_allocation.py:368-387 | with positive reserved capacities neither capacity error of the rebalancing can occur for a chosen pipeline |
| GlobalAllocation.PipelineInOrder | src/scheduling/layer_allocation.py:111-111 | replayed pipelines are already in descending capacity order, so sorting them changes nothing |
| GlobalAllocation.ComfortableSuffices | src/scheduling/layer_allocation.py:393-395 | a bound on the whole fleet gives the step bound for each of its pipelines |
| GlobalAllocation.ComfortableIsAdjustable | src/scheduling/layer_allocation.py:368-419 | with positive reserved capacities and enough steps every pipeline of every plan can be placed |
| GlobalAllocation.AdjustAll | src/scheduling/layer_allocation.py:963-968 | the chosen pipelines are placed, each over all layers, without disturbing one another or any other node; it raises exactly when one of them cannot take its layers, and then those before it are in place, its own nodes are without a range, and all others as they were |
| GlobalAllocation.GivingUpKeeps | src/scheduling/layer_allocation.py:963-968 | after a raise half-way a full pipeline is left exactly when the first pipeline of the plan could take its layers or the ranges outside it already chain |
| GlobalAllocation.GlobalAllocation | src/scheduling/layer_allocation.py:825-977 | it returns false, changing nothing, exactly when no pipeline can be built, and raises exactly when some pipeline of the plan it settles on cannot take its layers, which positive reserved capacities and enough steps exclude; true means that the best-scoring set of disjoint pipelines is in place with water-filled stages, other nodes kept the ranges they had, the left-over nodes then joined one by one, and a full pipeline exists; after a raise one is left exactly when the plan keeps one |
| ShardRouting.FindOptimalPath | src/scheduling/request_routing.py:145-213 | the path is a contiguous chain of active nodes over all layers whose cost is the reported latency and minimal over all such chains; it is empty exactly when no chain has a finite cost |
| ShardRouting.CostIsSum | src/scheduling/request_routing.py:186-194 | the cost of a path is the sum of its nodes' latencies and of the round trips measured between them, none for a hop to the same node; it is infinite exactly when one of these is missing |
| ShardRouting.Collect | src/scheduling/request_routing.py:150-157 | the start and end indexes hold exactly the active nodes with a range |
| ShardRouting.Ordered | src/scheduling/request_routing.py:159-170 | every node with a range is listed once, earlier starts first, inactive ones included |
| ShardRouting.Relax | src/scheduling/request_routing.py:181-196 | relaxing a node over finished predecessors makes its entry the least cost of any chain to it, with the chain that attains it |
| ShardRouting.Fill | src/scheduling/request_routing.py:172-196 | the filled table holds least costs and parent links that spell out attaining chains |
| ShardRouting.RelaxedIsOptimal | src/scheduling/request_routing.py:188-196 | an entry no larger than any predecessor's candidate is a lower bound on all chains |
| ShardRouting.PredsAreSettled | src/scheduling/request_routing.py:159-170 | sorting by start puts every possible predecessor before its successors |
| ShardRouting.Reconstruct | src/scheduling/request_routing.py:206-212 | following the parent links yields the recorded chain |
| TurningPoints.FindRoute | src/scheduling/request_routing.py:66-118 | the layer-level search returns a cheapest host sequence over all sequences that host every layer, or nothing when some layer has no host; with only infinite costs it keeps a single entry |
| TurningPoints.RouteCostIsCost | src/scheduling/request_routing.py:91-105 | a layer-level route costs what the shard-level router makes of the same sequence of nodes |
| TurningPoints.BestEntry | src/scheduling/request_routing.py:91-105 | an entry of the next row is the least cost over all routes that end there |
| TurningPoints.NextRow | src/scheduling/request_routing.py:88-107 | a row of least costs gives the next one, with back links to the nodes they came from |
| TurningPoints.WalkBack | src/scheduling/request_routing.py:109-118 | the back links of a finite entry spell out the whole route |
| TurningPoints.FindTurningPoints | src/scheduling/request_routing.py:54-143 | the turns are the places where the best route leaves a node that hosts the next layer, then those where it first enters a node beyond its start |
| WarmUp.TailsLeave | src/scheduling/request_routing.py:122-129 | after the tail turns a node's range ends where the route first left it |
| WarmUp.HeadsEnter | src/scheduling/request_routing.py:133-142 | after the head turns it starts at the node's first use, and no cut on the way empties it |
| WarmUp.CutIsFirstStretch | src/scheduling/scheduler.py:224-234 | what is left of a node on the route is exactly its first unbroken stretch |
| WarmUp.CoverageNeedsNoReturn | src/scheduling/scheduler.py:224-234 | the route's nodes keep covering every layer exactly when the route never returns to a node it has left |
| WarmUp.CoveredUnlessLost | src/scheduling/scheduler.py:224-234 | a layer is lost by the route's nodes exactly when the route comes to it on a node it had left |
| WarmUp.LostLayersAreHeld | src/scheduling/scheduler.py:215-234 | a full pipeline can only be left if every lost layer is hosted by a node off the route |
| WarmUp.WarmedPipeline | src/scheduling/scheduler.py:215-234 | if it never returns, a full pipeline remains |
| WarmUp.ReturningRouteIsBest | src/scheduling/request_routing.py:54-118 | a concrete pair of nodes whose cheapest route returns to a node it has left |
| WarmUp.ReturningRouteLosesThePipeline | src/scheduling/scheduler.py:221-234 | on these two nodes warm-up destroys the only full pipeline |
| WarmUp.ApplyTurns | src/scheduling/scheduler.py:221-234 | turns are applied one after another through the allocator, unknown or unallocated nodes are skipped; it raises exactly when some turn empties a range, and then those before the first such turn were applied and its node is left without a range |
| WarmUp.RunWarmup | src/scheduling/scheduler.py:188-234 | the whole warm-up: never raises, changes nothing without a finite route, otherwise leaves route nodes their first stretch and the others everything; it keeps a full pipeline if the route never returns, and otherwise at most if nodes off the route host every lost layer |
| RoundRobin.PipelineDiscovery | src/scheduling/request_routing.py:235-291 | the list holds every contiguous chain of nodes over all layers, each exactly once, in the order of the search: heads as listed, then shorter ranges first |
| RoundRobin.Dfs | src/scheduling/request_routing.py:265-281 | the search appends every completion of the current path exactly once, shorter next ranges first and equal ones as listed |
| RoundRobin.Candidates | src/scheduling/request_routing.py:271-277 | the candidates at a layer are exactly the nodes that start there and advance, each once, shorter ranges first and equal ones as listed |
| RoundRobin.BuildStartIndex | src/scheduling/request_routing.py:302-312 | the index lists every node with a range once, under its start layer, in the order of the nodes |
| RoundRobin.RepairDfs | src/scheduling/request_routing.py:359-376 | the repair search finds a completion of non-overloaded nodes exactly when there is one, and then the first one: at the first difference from any other it has the shorter range, or the node listed before |
| RoundRobin.AttemptRepair | src/scheduling/request_routing.py:314-384 | the repaired pipeline keeps the longest usable prefix for which that search finds a completion, and takes the completion it finds; there is none exactly when no pipeline of non-overloaded nodes exists at all |
| RoundRobin.RepairIsUnique | src/scheduling/request_routing.py:336-384 | what a repair is determines it: no pipeline has two |
| RoundRobin.Offer | src/scheduling/request_routing.py:410-453 | a listed pipeline offers itself when it is viable with a finite latency, else its repair when that has one, and nothing exactly when neither does |
| RoundRobin.Estimate | src/scheduling/request_routing.py:415-429 | a pipeline is viable when all its nodes are there and not overloaded, and then its latency is the sum of node latencies and transfers |
| RoundRobin.TotalIsCost | src/scheduling/request_routing.py:415-429 | that latency is the cost the shard-level router gives the same nodes |
| RoundRobin.RotationIsNoFaster | src/scheduling/request_routing.py:145-213 | the shard-level router's path takes no longer than any pipeline of active nodes the rotation could return |
| RoundRobin.AllTried | src/scheduling/request_routing.py:409-431 | rotating the cursor once around the list tries every pipeline |
| RoundRobin.Router.constructor | src/scheduling/request_routing.py:231-233 | nothing is cached at first |
| RoundRobin.Router.FindOptimalPath | src/scheduling/request_routing.py:386-455 | while the cached list is up to date, the result is a complete non-overloaded pipeline with its finite latency, is empty exactly when there is none, and is what the first listed pipeline from the cursor on offers that offers anything; the cursor ends right behind that one, or one whole turn on |
| RoundRobin.NextIfGood | src/scheduling/request_routing.py:409-431 | in particular the next pipeline in rotation comes back whenever it is viable with a finite latency |
| RoundRobin.PipelineIsSimple | src/scheduling/request_routing.py:271-281 | no node appears twice in a pipeline |
| RoundRobin.AddRequests | src/scheduling/scheduler.py:417-423 | each node on the path is counted one more request, the others none |
| RoundRobin.DispatchNext | src/scheduling/scheduler.py:405-427 | dispatching takes the pipeline the rotation gives, counts the request on every node of it, and pushes no node past its maximum |
| ClusterBootstrap.BuildShards | src/scheduling/scheduler.py:203-207 | the search works on the listed nodes with their current ranges and measurements |
| ClusterBootstrap.DeallocateAll | src/scheduling/scheduler.py:148-153 | clearing takes every range away, leaves every node that had one inactive and activates none |
| ClusterBootstrap.ClusterScheduler.constructor | src/scheduling/scheduler.py:104-111 | the flag starts out unset |
| ClusterBootstrap.ClusterScheduler.RunWarmupAndTruncate | src/scheduling/scheduler.py:188-234 | warm-up crops the nodes of a cheapest finite route to their first stretch, and nothing when there is no such route; a full pipeline stays if the route never returns, and only if every layer its nodes lose is hosted off it |
| ClusterBootstrap.WarmedIsCropped | src/scheduling/scheduler.py:215-234 | what warm-up leaves is a function of the ranges before it and the route |
| ClusterBootstrap.ClusterScheduler.Rebuild | src/scheduling/scheduler.py:146-161 | global allocation, from scratch when told to clear the flag and the ranges first; what it leaves on success, left-over nodes included, on failure and on a raise, that it activates no node and a clearing one leaves every former host inactive, and that without clearing a full pipeline is left exactly when the plan keeps one |
| ClusterBootstrap.ClusterScheduler.Bootstrap | src/scheduling/scheduler.py:124-181 | true means the flag is set and a full pipeline exists.  A safe flag that is cleared or was not set stays safe.  Otherwise, with no warm-up or on a raise, it stays safe exactly when nothing is attempted, there is no plan, or the plan keeps a full pipeline, all known from nodes and ranges before the call; after a warm-up, exactly when the rebuilt ranges cropped to the route form one: always when the route never returns, and only then if no node off the route hosts a lost layer.  No node is activated, and after a clearing every former host is inactive |
| BootstrapWitness.BestIsTight | src/scheduling/layer_allocation.py:863-961 | an input on which every best plan uses a node without room next to an endpoint, although plans without it exist |
| BootstrapWitness.RaisingBootstrap | src/scheduling/scheduler.py:124-181 | a run on that input: bootstrapped nodes, one more joins, and bootstrapping again without clearing and without warm-up raises with the flag set and the full pipeline gone |
| BootstrapWitness.WarmUpReturns | src/scheduling/scheduler.py:188-234 | an input with room on every node on which the cheapest warm-up route returns and leaves no full pipeline |
| BootstrapWitness.ReturningBootstrap | src/scheduling/scheduler.py:124-181 | a run to that input: bootstrapping again without clearing returns false with the flag set and the full pipeline gone |
| ClusterBootstrap.ClusterScheduler.Join | src/scheduling/scheduler.py:301-344 | a join only adds the joining node's range, from the least loaded layer on and no more than it can store, so a full pipeline stays |
| ClusterBootstrap.ClusterScheduler.StartOver | src/scheduling/scheduler.py:383-386 | clearing and allocating anew raises exactly when the plan cannot be adjusted; with a plan it is in place from scratch and the flag set, without one nothing is allocated and the flag unset; former hosts are inactive |
| ClusterBootstrap.ClusterScheduler.Settle | src/scheduling/scheduler.py:357-386 | after a leave nothing happens with a full pipeline left under balanced load, or without nodes; with one left under unbalanced load all starts over; without one a warm-up crops the ranges to a cheapest route, which is all that happens exactly when that leaves a full pipeline, and otherwise all starts over |
| ClusterBootstrap.ClusterScheduler.Leave | src/scheduling/scheduler.py:346-389 | a leaving node goes with its range, an unknown id raises, and the others are settled: unchanged, cropped, or started over, exactly as stated for Settle.  With nodes left the flag is set only while a full pipeline exists, and stays set whenever a pipeline can be built and the rebuild does not raise; an exception of the rebuild is passed on with the flag unset; with no node left the flag is not touched |
| Rerouting.RouteNow | src/scheduling/request_routing.py:145-213 | over the nodes as they are, the shard-level router finds a path exactly when a chain of active nodes covers all layers at a finite latency, and only active nodes are on it |
| Rerouting.RouteAfterRebuild | src/scheduling/scheduler.py:124-161 | after a clearing bootstrap without warm-up the router finds a path exactly when active nodes chain over all layers at a finite latency, and those can only be nodes that were active and had no range; so it finds none if every node had one, even when the bootstrap succeeded |
| Rerouting.RebuiltUnrouted | src/scheduling/scheduler.py:124-161 | a run to that: a clearing bootstrap succeeds, a full pipeline exists, and no path is found |
| RadixTree.ContentsArePrefixClosed | src/parallax/server/radix_cache.py:19-49 | what the tree stores is closed under prefixes and gives every token sequence one list of positions |
| RadixTree.Exhausted | src/parallax/server/radix_cache.py:260-276 | where no child continues the key, the walk has matched the longest stored prefix |
| RadixTree.SamePath | src/parallax/server/radix_cache.py:26-45 | no two nodes spell the same token sequence |
| RadixTree.SlotsAreUnique | src/parallax/server/radix_cache.py:26-45 | nodes that share tokens share the positions stored for them |
| RadixTree.WalkGoesOn | src/parallax/server/radix_cache.py:258-276 | one more step of a walk passes the child it steps into and no other node |
| RadixEdits.SplitShape | src/parallax/server/radix_cache.py:278-290 | splitting a node keeps the tree well formed |
| RadixEdits.SplitContents | src/parallax/server/radix_cache.py:278-290 | splitting stores nothing new and forgets nothing |
| RadixEdits.SplitKeepsPaths | src/parallax/server/radix_cache.py:278-290 | splitting keeps every old node's token sequence, positions and lock count |
| RadixEdits.GrowContents | src/parallax/server/radix_cache.py:360-366 | a new leaf adds exactly the prefixes of its token sequence |
| RadixEdits.PruneContents | src/parallax/server/radix_cache.py:386-392 | deleting a leaf only forgets |
| RadixLocks.SplitBalanced | src/parallax/server/radix_cache.py:284-284 | copying the lock count to the upper half keeps every count equal to the number of held locks at or below the node |
| RadixLocks.SplitSizes | src/parallax/server/radix_cache.py:278-290 | splitting keeps the token totals of locked and of unlocked nodes |
| RadixLocks.LockedBalanced | src/parallax/server/radix_cache.py:207-217 | locking a root path accounts for exactly one more held lock |
| RadixLocks.UnlockedBalanced | src/parallax/server/radix_cache.py:219-230 | unlocking the root path of a held node accounts for one fewer |
| RadixLocks.UnlockedLeaf | src/parallax/server/radix_cache.py:177-196 | while an unlocked node is left, some unlocked node is a leaf |
| RadixLocks.ClimbedContents | src/parallax/server/radix_cache.py:207-230 | locking moves no node, so the contents stay |
| RadixLeaves.WalkStep | src/parallax/server/radix_cache.py:325-330 | one step of the stack walk keeps every node either done or below exactly one stack entry |
| RadixLeaves.ListChildren | src/parallax/server/radix_cache.py:330-330 | all children are listed once |
| PrefixCache.KeyMatch | src/parallax/server/radix_cache.py:51-58 | the length of the longest common prefix |
| PrefixCache.PopOldest | src/parallax/server/radix_cache.py:184-184 | the popped leaf was accessed no later than any other |
| PrefixCache.Divide | src/parallax/server/radix_cache.py:280-290 | the new node takes the first tokens and the node's place, the old node the rest below it |
| PrefixCache.RadixCache.constructor | src/parallax/server/radix_cache.py:108-116 | an empty cache holds only the empty sequence and both counters are zero |
| PrefixCache.RadixCache.SplitNode | src/parallax/server/radix_cache.py:278-290 | the split in place: contents, counters, paths and lock balance stay |
| PrefixCache.RadixCache.Advance | src/parallax/server/radix_cache.py:260-276 | one step of a walk reaches the child, or its upper half after a split, and matches at least one more token; the child and a new upper half get the time of the walk, no other node does |
| PrefixCache.RadixCache.MatchPrefix | src/parallax/server/radix_cache.py:130-154 | returns the positions of the longest stored prefix and the node that ends it, and leaves the contents unchanged even when it splits a node; exactly the nodes the walk passes or ends within, and new ones, get its time, among them all that end within the matched prefix |
| PrefixCache.RadixCache.AddLeaf | src/parallax/server/radix_cache.py:360-366 | the leaf's tokens become evictable and its prefixes stored, nothing else changes |
| PrefixCache.RadixCache.Locate | src/parallax/server/radix_cache.py:344-358 | the insertion walk ends where the stored part of the key ends, and refreshes exactly the nodes it passes or ends within |
| PrefixCache.RadixCache.Insert | src/parallax/server/radix_cache.py:334-384 | the contents grow by exactly the key's prefixes, the returned length is that of the longest prefix stored before, old positions are kept for it and new ones used beyond, and the evictable counter grows by the rest; exactly the nodes on the walk and new ones get the time of the insertion, among them all that end within the key; an empty key refreshes the root only |
| PrefixCache.RadixCache.CollectLeaves | src/parallax/server/radix_cache.py:320-332 | exactly the childless nodes, each once |
| PrefixCache.RadixCache.DeleteLeaf | src/parallax/server/radix_cache.py:386-392 | the leaf is taken out of its parent and its tokens out of the counter |
| PrefixCache.RadixCache.Evict | src/parallax/server/radix_cache.py:177-196 | contents only shrink, no locked node goes and none moves; with balanced locks at least the smaller of the request and the evictable total is freed, no leaf more than needed, and nothing accessed later than a leaf that could have gone from the start and stays |
| RecentlyUsed.MatchThenEvict | src/parallax/server/radix_cache.py:177-196 | evicting after a match takes no node that ends within the matched tokens as long as an unlocked leaf of an earlier time is left |
| RecentlyUsed.MatchedStays | src/parallax/server/radix_cache.py:177-276 | a run: of two inserted tokens the first is matched again, and evicting one token takes the second |
| PrefixCache.HeldPathsSurvive | src/parallax/server/radix_cache.py:186-193 | every node on the root path of a locked node survives eviction where it was |
| PrefixCache.RadixCache.LockNode | src/parallax/server/radix_cache.py:211-215 | one more lock on one node moves its tokens between the counters when it was unlocked |
| PrefixCache.RadixCache.UnlockNode | src/parallax/server/radix_cache.py:223-228 | one lock fewer moves them back when it was the last |
| PrefixCache.RadixCache.IncreaseLockRef | src/parallax/server/radix_cache.py:207-217 | exactly the nodes on the root path gain a lock, the contents stay, the counters stay token totals, and the returned change is that of the evictable counter |
| PrefixCache.RadixCache.DecreaseLockRef | src/parallax/server/radix_cache.py:219-230 | exactly the nodes on the root path lose a lock they have; the contents stay and the counters stay token totals; matching an earlier lock, counts stay balanced |
| PagedCache.BlockAllocator.constructor | src/parallax/server/cache/allocator.py:11-16 | all blocks start free |
| PagedCache.BlockAllocator.Allocate | src/parallax/server/cache/allocator.py:18-31 | all the blocks asked for from the end of the free list, or none and no change |
| PagedCache.BlockAllocator.Free | src/parallax/server/cache/allocator.py:33-40 | used blocks return to the free list in order, others are skipped |
| PagedCache.SlotAllocator.constructor | src/parallax/server/cache/allocator.py:49-52 | all slots start free |
| PagedCache.SlotAllocator.Allocate | src/parallax/server/cache/allocator.py:54-60 | the last free slot, or -1 and no change |
| PagedCache.SlotAllocator.Free | src/parallax/server/cache/allocator.py:62-68 | a used slot returns to the free list, another is skipped |
| PagedCache.CeilDivStep | src/parallax/server/cache_manager.py:320-327 | one more token needs one more block exactly when the last block is full |
| PagedCache.CeilDivIsLeast | src/parallax/server/cache_manager.py:270-273 | a request takes just as many blocks as hold its tokens |
| PagedCache.AddressInBlock | src/parallax/metal/paged_attention/kernel.py:100-108 | a position's address lies in the block its table gives for it, at its offset |
| PagedCache.AddTable | src/parallax/server/cache_manager.py:270-273 | a new request's table of unused blocks keeps all tables disjoint and tight |
| PagedCache.GrowTable | src/parallax/server/cache_manager.py:320-327 | so does extending a table |
| PagedCache.DropTable | src/parallax/server/cache_manager.py:289-294 | so does dropping one |
| PagedCache.AddSlot | src/parallax/server/cache_manager.py:275-276 | a second slot for a request loses a slot exactly when it had one |
| PagedCache.AddressesAreInjective | src/parallax/metal/paged_attention/kernel.py:100-108 | positions of live requests have addresses in range, and no two share one |
| PagedCache.CacheManager.constructor | src/parallax/server/cache_manager.py:74-108 | a fresh manager holds no request, and all its blocks and slots are free |
| PagedCache.CacheManager.AllocateRequest | src/parallax/server/cache_manager.py:247-286 | succeeds exactly when the request is held in blocks or everything fits, and then takes exactly the blocks its length needs and one slot from the free lists; a failed call restores allocators and tables exactly; with slots only, a call for a held request loses a slot, and in no other case is anything lost |
| PagedCache.ForgottenSlot | src/parallax/server/cache_manager.py:247-286 | a run that loses a slot: slots only, and the same request allocated twice |
| PagedCache.CacheManager.FreeRequest | src/parallax/server/cache_manager.py:288-299 | the request's blocks and slot, and nothing else, return to the free lists |
| PagedCache.CacheManager.AppendSlot | src/parallax/server/cache_manager.py:311-328 | one more token, with a block from the end of the free list exactly when the last is full; fails without change exactly when a block is needed and none is free, and raises exactly for an unknown request |
| PagedCache.CacheManager.TokensDoNotCollide | src/parallax/metal/paged_attention/kernel.py:100-108 | in every valid state tokens of live requests never share a cache place |
| Requests.InitialRequest.constructor | src/parallax/server/request.py:150-182 | a new request is in prefill with no output |
| Requests.InitialRequest.CommitNewToken | src/parallax/server/request.py:212-227 | a running request gains the token and is in decoding; a finished one is left alone |
| Requests.InitialRequest.UpdateStatus | src/parallax/server/request.py:132-141 | a finished status is final |
| Requests.InitialRequest.CheckStatus | src/parallax/server/scheduler.py:173-214 | finished exactly when aborted, ended by an end token, or out of new tokens or total length, with the matching status |
| Requests.InitialRequest.CommitAndCheck | src/parallax/server/executor/vllm_executor.py:155-171 | after commit and check the sequence is within the limit, and a request that goes on has room for another token |
| Requests.HandleRawRequest | src/parallax/server/executor/base_executor.py:577-626 | the prompt is cut and the new-token limit set so that an accepted request fits the sequence limit; it raises exactly when no prompt or no new token is left |
| Requests.LongPromptsAreServed | src/parallax/server/executor/base_executor.py:579-593 | a prompt at or over the limit is still served, cut, exactly when the limit is at least 6 and at least one new token, or no number, was asked for |
| Requests.ShortPromptsAreKept | src/parallax/server/executor/base_executor.py:579-597 | a prompt under the limit is kept whole and gets the new tokens asked for, or all that are left under the limit when those do not fit or no number was named |
| Requests.ToMessage | src/parallax/p2p/message_util.py:26-55 | a message carries the packets as encoded, and is refused exactly when empty, of mixed or of finished status |
| Requests.FromMessage | src/parallax/p2p/message_util.py:66-103 | each received packet is the decoded one |
| Requests.Transmit | src/parallax/p2p/message_util.py:26-103 | sending and receiving keeps position, routing and status, except that an absent next token comes back as 0 and a packet without hidden states comes back finished |
| Requests.WireRoundTrip | src/parallax/p2p/message_util.py:39-98 | decoding an encoded live packet gives it back |
| Requests.HopsKeepPosition | src/parallax/server/request.py:350-360 | any number of intermediate hops keeps position, status, input, routing and next token, and hands on the hidden states of the last hop |
| Requests.LapPosition | src/parallax/server/executor/base_executor.py:281-284 | over a lap of any number of peers each gets the position, input and last committed token; the packet that comes back carries the first peer's total length after the commit, and a single peer makes the same packet at once |
| BatchScheduler.Scheduler.constructor | src/parallax/server/scheduler.py:41-89 | the batch size is the running limit divided by the ratio, rounded down, but at least one |
| BatchScheduler.Scheduler.Enqueue | src/parallax/server/scheduler.py:116-147 | a prefill joins the queue, a decode replaces its running request and goes last, a decode that is not running raises, a finished request is ignored |
| BatchScheduler.Scheduler.Evict | src/parallax/server/scheduler.py:149-162 | exactly the named request leaves; an unknown one raises |
| BatchScheduler.Scheduler.ReleaseAndEvict | src/parallax/server/executor/base_executor.py:383-392 | the request's cache is given back and it leaves the running set, the others keep theirs |
| BatchScheduler.Scheduler.Reserve | src/parallax/server/scheduler.py:227-235 | cache is taken only for a request that holds none; refusal means there is no room, and what had no room still has none |
| BatchScheduler.Scheduler.AdmitRequests | src/parallax/server/scheduler.py:216-242 | admits in queue order until queue or room runs out; running never exceeds the limit, every running request holds its cache, and whoever was looked at is running or the cache still has no room for it |
| BatchScheduler.Scheduler.Candidates | src/parallax/server/scheduler.py:290-298 | the ready prefills and ready decodes, in running order (what is in them: ReadyInKeeps) |
| BatchScheduler.ReadyInKeeps | src/parallax/server/scheduler.py:290-298 | exactly the ready requests of a status are candidates, none of them twice |
| BatchScheduler.Scheduler.Fill | src/parallax/server/scheduler.py:300-318 | packs the list in order onto the batch and counts the charge right |
| BatchScheduler.PackedIsMaximal | src/parallax/server/scheduler.py:300-318 | packing extends the batch, stays within size and budget, and leaves out only what does not fit at the end either |
| BatchScheduler.ReadyInOrder | src/parallax/server/scheduler.py:290-298 | the candidates of a kind stand in running order |
| BatchScheduler.PackedInOrder | src/parallax/server/scheduler.py:300-318 | packing takes candidates in their order, each within the budget when it is taken, and passes over exactly those that did not fit at their turn |
| BatchScheduler.BatchIsGreedy | src/parallax/server/scheduler.py:287-318 | the batch, by positions in the running set alone, is the greedy one |
| BatchScheduler.GreedyIsUnique | src/parallax/server/scheduler.py:287-318 | there is only one greedy batch for running requests, their order and the limits |
| BatchScheduler.NobodyIsOvertaken | src/parallax/server/scheduler.py:287-318 | a ready request that costs no more than one behind it is chosen whenever that one is |
| BatchScheduler.PrefillsAreServed | src/parallax/server/scheduler.py:300-309 | a prefill whose prompt exceeds the budget is passed over by every batch, and the first ready one whose prompt does not is in the batch |
| BatchScheduler.EmptyMeansNoneFits | src/parallax/server/scheduler.py:287-318 | a batch is empty exactly when every ready request exceeds the budget by itself |
| BatchScheduler.Scheduler.Choose | src/parallax/server/scheduler.py:287-318 | the batch is the greedy one: prefills before decodes, each in running order, taking every ready request that fits size and budget after those taken before it; whoever is left out did not fit at its turn and does not fit at the end; a prefill over the budget by itself is never chosen, and the first that is not is; the batch is empty exactly when no ready request fits by itself |
| BatchScheduler.Scheduler.ClearReady | src/parallax/server/scheduler.py:320-323 | the chosen requests wait for their next step |
| BatchScheduler.Scheduler.FormBatch | src/parallax/server/scheduler.py:275-331 | admission and choice together: queue order behind those that were running, then the greedy batch of the running requests, within micro-batch size and token budget, and the chosen ones no longer ready; who is served and when the batch is empty is as exact as for the choice |
| BatchScheduler.BudgetMissesHiddenTokens | src/parallax/server/scheduler.py:304-308 | the tokens a batch really has exceed those it is charged by exactly the prefill tokens its prompt lengths leave out |
| BatchScheduler.NothingMissed | src/parallax/server/scheduler.py:304-308 | the budget sees every token of a batch exactly when each prefill's prompt length is its whole length |
| BatchScheduler.FromPacket | src/parallax/server/request.py:254-297 | a packet becomes a request of prompt length 0 whose length is the packet's position |
| BatchScheduler.LaterPeersMissEveryPrefill | src/parallax/server/request.py:254-297 | on the other peers the budget sees every token exactly when the batch has no prefill |
| BatchScheduler.LaterPeersOverrun | src/parallax/server/request.py:300-348 | two packets the first peer makes of prompts of 4096 tokens are charged nothing on the next peer |
| BatchScheduler.LongPromptNeverRuns | src/parallax/server/scheduler.py:300-307 | a run with 1024 tokens a batch and 2048 a sequence: every prompt of more than 1024 tokens is accepted and admitted, and stays ready over any number of batches |
| Ring.StepKeepsInv | src/parallax/server/executor/vllm_executor.py:135-200 | no step of any peer raises, and each keeps at most one moving copy of every request, with every peer it has passed holding the request |
| Ring.OthersUntouched | src/parallax/server/executor/vllm_executor.py:135-200 | a step concerns one request only |
| Ring.ArriveKeeps | src/parallax/server/executor/vllm_executor.py:142-144 | an arriving request waits on its first peer and nowhere else |
| Ring.AdmitKeeps | src/parallax/server/scheduler.py:216-242 | admission makes the waiting copy ready on that peer, or drops it when the cache is full |
| Ring.ProcessKeeps | src/parallax/server/executor/base_executor.py:656-717 | running a ready request sends its copy to the next hop, in decode phase from the last peer on; alone on its route it is ready again, or over |
| Ring.DeliverKeeps | src/parallax/server/scheduler.py:128-145 | a delivered packet waits when it is a prefill on a later peer, is ready otherwise, or is over at the first peer; a decode packet is always accepted |
| Ring.CommitKeeps | src/parallax/server/executor/vllm_executor.py:145-171 | the first peer's commit leaves the request ready for the next lap, or gone and announced |
| Ring.NextPosition | src/parallax/p2p/server.py:508-525 | the next hop of a peer is the following one on the route, and the first after the last |
| Ring.RunKeepsInv | src/parallax/server/executor/vllm_executor.py:135-200 | the invariant holds in every state of every run |
| Ring.OneCopy | src/parallax/server/scheduler.py:128-145 | in every state of every run a request has at most one waiting, ready or travelling copy |
| Ring.CopiesAreConserved | src/parallax/server/executor/vllm_executor.py:135-200 | in every state of every run a request that arrived has a copy exactly as long as no admission refused it and its last token was not committed |
| Ring.DecodeWasAdmitted | src/parallax/server/scheduler.py:131-136 | in every run a decode packet only travels to peers that have the request running |
| Ring.OverMeansGone | src/parallax/server/executor/base_executor.py:412-417 | once the end of a request is announced no copy of it is left |
| Ring.EndIsAnnounced | src/parallax/p2p/server.py:596-626 | when a request ends at the first peer, every other peer of its route is told |
| Ring.HandleInputRequests | src/parallax/server/executor/vllm_executor.py:190-200 | handling a list of received messages leads to the state of their deliveries in order; none of them raises, and the invariant is kept |
| RingProgress.StepAccounts | src/parallax/server/executor/vllm_executor.py:135-200 | without a refusal, every request that runs on a peer is on that peer's route and still has a copy, or the news of its end is on its way to that peer |
| RingProgress.StepUses | src/parallax/server/executor/vllm_executor.py:135-200 | every step but an arrival uses up what is under way, laps and messages; only a token that is not the last one adds to it, by at most six steps a peer and one |
| RingProgress.RunsAreBounded | src/parallax/server/executor/vllm_executor.py:135-200 | between arrivals every run, in whatever order, is bounded by what is under way and the tokens it commits |
| RingProgress.PeersKept | src/parallax/server/scheduler.py:216-218 | no step changes a running limit or a token budget |
| RingProgress.SomeoneCanMove | src/parallax/server/scheduler.py:216-242 | with running limits and token budgets: when all routes go up in one order of the peers and every prompt fits its first peer's budget, some step can be taken while any request has a copy, so nobody waits for slots in a circle |
| RingProgress.AliveUntilFinished | src/parallax/server/executor/vllm_executor.py:145-171 | without a refusal a request only loses its last copy by the commit of its last token |
| RingProgress.IdleMeansServed | src/parallax/server/executor/vllm_executor.py:135-200 | under these conditions, whatever order the steps take, when no step is left every request has had its last token committed |
| RingProgress.ComesToRest | src/parallax/server/executor/vllm_executor.py:135-200 | and from every such state there is a run to where no copy is left |
| RingProgress.EveryoneIsServed | src/parallax/server/executor/vllm_executor.py:135-200 | the same from every state of every run from an empty ring without refusals |
| RingProgress.LongPromptStarves | src/parallax/server/scheduler.py:300-307 | a prompt over its first peer's budget keeps its request in prefill there in every run: its last token is never committed |
| RingProgress.ServedExactlyIfItFits | src/parallax/server/scheduler.py:300-307 | a request in prefill on its first peer has a run that commits its last token exactly when its prompt fits that peer's budget |
| RingProgress.RefusalStrands | src/parallax/server/scheduler.py:227-237 | a refused admission leaves the request running, without a copy or news of its end, on every peer it had passed |
| RingProgress.StrandedForGood | src/parallax/server/scheduler.py:227-237 | no later step takes it off those peers again |
| RingProgress.OppositeRoutesBlock | src/parallax/server/scheduler.py:216-218 | a run that shows the order of the peers is needed: two requests that pass two peers of one slot in opposite directions block each other for good |

## Left out

- Floating-point rounding: latencies, powers and targets are reals, and capacities are floors of real quotients.
- `should_global_rebalance`'s variance test is a choice made by the caller (`unbalanced`) once a full pipeline exists.
- The greedy allocator, manual and mixed layer assignment, eager allocation in the scheduler's constructor, and heartbeat timeouts.
- Threads, queues between them, condition variables, logging and metrics; each join, leave, dispatch, batch and message is one atomic step.
- Timestamps of tree nodes are arbitrary numbers passed in; request timeouts, aborts from clients and error recovery in the run loop.
- The tensors kept in the prefix tree, page sizes above 1, and `cache_finished_request`, which may unlock a node nobody locked; unlocking such a node is still modelled, only then without lock balance.
- `heapify`: any list with a least record on top stands for the heap, and the eviction heap is a list whose oldest entry is popped.
- A node's start and end layer, which the program sets and clears together, are one optional range.
- The clamp and redistribution after rounding (layer_allocation.py 421-434) are not written out, because the rounded stages are proved to be within their caps; for the same reason the coverage error has no branch.
- `allocate_request` hands back no partial blocks on failure, because the block allocator gives all or none.
- LayerAllocator.Allocator.Allocate: the range must lie within the layers and the node must be unallocated, as it is at every call in the program; a range outside would be half recorded before the error.
- RoundRobin.Router.FindOptimalPath: allocations are those of the cached list; there is no way to drop a stale list in the program, although its documentation names one.
- RoundRobin.DispatchNext: the same holds for the list its router has cached.
- ShardRouting.FindOptimalPath: ranges are nonempty and start at layer 0 or later, as the allocator makes them.
- ClusterBootstrap.ClusterScheduler.Join: the joining node's id is new; a second join of a known id is not part of this model.
- Ring.StepKeepsInv: request ids are unique and routes name known, distinct peers; aborts, timeouts and processing errors do not occur. Batches are run one request at a time: a step may run any ready request that fits the token budget by itself; a peer's batch is empty exactly when no such request is left (`BatchScheduler.EmptyMeansNoneFits`).
- RingProgress.EveryoneIsServed: no admission is refused and no other request arrives while the ring comes to rest; a request that starves beside others is `RingProgress.ServedExactlyIfItFits`.
- Rerouting.RouteAfterRebuild: bootstrapping without the warm-up; the reports that make nodes active again are not part of this model.
- ClusterBootstrap.ClusterScheduler.Bootstrap: the warm-up's route is a result of the call, not a function of nodes, ranges and measurements.
- Requests.InitialRequest.CheckStatus: the two sources of end tokens are one set; the eviction that follows is `BatchScheduler.Scheduler.Evict`; the errors for a peer that is not the first and for a missing end token do not arise; sampling parameters and LoRA paths are not carried.
- BatchScheduler.Scheduler.AdmitRequests: the cache allocates for the length a request has on admission; growth during decoding is `PagedCache.CacheManager.AppendSlot`.
- Model classes, attention kernels beyond the address computation, sampling, tokenisation, weight loading, the HTTP front end and all networking.
