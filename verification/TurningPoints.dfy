/** The layer-level search behind warm-up: the cheapest host for every layer. */
module TurningPoints {
  // Turning points are where that route enters and leaves nodes that host more layers than it uses.

  import opened Outcomes
  import opened ClusterNode
  import opened LayerIndex
  import opened Latency
  import opened ShardRouting

  predicate HostsLayer(nodes: seq<Shard>, i: int, l: int) {
    0 <= i < |nodes| && nodes[i].range.Some? && Hosts(nodes[i].range.value, l)
  }

  /** A host for each of the first layers. */
  predicate Route(nodes: seq<Shard>, path: seq<nat>) {
    forall l :: 0 <= l < |path| ==> HostsLayer(nodes, path[l], l)
  }

  function Hop(nodes: seq<Shard>, j: nat, i: nat): Time
    requires j < |nodes| && i < |nodes|
  {
    if i == j then Fin(0.0) else Transfer(nodes[j], nodes[i])
  }

  /** Layer latencies plus transfers. */
  function RouteCost(nodes: seq<Shard>, path: seq<nat>): Time
    requires path != [] && Route(nodes, path)
  {
    var last := path[|path| - 1];
    assert HostsLayer(nodes, last, |path| - 1);
    if |path| == 1 then nodes[last].latency
    else
      assert HostsLayer(nodes, path[|path| - 2], |path| - 2);
      var init := path[..|path| - 1];
      Plus(Plus(RouteCost(nodes, init), Hop(nodes, path[|path| - 2], last)), nodes[last].latency)
  }

  /** Over whole nodes a route costs what the other router makes of it. */
  lemma {:induction false} RouteCostIsCost(nodes: seq<Shard>, path: seq<nat>)
    requires path != [] && Route(nodes, path)
    ensures (forall k :: 0 <= k < |path| ==> path[k] < |nodes|) && RouteCost(nodes, path) == Cost(nodes, path)
    decreases |path|
  {
    forall k | 0 <= k < |path| ensures path[k] < |nodes| {
      assert HostsLayer(nodes, path[k], k);
    }
    if |path| > 1 {
      var init := path[..|path| - 1];
      assert Route(nodes, init) by {
        assert forall l :: 0 <= l < |init| ==> HostsLayer(nodes, path[l], l);
      }
      RouteCostIsCost(nodes, init);
    }
  }

  ghost predicate RouteTo(nodes: seq<Shard>, path: seq<nat>, l: nat, i: nat) {
    |path| == l + 1 && path[l] == i && Route(nodes, path)
  }

  ghost predicate CostsNoLess(nodes: seq<Shard>, path: seq<nat>, cost: Time) {
    path != [] && Route(nodes, path) && AtMost(cost, RouteCost(nodes, path))
  }

  /** No route to node `i` at layer `l` costs less. */
  ghost predicate LeastAt(nodes: seq<Shard>, l: nat, i: nat, cost: Time) {
    forall path :: RouteTo(nodes, path, l, i) ==> CostsNoLess(nodes, path, cost)
  }

  ghost predicate ReachedBy(nodes: seq<Shard>, l: nat, i: nat, cost: Time, path: seq<nat>) {
    cost.Fin? ==> RouteTo(nodes, path, l, i) && RouteCost(nodes, path) == cost
  }

  type Row = map<nat, Time>

  function Over(nodes: seq<Shard>, row: Row, j: nat, i: nat): Time
    requires j < |nodes| && i < |nodes| && j in row
  {
    Plus(Plus(row[j], Hop(nodes, j, i)), nodes[i].latency)
  }

  lemma LastHopBound(nodes: seq<Shard>, row: Row, l: nat, i: nat, cost: Time, path: seq<nat>)
    requires RouteTo(nodes, path, l + 1, i) && path[l] in row && path[l] < |nodes| && i < |nodes|
    requires LeastAt(nodes, l, path[l], row[path[l]]) && AtMost(cost, Over(nodes, row, path[l], i))
    ensures CostsNoLess(nodes, path, cost)
  {
    var init := path[..l + 1];
    assert Route(nodes, init);
    assert RouteTo(nodes, init, l, path[l]);
    assert CostsNoLess(nodes, init, row[path[l]]);
    PlusMonotone(row[path[l]], RouteCost(nodes, init), Hop(nodes, path[l], i));
    PlusMonotone(Plus(row[path[l]], Hop(nodes, path[l], i)), Plus(RouteCost(nodes, init), Hop(nodes, path[l], i)),
                 nodes[i].latency);
    AtMostTransitive(cost, Over(nodes, row, path[l], i), RouteCost(nodes, path));
  }

  lemma ExtendRoute(nodes: seq<Shard>, l: nat, j: nat, i: nat, cost: Time, path: seq<nat>)
    requires ReachedBy(nodes, l, j, cost, path) && cost.Fin? && HostsLayer(nodes, i, l + 1)
    requires j < |nodes|
    ensures ReachedBy(nodes, l + 1, i, Plus(Plus(cost, Hop(nodes, j, i)), nodes[i].latency), path + [i])
  {
    assert (path + [i])[..|path|] == path;
  }

  /** A row holds the least costs of a layer, the routes that reach them, and the nodes they came from. */
  ghost predicate RowOk(nodes: seq<Shard>, l: nat, row: Row, paths: map<nat, seq<nat>>) {
    && row.Keys == paths.Keys
    && (forall i :: i in row <==> 0 <= i < |nodes| && HostsLayer(nodes, i, l))
    && (forall i :: i in row ==> EntryOk(nodes, l, i, row[i], paths[i]))
  }

  /** A row has an entry for each host of the layer, none above the cost of any route to it. */
  ghost predicate LeastRow(nodes: seq<Shard>, l: nat, row: Row) {
    && (forall i :: i in row <==> 0 <= i < |nodes| && HostsLayer(nodes, i, l))
    && (forall i :: i in row ==> LeastAt(nodes, l, i, row[i]))
  }

  ghost predicate EntryOk(nodes: seq<Shard>, l: nat, i: nat, cost: Time, path: seq<nat>) {
    LeastAt(nodes, l, i, cost) && ReachedBy(nodes, l, i, cost, path)
  }

  /** The back link of an entry: none when the entry is infinite, else the route less its last node. */
  ghost predicate BackOk(row: Row, paths: map<nat, seq<nat>>, prev: Row, prevPaths: map<nat, seq<nat>>, back: map<nat, Option<nat>>) {
    && back.Keys == row.Keys == paths.Keys
    && (forall i :: i in row ==> (back[i].None? <==> row[i] == Inf))
    && (forall i :: i in row && back[i].Some? ==>
          back[i].value in prev && prev[back[i].value].Fin? && back[i].value in prevPaths
          && paths[i] == prevPaths[back[i].value] + [i])
  }

  /** The nodes that host a layer. */
  method HostList(nodes: seq<Shard>, l: nat) returns (hosts: seq<nat>)
    ensures forall i :: i in hosts <==> 0 <= i < |nodes| && HostsLayer(nodes, i, l)
  {
    hosts := [];
    for k := 0 to |nodes|
      invariant forall i :: i in hosts <==> 0 <= i < k && HostsLayer(nodes, i, l)
    {
      if HostsLayer(nodes, k, l) {
        hosts := hosts + [k];
      }
    }
  }

  /** The first row. */
  lemma RowIsLeast(nodes: seq<Shard>, l: nat, row: Row, paths: map<nat, seq<nat>>)
    requires RowOk(nodes, l, row, paths)
    ensures LeastRow(nodes, l, row)
  {
    forall i | i in row ensures LeastAt(nodes, l, i, row[i]) {
      assert EntryOk(nodes, l, i, row[i], paths[i]);
    }
  }

  method FirstRow(nodes: seq<Shard>, hosts: seq<nat>) returns (row: Row, ghost paths: map<nat, seq<nat>>)
    requires forall i :: i in hosts <==> 0 <= i < |nodes| && HostsLayer(nodes, i, 0)
    ensures RowOk(nodes, 0, row, paths) && LeastRow(nodes, 0, row)
  {
    row, paths := map[], map[];
    for k := 0 to |hosts|
      invariant row.Keys == paths.Keys && forall i :: i in row <==> i in hosts[..k]
      invariant forall i :: i in row ==> i < |nodes| && row[i] == nodes[i].latency && paths[i] == [i]
    {
      assert hosts[k] in hosts && hosts[..k + 1] == hosts[..k] + [hosts[k]];
      row, paths := row[hosts[k] := nodes[hosts[k]].latency], paths[hosts[k] := [hosts[k]]];
    }
    assert hosts[..|hosts|] == hosts;
    forall i | i in row ensures EntryOk(nodes, 0, i, row[i], paths[i]) {
      assert HostsLayer(nodes, i, 0);
      forall path | RouteTo(nodes, path, 0, i) ensures CostsNoLess(nodes, path, row[i]) {
        assert path == [i];
      }
    }
  }

  /** The least cost of reaching node `i` at layer `l + 1`. */
  method BestEntry(nodes: seq<Shard>, l: nat, prevHosts: seq<nat>, prev: Row, ghost prevPaths: map<nat, seq<nat>>, i: nat)
      returns (cost: Time, from: Option<nat>, ghost path: seq<nat>)
    requires RowOk(nodes, l, prev, prevPaths) && HostsLayer(nodes, i, l + 1)
    requires forall j :: j in prevHosts <==> j in prev
    ensures EntryOk(nodes, l + 1, i, cost, path)
    ensures from.None? <==> cost == Inf
    ensures from.Some? ==> from.value in prev && prev[from.value].Fin? && path == prevPaths[from.value] + [i]
  {
    hide LeastAt, ReachedBy;
    cost, from, path := Inf, None, [];
    NotReached(nodes, l + 1, i);
    for k := 0 to |prevHosts|
      invariant from.None? <==> cost == Inf
      invariant from.Some? ==> from.value in prev && prev[from.value].Fin? && path == prevPaths[from.value] + [i]
      invariant ReachedBy(nodes, l + 1, i, cost, path)
      invariant forall m :: 0 <= m < k ==>
                  prevHosts[m] in prev && prevHosts[m] < |nodes| && AtMost(cost, Over(nodes, prev, prevHosts[m], i))
    {
      var j := prevHosts[k];
      assert j in prev && EntryOk(nodes, l, j, prev[j], prevPaths[j]);
      if prev[j].Fin? {
        var total := Plus(Plus(prev[j], Hop(nodes, j, i)), nodes[i].latency);
        if Less(total, cost) {
          ExtendRoute(nodes, l, j, i, prev[j], prevPaths[j]);
          cost, from, path := total, Some(j), prevPaths[j] + [i];
        }
      }
    }
    BestIsLeast(nodes, l, prevHosts, prev, prevPaths, i, cost);
  }

  lemma NotReached(nodes: seq<Shard>, l: nat, i: nat)
    ensures ReachedBy(nodes, l, i, Inf, [])
  {
  }

  lemma BestIsLeast(nodes: seq<Shard>, l: nat, prevHosts: seq<nat>, prev: Row, prevPaths: map<nat, seq<nat>>, i: nat, cost: Time)
    requires RowOk(nodes, l, prev, prevPaths) && HostsLayer(nodes, i, l + 1)
    requires forall j :: j in prevHosts <==> j in prev
    requires forall m :: 0 <= m < |prevHosts| ==>
               prevHosts[m] in prev && prevHosts[m] < |nodes| && AtMost(cost, Over(nodes, prev, prevHosts[m], i))
    ensures LeastAt(nodes, l + 1, i, cost)
  {
    forall path | RouteTo(nodes, path, l + 1, i) ensures CostsNoLess(nodes, path, cost) {
      assert HostsLayer(nodes, path[l], l);
      assert path[l] in prev && path[l] in prevHosts;
      assert EntryOk(nodes, l, path[l], prev[path[l]], prevPaths[path[l]]);
      LastHopBound(nodes, prev, l, i, cost, path);
    }
  }

  lemma NothingLinked(prev: Row, prevPaths: map<nat, seq<nat>>)
    ensures BackOk(map[], map[], prev, prevPaths, map[])
  {
  }

  lemma EntryAdded(row: Row, back: map<nat, Option<nat>>, paths: map<nat, seq<nat>>, prev: Row, prevPaths: map<nat, seq<nat>>,
                   i: nat, cost: Time, from: Option<nat>, path: seq<nat>)
    requires BackOk(row, paths, prev, prevPaths, back) && (from.None? <==> cost == Inf)
    requires from.Some? ==>
               from.value in prev && prev[from.value].Fin? && from.value in prevPaths && path == prevPaths[from.value] + [i]
    ensures BackOk(row[i := cost], paths[i := path], prev, prevPaths, back[i := from])
  {
  }

  method NextRow(nodes: seq<Shard>, l: nat, prevHosts: seq<nat>, prev: Row, ghost prevPaths: map<nat, seq<nat>>, hosts: seq<nat>)
      returns (row: Row, back: map<nat, Option<nat>>, ghost paths: map<nat, seq<nat>>)
    requires RowOk(nodes, l, prev, prevPaths) && forall j :: j in prevHosts <==> j in prev
    requires forall i :: i in hosts <==> 0 <= i < |nodes| && HostsLayer(nodes, i, l + 1)
    ensures RowOk(nodes, l + 1, row, paths) && BackOk(row, paths, prev, prevPaths, back)
    ensures LeastRow(nodes, l + 1, row)
  {
    hide EntryOk, BackOk;
    row, back, paths := map[], map[], map[];
    NothingLinked(prev, prevPaths);
    for k := 0 to |hosts|
      invariant BackOk(row, paths, prev, prevPaths, back) && forall i :: i in row <==> i in hosts[..k]
      invariant row.Keys == paths.Keys && forall i :: i in row ==> EntryOk(nodes, l + 1, i, row[i], paths[i])
    {
      var i := hosts[k];
      assert i in hosts && hosts[..k + 1] == hosts[..k] + [i];
      var cost, from, path := BestEntry(nodes, l, prevHosts, prev, prevPaths, i);
      EntryAdded(row, back, paths, prev, prevPaths, i, cost, from, path);
      row, back, paths := row[i := cost], back[i := from], paths[i := path];
    }
    assert hosts[..|hosts|] == hosts;
    RowIsLeast(nodes, l + 1, row, paths);
  }

  /** The least entry of the last row. */
  method CheapestEnd(hosts: seq<nat>, row: Row) returns (best: nat)
    requires hosts != [] && forall i :: i in hosts <==> i in row
    ensures best in row && forall i :: i in row ==> AtMost(row[best], row[i])
  {
    best := hosts[0];
    assert hosts[0] in hosts;
    for k := 1 to |hosts|
      invariant best in row && forall m :: 0 <= m < k ==> hosts[m] in row && AtMost(row[best], row[hosts[m]])
    {
      assert hosts[k] in hosts;
      if Less(row[hosts[k]], row[best]) {
        best := hosts[k];
      }
    }
  }

  ghost predicate LevelOk(nodes: seq<Shard>, rows: seq<Row>, backs: seq<map<nat, Option<nat>>>, paths: seq<map<nat, seq<nat>>>,
                          l: nat)
    requires l < |rows| == |backs| == |paths|
  {
    RowOk(nodes, l, rows[l], paths[l]) && (l > 0 ==> BackOk(rows[l], paths[l], rows[l - 1], paths[l - 1], backs[l]))
  }

  ghost predicate RowsOk(nodes: seq<Shard>, rows: seq<Row>, backs: seq<map<nat, Option<nat>>>, paths: seq<map<nat, seq<nat>>>) {
    |rows| == |backs| == |paths| && forall l :: 0 <= l < |rows| ==> LevelOk(nodes, rows, backs, paths, l)
  }

  /** Follows the back links from the last layer; an infinite entry has none. */
  method WalkBack(nodes: seq<Shard>, ghost rows: seq<Row>, backs: seq<map<nat, Option<nat>>>, ghost paths: seq<map<nat, seq<nat>>>,
                  end: nat) returns (path: seq<nat>)
    requires RowsOk(nodes, rows, backs, paths) && rows != [] && end in rows[|rows| - 1] && end in paths[|rows| - 1]
    ensures rows[|rows| - 1][end].Fin? ==> path == paths[|rows| - 1][end]
    ensures rows[|rows| - 1][end].Inf? ==> path == [end]
  {
    path := [end];
    var li := |backs| - 1;
    ghost var top := |rows| - 1;
    LastRow(nodes, rows, backs, paths, end);
    while li > 0
      invariant 0 <= li <= top && path != [] && path[0] in rows[li] && path[0] in paths[li]
      invariant rows[top][end].Fin? ==> rows[li][path[0]].Fin? && paths[li][path[0]] + path[1..] == paths[top][end]
      invariant rows[top][end].Inf? ==> path == [end] && li == top
    {
      assert LevelOk(nodes, rows, backs, paths, li);
      var prev := backs[li][path[0]];
      if prev.None? {
        break;
      }
      LinkBack(nodes, rows, backs, paths, li, path[0]);
      assert ([prev.value] + path)[1..] == path && [path[0]] + path[1..] == path;
      assert (paths[li - 1][prev.value] + [path[0]]) + path[1..] == paths[li - 1][prev.value] + ([path[0]] + path[1..]);
      path := [prev.value] + path;
      li := li - 1;
    }
    if rows[top][end].Fin? {
      LastLink(nodes, rows, backs, paths, path[0]);
      assert [path[0]] + path[1..] == path;
    }
  }

  lemma LastRow(nodes: seq<Shard>, rows: seq<Row>, backs: seq<map<nat, Option<nat>>>, paths: seq<map<nat, seq<nat>>>, end: nat)
    requires RowsOk(nodes, rows, backs, paths) && rows != [] && end in rows[|rows| - 1]
    ensures end in paths[|rows| - 1] && paths[|rows| - 1][end] + [] == paths[|rows| - 1][end]
  {
    assert LevelOk(nodes, rows, backs, paths, |rows| - 1);
  }

  lemma LinkBack(nodes: seq<Shard>, rows: seq<Row>, backs: seq<map<nat, Option<nat>>>, paths: seq<map<nat, seq<nat>>>, li: nat, i: nat)
    requires RowsOk(nodes, rows, backs, paths) && 0 < li < |rows| && i in rows[li] && i in backs[li] && backs[li][i].Some?
    ensures var j := backs[li][i].value;
            j in rows[li - 1] && rows[li - 1][j].Fin? && i in paths[li] && j in paths[li - 1] && paths[li][i] == paths[li - 1][j] + [i]
  {
    assert LevelOk(nodes, rows, backs, paths, li) && LevelOk(nodes, rows, backs, paths, li - 1);
  }

  lemma LastLink(nodes: seq<Shard>, rows: seq<Row>, backs: seq<map<nat, Option<nat>>>, paths: seq<map<nat, seq<nat>>>, i: nat)
    requires RowsOk(nodes, rows, backs, paths) && rows != [] && i in rows[0] && rows[0][i].Fin?
    ensures i in paths[0] && paths[0][i] == [i]
  {
    assert LevelOk(nodes, rows, backs, paths, 0) && EntryOk(nodes, 0, i, rows[0][i], paths[0][i]);
  }

  ghost predicate EveryLayerHosted(nodes: seq<Shard>, layers: int) {
    forall l :: 0 <= l < layers ==> Hosted(nodes, l)
  }

  ghost predicate Hosted(nodes: seq<Shard>, l: int) {
    exists i :: HostsLayer(nodes, i, l)
  }

  /** The route warm-up works with, unless some layer has no host: a cheapest one if any route has a
      finite cost, and otherwise just the last node. */
  ghost predicate BestRoute(nodes: seq<Shard>, layers: int, path: seq<nat>, cost: Time) {
    && layers > 0 && (forall k :: 0 <= k < |path| ==> path[k] < |nodes|)
    && (forall q: seq<nat> :: |q| == layers && Route(nodes, q) ==> CostsNoLess(nodes, q, cost))
    && (cost.Fin? ==> |path| == layers && Route(nodes, path) && RouteCost(nodes, path) == cost)
    && (cost.Inf? ==> |path| == 1)
  }

  method FindRoute(nodes: seq<Shard>, layers: int) returns (path: seq<nat>, ghost cost: Time)
    ensures path != [] <==> layers > 0 && nodes != [] && EveryLayerHosted(nodes, layers)
    ensures path != [] ==> BestRoute(nodes, layers, path, cost)
  {
    path, cost := [], Inf;
    if layers <= 0 || nodes == [] {
      return;
    }
    var hosts: seq<seq<nat>> := [];
    for l := 0 to layers
      invariant |hosts| == l && forall m :: 0 <= m < l ==> ListsHosts(nodes, hosts[m], m)
    {
      var list := HostList(nodes, l);
      hosts := hosts + [list];
    }
    if exists l | 0 <= l < layers :: hosts[l] == [] {
      NoHost(nodes, layers, hosts);
      return;
    }
    SomeHost(nodes, layers, hosts);
    assert ListsHosts(nodes, hosts[0], 0);
    var row, firstPaths := FirstRow(nodes, hosts[0]);
    ghost var rows, paths := [row], [firstPaths];
    var backs: seq<map<nat, Option<nat>>> := [map[]];
    for l := 1 to layers
      invariant |rows| == l && row == rows[l - 1] && RowsOk(nodes, rows, backs, paths)
    {
      assert ListsHosts(nodes, hosts[l], l) && ListsHosts(nodes, hosts[l - 1], l - 1);
      assert LevelOk(nodes, rows, backs, paths, l - 1);
      var next, back, nextPaths := NextRow(nodes, l - 1, hosts[l - 1], row, paths[l - 1], hosts[l]);
      RowAppended(nodes, rows, backs, paths, next, back, nextPaths);
      row := next;
      rows, backs, paths := rows + [next], backs + [back], paths + [nextPaths];
    }
    assert ListsHosts(nodes, hosts[layers - 1], layers - 1) && LevelOk(nodes, rows, backs, paths, layers - 1);
    var end := CheapestEnd(hosts[layers - 1], row);
    path := WalkBack(nodes, rows, backs, paths, end);
    cost := row[end];
    EndIsBest(nodes, layers, row, paths[layers - 1], end, path);
  }

  ghost predicate ListsHosts(nodes: seq<Shard>, hosts: seq<nat>, l: nat) {
    forall i :: i in hosts <==> 0 <= i < |nodes| && HostsLayer(nodes, i, l)
  }

  lemma NoHost(nodes: seq<Shard>, layers: int, hosts: seq<seq<nat>>)
    requires |hosts| == layers && forall m :: 0 <= m < layers ==> ListsHosts(nodes, hosts[m], m)
    requires exists l :: 0 <= l < layers && hosts[l] == []
    ensures !EveryLayerHosted(nodes, layers)
  {
    var l :| 0 <= l < layers && hosts[l] == [];
    assert ListsHosts(nodes, hosts[l], l);
    var list := hosts[l];
    forall i: int ensures !HostsLayer(nodes, i, l) {
      assert HostsLayer(nodes, i, l) ==> i in list;
    }
    assert !Hosted(nodes, l);
  }

  lemma SomeHost(nodes: seq<Shard>, layers: int, hosts: seq<seq<nat>>)
    requires |hosts| == layers && forall m :: 0 <= m < layers ==> ListsHosts(nodes, hosts[m], m) && hosts[m] != []
    ensures EveryLayerHosted(nodes, layers)
  {
    forall l | 0 <= l < layers ensures Hosted(nodes, l) {
      assert ListsHosts(nodes, hosts[l], l) && hosts[l][0] in hosts[l];
      assert HostsLayer(nodes, hosts[l][0], l);
    }
  }

  lemma RowAppended(nodes: seq<Shard>, rows: seq<Row>, backs: seq<map<nat, Option<nat>>>, paths: seq<map<nat, seq<nat>>>,
                    next: Row, back: map<nat, Option<nat>>, nextPaths: map<nat, seq<nat>>)
    requires RowsOk(nodes, rows, backs, paths) && rows != []
    requires RowOk(nodes, |rows|, next, nextPaths) && BackOk(next, nextPaths, rows[|rows| - 1], paths[|rows| - 1], back)
    ensures RowsOk(nodes, rows + [next], backs + [back], paths + [nextPaths])
  {
    hide RowOk, BackOk;
    forall l | 0 <= l < |rows| + 1 ensures LevelOk(nodes, rows + [next], backs + [back], paths + [nextPaths], l) {
      assert l < |rows| ==> LevelOk(nodes, rows, backs, paths, l);
    }
  }

  lemma EndIsBest(nodes: seq<Shard>, layers: nat, row: Row, paths: map<nat, seq<nat>>, end: nat, path: seq<nat>)
    requires layers > 0 && RowOk(nodes, layers - 1, row, paths) && end in row
    requires forall i :: i in row ==> AtMost(row[end], row[i])
    requires row[end].Fin? ==> path == paths[end]
    requires row[end].Inf? ==> path == [end]
    ensures path != [] && BestRoute(nodes, layers, path, row[end])
  {
    assert EntryOk(nodes, layers - 1, end, row[end], paths[end]);
    forall q: seq<nat> | |q| == layers && Route(nodes, q) ensures CostsNoLess(nodes, q, row[end]) {
      var i := q[layers - 1];
      assert HostsLayer(nodes, i, layers - 1) && i in row;
      assert EntryOk(nodes, layers - 1, i, row[i], paths[i]);
      assert RouteTo(nodes, q, layers - 1, i);
      assert CostsNoLess(nodes, q, row[i]);
      AtMostTransitive(row[end], row[i], RouteCost(nodes, q));
    }
    if row[end].Fin? {
      forall k | 0 <= k < |path| ensures path[k] < |nodes| {
        assert HostsLayer(nodes, path[k], k);
      }
    } else {
      assert path[0] < |nodes|;
    }
  }

  // ----- turning points -----

  datatype Kind = Head | Tail

  /** A tail turn drops the layers from `layer` on, a head turn the layers before it. */
  datatype Turn = Turn(id: NodeId, layer: nat, kind: Kind)

  predicate InNodes(nodes: seq<Shard>, path: seq<nat>) {
    forall k :: 0 <= k < |path| ==> path[k] < |nodes|
  }

  /** Where the route switches away from a node that hosts the next layer too, among the first `n` layers. */
  function Tails(nodes: seq<Shard>, path: seq<nat>, n: nat): seq<Turn>
    requires n <= |path| && InNodes(nodes, path)
  {
    if n <= 1 then []
    else
      var i := path[n - 2];
      Tails(nodes, path, n - 1)
      + if i != path[n - 1] && HostsLayer(nodes, i, n - 1) then [Turn(nodes[i].id, n - 1, Tail)] else []
  }

  /** Where the route first enters a node beyond its start, among the first `n` layers. */
  function Heads(nodes: seq<Shard>, path: seq<nat>, n: nat): seq<Turn>
    requires n <= |path| && InNodes(nodes, path)
  {
    if n == 0 then []
    else
      var i := path[n - 1];
      Heads(nodes, path, n - 1)
      + if i !in path[..n - 1] && nodes[i].range.Some? && n - 1 > nodes[i].range.value.start then
          [Turn(nodes[i].id, n - 1, Head)]
        else []
  }

  method FindTurningPoints(nodes: seq<Shard>, layers: int) returns (turns: seq<Turn>, ghost path: seq<nat>, ghost cost: Time)
    ensures path != [] <==> layers > 0 && nodes != [] && EveryLayerHosted(nodes, layers)
    ensures path != [] ==> BestRoute(nodes, layers, path, cost)
    ensures InNodes(nodes, path) && turns == Tails(nodes, path, |path|) + Heads(nodes, path, |path|)
    ensures turns == [] || TurnsOfBest(nodes, layers, turns)
  {
    var route;
    route, cost := FindRoute(nodes, layers);
    path := route;
    hide Tails, Heads, BestRoute;
    var tails := CollectTails(nodes, route);
    var heads := CollectHeads(nodes, route);
    turns := tails + heads;
    if route == [] {
      NoTurnsAtAll(nodes);
    } else {
      assert TurnsOfBest(nodes, layers, turns);
    }
  }

  /** The turns of some cheapest route. */
  ghost predicate TurnsOfBest(nodes: seq<Shard>, layers: int, turns: seq<Turn>) {
    exists path: seq<nat>, cost ::
      BestRoute(nodes, layers, path, cost) && InNodes(nodes, path)
      && turns == Tails(nodes, path, |path|) + Heads(nodes, path, |path|)
  }

  lemma NoTurnsAtAll(nodes: seq<Shard>)
    ensures Tails(nodes, [], 0) + Heads(nodes, [], 0) == []
  {
  }

  method CollectTails(nodes: seq<Shard>, route: seq<nat>) returns (turns: seq<Turn>)
    requires InNodes(nodes, route)
    ensures turns == Tails(nodes, route, |route|)
  {
    turns := [];
    var li := 1;
    while li < |route|
      invariant 1 <= li && (li <= |route| || route == []) && turns == Tails(nodes, route, if route == [] then 0 else li)
    {
      var prev, cur := route[li - 1], route[li];
      if prev != cur && HostsLayer(nodes, prev, li) {
        turns := turns + [Turn(nodes[prev].id, li, Tail)];
      }
      li := li + 1;
    }
  }

  method CollectHeads(nodes: seq<Shard>, route: seq<nat>) returns (turns: seq<Turn>)
    requires InNodes(nodes, route)
    ensures turns == Heads(nodes, route, |route|)
  {
    turns := [];
    for li := 0 to |route|
      invariant turns == Heads(nodes, route, li)
    {
      var i := route[li];
      if i !in route[..li] && nodes[i].range.Some? && li > nodes[i].range.value.start {
        turns := turns + [Turn(nodes[i].id, li, Head)];
      }
    }
  }
}
