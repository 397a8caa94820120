/** Round-robin routing: enumerating all complete pipelines, rotating over them, and repairing overloaded ones. */
module RoundRobin {
  import opened Outcomes
  import opened Ordering
  import opened ClusterNode
  import opened Latency
  import opened ShardRouting

  type Net = map<NodeId, Shard>

  ghost predicate DistinctShards(nodes: seq<Shard>) {
    forall a, b :: 0 <= a < b < |nodes| ==> nodes[a].id != nodes[b].id
  }

  /** The nodes by id. */
  ghost predicate NetOf(nodes: seq<Shard>, net: Net) {
    && (forall k :: 0 <= k < |nodes| ==> nodes[k].id in net && net[nodes[k].id] == nodes[k])
    && (forall id :: id in net ==> net[id] in nodes && net[id].id == id)
    && (forall id :: id in net && net[id].range.Some? ==> net[id].range.value.start < net[id].range.value.end)
  }

  /** Overloaded nodes answer with an infinite latency. */
  predicate Overloaded(s: Shard) {
    s.latency.Inf?
  }

  predicate StartsAt(net: Net, id: NodeId, layer: int) {
    id in net && net[id].range.Some? && net[id].range.value.start == layer
  }

  function EndOf(net: Net, id: NodeId): int
    requires id in net && net[id].range.Some?
  {
    net[id].range.value.end
  }

  /** Contiguous ranges from layer `from` to layer `to`. */
  ghost predicate Pipeline(net: Net, ids: seq<NodeId>, from: int, to: int) {
    if ids == [] then from == to
    else StartsAt(net, ids[0], from) && EndOf(net, ids[0]) > from && Pipeline(net, ids[1..], EndOf(net, ids[0]), to)
  }

  ghost predicate Healthy(net: Net, ids: seq<NodeId>) {
    forall k :: 0 <= k < |ids| ==> ids[k] in net && !Overloaded(net[ids[k]])
  }

  lemma {:induction false} PipelineGoesUp(net: Net, ids: seq<NodeId>, from: int, to: int)
    requires Pipeline(net, ids, from, to)
    ensures from <= to && (ids != [] ==> from < to)
  {
    if ids != [] {
      PipelineGoesUp(net, ids[1..], EndOf(net, ids[0]), to);
    }
  }

  /** Cutting a pipeline at a node. */
  lemma {:induction false} PipelineCut(net: Net, ids: seq<NodeId>, from: int, to: int, k: nat)
    requires Pipeline(net, ids, from, to) && k < |ids|
    ensures ids[k] in net && net[ids[k]].range.Some?
    ensures Pipeline(net, ids[..k + 1], from, EndOf(net, ids[k]))
    ensures Pipeline(net, ids[k + 1..], EndOf(net, ids[k]), to)
  {
    if k == 0 {
      assert ids[..1][1..] == [];
    } else {
      PipelineCut(net, ids[1..], EndOf(net, ids[0]), to, k - 1);
      assert ids[..k + 1][1..] == ids[1..][..k];
      assert ids[1..][k..] == ids[k + 1..];
    }
  }

  lemma {:induction false} PipelineJoin(net: Net, a: seq<NodeId>, b: seq<NodeId>, from: int, mid: int, to: int)
    requires Pipeline(net, a, from, mid) && Pipeline(net, b, mid, to)
    ensures Pipeline(net, a + b, from, to)
  {
    if a == [] {
      assert a + b == b;
    } else {
      PipelineJoin(net, a[1..], b, EndOf(net, a[0]), mid, to);
      assert (a + b)[1..] == a[1..] + b;
    }
  }

  /** No node appears twice in a pipeline. */
  lemma {:induction false} PipelineIsSimple(net: Net, ids: seq<NodeId>, from: int, to: int, j: nat, k: nat)
    requires Pipeline(net, ids, from, to) && j < k < |ids|
    ensures ids[j] != ids[k]
  {
    if j > 0 {
      PipelineIsSimple(net, ids[1..], EndOf(net, ids[0]), to, j - 1, k - 1);
    } else {
      PipelineCut(net, ids[1..], EndOf(net, ids[0]), to, k - 1);
      PipelineGoesUp(net, ids[1..][..k], EndOf(net, ids[0]), EndOf(net, ids[k]));
    }
  }

  // ----- the index by start layer -----

  type StartMap = map<int, seq<Shard>>

  ghost predicate Among(nodes: seq<Shard>, n: nat, s: Shard)
    requires n <= |nodes|
  {
    exists k :: 0 <= k < n && nodes[k] == s
  }

  ghost predicate StartsTogether(nodes: seq<Shard>, n: nat, list: seq<Shard>, l: int)
    requires n <= |nodes|
  {
    DistinctShards(list) && forall s :: s in list ==> Among(nodes, n, s) && s.range.Some? && s.range.value.start == l
  }

  /** The one comes before the other in the list of nodes. */
  ghost predicate Listed(nodes: seq<Shard>, a: Shard, b: Shard) {
    exists i, j :: 0 <= i < j < |nodes| && nodes[i] == a && nodes[j] == b
  }

  ghost predicate InListOrder(nodes: seq<Shard>, list: seq<Shard>) {
    forall i, j :: 0 <= i < j < |list| ==> Listed(nodes, list[i], list[j])
  }

  /** Every node with a range, once, under its start layer, in the order of the nodes. */
  ghost predicate IndexedByStart(nodes: seq<Shard>, index: StartMap, n: nat)
    requires n <= |nodes|
  {
    && (forall l :: l in index ==> StartsTogether(nodes, n, index[l], l) && InListOrder(nodes, index[l]))
    && (forall k :: 0 <= k < n && nodes[k].range.Some? ==>
          nodes[k].range.value.start in index && nodes[k] in index[nodes[k].range.value.start])
  }

  function ListAt(index: StartMap, layer: int): seq<Shard> {
    if layer in index then index[layer] else []
  }

  lemma ListExtended(nodes: seq<Shard>, list: seq<Shard>, l: int, n: nat)
    requires DistinctShards(nodes) && n < |nodes| && StartsTogether(nodes, n, list, l)
    ensures StartsTogether(nodes, n + 1, list, l)
    ensures nodes[n].range.Some? && nodes[n].range.value.start == l ==> StartsTogether(nodes, n + 1, list + [nodes[n]], l)
    ensures InListOrder(nodes, list) ==> InListOrder(nodes, list + [nodes[n]])
  {
    forall s | s in list ensures Among(nodes, n + 1, s) && s.id != nodes[n].id && Listed(nodes, s, nodes[n]) {
      var k :| 0 <= k < n && nodes[k] == s;
    }
    assert Among(nodes, n + 1, nodes[n]);
    assert forall k :: 0 <= k < |list| ==> list[k] in list;
    assert forall s :: s in list + [nodes[n]] <==> s in list || s == nodes[n];
  }

  lemma IndexExtended(nodes: seq<Shard>, index: StartMap, n: nat)
    requires DistinctShards(nodes) && n < |nodes| && IndexedByStart(nodes, index, n)
    ensures nodes[n].range.None? ==> IndexedByStart(nodes, index, n + 1)
    ensures nodes[n].range.Some? ==>
              var l := nodes[n].range.value.start;
              IndexedByStart(nodes, index[l := ListAt(index, l) + [nodes[n]]], n + 1)
  {
    forall l | l in index ensures StartsTogether(nodes, n + 1, index[l], l) {
      ListExtended(nodes, index[l], l, n);
    }
    if nodes[n].range.Some? {
      var l := nodes[n].range.value.start;
      assert InListOrder(nodes, ListAt(index, l));
      ListExtended(nodes, ListAt(index, l), l, n);
      hide StartsTogether, InListOrder;
      assert nodes[n] in ListAt(index, l) + [nodes[n]];
    }
  }

  method BuildStartIndex(nodes: seq<Shard>) returns (index: StartMap)
    requires DistinctShards(nodes)
    ensures IndexedByStart(nodes, index, |nodes|)
  {
    index := map[];
    for k := 0 to |nodes|
      invariant IndexedByStart(nodes, index, k)
    {
      IndexExtended(nodes, index, k);
      if nodes[k].range.Some? {
        var l := nodes[k].range.value.start;
        index := index[l := ListAt(index, l) + [nodes[k]]];
      }
    }
  }

  function ShorterFirst(): (le: (Shard, Shard) -> bool) {
    (a: Shard, b: Shard) => a.range.None? || b.range.None? || a.range.value.end <= b.range.value.end
  }

  /** What a candidate list promises: the nodes that may follow at the layer, each once. */
  ghost predicate CandidatesAt(net: Net, list: seq<Shard>, layer: int, healthyOnly: bool) {
    && DistinctShards(list)
    && (forall k :: 0 <= k < |list| ==> IsCandidate(net, list[k].id, layer, healthyOnly) && net[list[k].id] == list[k])
    && (forall id :: IsCandidate(net, id, layer, healthyOnly) ==> net[id] in list)
  }

  ghost predicate NamesItself(net: Net) {
    forall id :: id in net ==> net[id].id == id
  }

  predicate IsCandidate(net: Net, id: NodeId, layer: int, healthyOnly: bool) {
    StartsAt(net, id, layer) && EndOf(net, id) > layer && (healthyOnly ==> !Overloaded(net[id]))
  }

  /** Shorter ranges first, and those of one length in the order of the nodes. */
  ghost predicate Sooner(nodes: seq<Shard>, a: Shard, b: Shard) {
    && a.range.Some? && b.range.Some?
    && (a.range.value.end < b.range.value.end || (a.range.value.end == b.range.value.end && Listed(nodes, a, b)))
  }

  ghost predicate Ranked(nodes: seq<Shard>, list: seq<Shard>) {
    forall i, j :: 0 <= i < j < |list| ==> Sooner(nodes, list[i], list[j])
  }

  lemma OneMoreListed(nodes: seq<Shard>, all: seq<Shard>, k: nat, list: seq<Shard>)
    requires k < |all| && InListOrder(nodes, all) && InListOrder(nodes, list) && forall s :: s in list ==> s in all[..k]
    ensures InListOrder(nodes, list + [all[k]])
  {
    hide Listed;
    forall m | 0 <= m < |list| ensures Listed(nodes, list[m], all[k]) {
      assert list[m] in list;
      var p :| 0 <= p < k && all[p] == list[m];
    }
  }

  lemma NoneListedYet(nodes: seq<Shard>)
    ensures InListOrder(nodes, [])
  {
  }

  lemma SortedIsRanked(nodes: seq<Shard>, list: seq<Shard>)
    requires InListOrder(nodes, list) && forall s :: s in list ==> s.range.Some?
    ensures Ranked(nodes, SortBy(ShorterFirst(), list))
  {
    hide Listed;
    var before := (a: Shard, b: Shard) => Listed(nodes, a, b);
    SortByKeepsTies(ShorterFirst(), before, list);
    SortByRearranges(ShorterFirst(), list);
    var sorted := SortBy(ShorterFirst(), list);
    hide SortBy;
    forall i, j | 0 <= i < j < |sorted| ensures Sooner(nodes, sorted[i], sorted[j]) {
      assert sorted[i] in multiset(sorted) && sorted[j] in multiset(sorted);
      assert ShorterFirst()(sorted[i], sorted[j]);
      assert ShorterFirst()(sorted[j], sorted[i]) ==> before(sorted[i], sorted[j]);
    }
  }

  /** The nodes that start at the layer, shorter ranges first. */
  method Candidates(nodes: seq<Shard>, ghost net: Net, index: StartMap, layer: int, healthyOnly: bool) returns (list: seq<Shard>)
    requires NetOf(nodes, net) && IndexedByStart(nodes, index, |nodes|)
    ensures CandidatesAt(net, list, layer, healthyOnly) && Ranked(nodes, list)
  {
    hide Listed, SortBy, Ranked, InListOrder;
    var all := ListAt(index, layer);
    StartList(nodes, net, index, layer);
    list := [];
    NoneListedYet(nodes);
    for k := 0 to |all|
      invariant DistinctShards(list) && forall s :: s in list ==> s in all[..k]
      invariant forall s :: s in list ==> IsCandidate(net, s.id, layer, healthyOnly)
      invariant forall m :: 0 <= m < k && IsCandidate(net, all[m].id, layer, healthyOnly) ==> all[m] in list
      invariant InListOrder(nodes, list) && forall s :: s in list ==> s.range.Some?
    {
      var n := all[k];
      assert all[..k + 1] == all[..k] + [n];
      forall m | 0 <= m < |list| ensures list[m].id != n.id {
        assert list[m] in list && list[m] in all[..k];
      }
      OneMoreListed(nodes, all, k, list);
      if n.range.value.end > layer && (healthyOnly ==> !Overloaded(n)) {
        list := list + [n];
      }
    }
    assert all[..|all|] == all;
    FilteredIsRight(net, all, list, layer, healthyOnly);
    SortKeepsCandidates(net, list, layer, healthyOnly);
    SortedIsRanked(nodes, list);
    list := SortBy(ShorterFirst(), list);
  }

  lemma StartList(nodes: seq<Shard>, net: Net, index: StartMap, layer: int)
    requires NetOf(nodes, net) && IndexedByStart(nodes, index, |nodes|)
    ensures var all := ListAt(index, layer);
            && DistinctShards(all) && InListOrder(nodes, all)
            && (forall k :: 0 <= k < |all| ==> StartsAt(net, all[k].id, layer) && net[all[k].id] == all[k])
            && (forall id :: StartsAt(net, id, layer) ==> net[id] in all)
  {
    var all := ListAt(index, layer);
    forall k | 0 <= k < |all| ensures StartsAt(net, all[k].id, layer) && net[all[k].id] == all[k] {
      assert all[k] in all && Among(nodes, |nodes|, all[k]);
    }
    forall id | StartsAt(net, id, layer) ensures net[id] in all {
      var k :| 0 <= k < |nodes| && nodes[k] == net[id];
    }
  }

  lemma FilteredIsRight(net: Net, all: seq<Shard>, list: seq<Shard>, layer: int, healthyOnly: bool)
    requires DistinctShards(list) && forall s :: s in list ==> s in all && IsCandidate(net, s.id, layer, healthyOnly)
    requires forall m :: 0 <= m < |all| && IsCandidate(net, all[m].id, layer, healthyOnly) ==> all[m] in list
    requires forall k :: 0 <= k < |all| ==> StartsAt(net, all[k].id, layer) && net[all[k].id] == all[k]
    requires forall id :: StartsAt(net, id, layer) ==> net[id] in all
    ensures CandidatesAt(net, list, layer, healthyOnly)
  {
    forall k | 0 <= k < |list| ensures net[list[k].id] == list[k] {
      assert list[k] in list;
    }
    forall id | IsCandidate(net, id, layer, healthyOnly) ensures net[id] in list {
      var m :| 0 <= m < |all| && all[m] == net[id];
      assert StartsAt(net, all[m].id, layer);
    }
  }

  lemma SortKeepsCandidates(net: Net, list: seq<Shard>, layer: int, healthyOnly: bool)
    requires CandidatesAt(net, list, layer, healthyOnly)
    ensures CandidatesAt(net, SortBy(ShorterFirst(), list), layer, healthyOnly)
  {
    SortByRearranges(ShorterFirst(), list);
    var sorted := SortBy(ShorterFirst(), list);
    hide SortBy;
    SameCandidates(net, list, sorted, layer, healthyOnly);
  }

  lemma SameCandidates(net: Net, list: seq<Shard>, sorted: seq<Shard>, layer: int, healthyOnly: bool)
    requires CandidatesAt(net, list, layer, healthyOnly) && multiset(sorted) == multiset(list)
    ensures CandidatesAt(net, sorted, layer, healthyOnly)
  {
    forall k | 0 <= k < |sorted|
      ensures IsCandidate(net, sorted[k].id, layer, healthyOnly) && net[sorted[k].id] == sorted[k]
    {
      assert sorted[k] in multiset(sorted);
      var m := FindIn(sorted[k], list);
    }
    forall id | IsCandidate(net, id, layer, healthyOnly) ensures net[id] in sorted {
      assert net[id] in multiset(list);
    }
    forall a, b | 0 <= a < b < |sorted| ensures sorted[a].id != sorted[b].id {
      EachOnce(list, sorted[a]);
      if sorted[a] == sorted[b] {
        Twice(sorted, a, b);
      }
    }
  }

  // ----- enumerating all pipelines -----

  /** The latest end layer of any node. */
  function LastEnd(nodes: seq<Shard>): (m: int)
    ensures forall k :: 0 <= k < |nodes| && nodes[k].range.Some? ==> nodes[k].range.value.end <= m
  {
    if nodes == [] then 0
    else
      var m := LastEnd(nodes[1..]);
      if nodes[0].range.Some? && nodes[0].range.value.end > m then nodes[0].range.value.end else m
  }

  /** How far a search can still go. */
  function Left(nodes: seq<Shard>, layer: int): nat {
    if layer < LastEnd(nodes) then LastEnd(nodes) - layer else 0
  }

  lemma CandidatesGoUp(nodes: seq<Shard>, net: Net, layer: int, id: NodeId, healthyOnly: bool)
    requires NetOf(nodes, net) && IsCandidate(net, id, layer, healthyOnly)
    ensures Left(nodes, EndOf(net, id)) < Left(nodes, layer)
  {
    var k :| 0 <= k < |nodes| && nodes[k] == net[id];
  }

  /** `added` lists, each once, the extensions of `path` by a pipeline from `from` to `to`. */
  ghost predicate ListsExtensions(net: Net, added: seq<seq<NodeId>>, path: seq<NodeId>, from: int, to: int) {
    && (forall i, j :: 0 <= i < j < |added| ==> added[i] != added[j])
    && (forall q :: q in added <==> path <= q && Pipeline(net, q[|path|..], from, to))
  }

  /** The same, as far as the next node is among the first `k` candidates. */
  ghost predicate ListsSome(net: Net, added: seq<seq<NodeId>>, path: seq<NodeId>, from: int, to: int, list: seq<Shard>, k: nat)
    requires k <= |list|
  {
    && (forall i, j :: 0 <= i < j < |added| ==> added[i] != added[j])
    && (forall q :: q in added <==>
          path <= q && Pipeline(net, q[|path|..], from, to) && |q| > |path| && Picked(list, k, q[|path|]))
  }

  ghost predicate Picked(list: seq<Shard>, k: nat, id: NodeId)
    requires k <= |list|
  {
    exists m :: 0 <= m < k && list[m].id == id
  }

  /** At the first difference the one goes on with a shorter range than the other, or with one of the same length
      that is listed before. */
  ghost predicate Earlier(nodes: seq<Shard>, net: Net, a: seq<NodeId>, b: seq<NodeId>) {
    && a != [] && b != [] && a[0] in net && b[0] in net
    && (if a[0] == b[0] then Earlier(nodes, net, a[1..], b[1..]) else Sooner(nodes, net[a[0]], net[b[0]]))
  }

  /** The extensions stand in that order. */
  ghost predicate InOrder(nodes: seq<Shard>, net: Net, added: seq<seq<NodeId>>, path: seq<NodeId>) {
    forall i, j :: 0 <= i < j < |added| ==> Follows(nodes, net, path, added[i], added[j])
  }

  ghost predicate Follows(nodes: seq<Shard>, net: Net, path: seq<NodeId>, a: seq<NodeId>, b: seq<NodeId>) {
    |a| >= |path| && |b| >= |path| && Earlier(nodes, net, a[|path|..], b[|path|..])
  }

  /** The next candidate's extensions come after those of the candidates before it. */
  lemma NextInOrder(nodes: seq<Shard>, net: Net, added: seq<seq<NodeId>>, more: seq<seq<NodeId>>, path: seq<NodeId>, from: int,
                    to: int, list: seq<Shard>, k: nat)
    requires k < |list| && CandidatesAt(net, list, from, false) && Ranked(nodes, list)
    requires ListsSome(net, added, path, from, to, list, k) && InOrder(nodes, net, added, path)
    requires list[k].id in net && net[list[k].id].range.Some?
    requires ListsExtensions(net, more, path + [list[k].id], EndOf(net, list[k].id), to)
    requires InOrder(nodes, net, more, path + [list[k].id])
    ensures InOrder(nodes, net, added + more, path)
  {
    hide Follows, CandidatesAt, ListsExtensions, ListsSome, Ranked;
    var all := added + more;
    forall i, j | 0 <= i < j < |all| ensures Follows(nodes, net, path, all[i], all[j]) {
      if j < |added| {
        assert all[i] == added[i] && all[j] == added[j];
      } else if i < |added| {
        PickedFollows(nodes, net, added, more, path, from, to, list, k, i, j - |added|);
      } else {
        assert all[i] == more[i - |added|] && all[j] == more[j - |added|];
        FollowsLonger(nodes, net, more, path, list[k].id, EndOf(net, list[k].id), to, all[i], all[j]);
      }
    }
  }

  lemma FollowsLonger(nodes: seq<Shard>, net: Net, more: seq<seq<NodeId>>, path: seq<NodeId>, id: NodeId, from: int, to: int,
                      a: seq<NodeId>, b: seq<NodeId>)
    requires ListsExtensions(net, more, path + [id], from, to) && a in more && b in more && id in net
    requires Follows(nodes, net, path + [id], a, b)
    ensures Follows(nodes, net, path, a, b)
  {
    hide ListsExtensions;
    BeginsWith(net, more, path, id, from, to, a);
    BeginsWith(net, more, path, id, from, to, b);
  }

  lemma PickedFollows(nodes: seq<Shard>, net: Net, added: seq<seq<NodeId>>, more: seq<seq<NodeId>>, path: seq<NodeId>, from: int,
                      to: int, list: seq<Shard>, k: nat, i: nat, j: nat)
    requires k < |list| && CandidatesAt(net, list, from, false) && Ranked(nodes, list) && i < |added| && j < |more|
    requires ListsSome(net, added, path, from, to, list, k) && list[k].id in net && net[list[k].id].range.Some?
    requires ListsExtensions(net, more, path + [list[k].id], EndOf(net, list[k].id), to)
    ensures Follows(nodes, net, path, added[i], more[j])
  {
    hide Pipeline, Sooner;
    var a, b := added[i], more[j];
    BeginsWith(net, more, path, list[k].id, EndOf(net, list[k].id), to, b);
    assert a in added;
    var m :| 0 <= m < k && list[m].id == a[|path|];
    assert a[|path|..][0] == list[m].id;
    assert Sooner(nodes, list[m], list[k]) && list[m].id != list[k].id;
    assert IsCandidate(net, list[m].id, from, false) && IsCandidate(net, list[k].id, from, false);
  }

  lemma BeginsWith(net: Net, more: seq<seq<NodeId>>, path: seq<NodeId>, id: NodeId, from: int, to: int, q: seq<NodeId>)
    requires ListsExtensions(net, more, path + [id], from, to) && q in more
    ensures |q| > |path| && q[|path|..] != [] && q[|path|..][0] == id && q[|path|..][1..] == q[|path + [id]|..]
  {
  }

  lemma OneInOrder(nodes: seq<Shard>, net: Net, path: seq<NodeId>)
    ensures InOrder(nodes, net, [], path) && InOrder(nodes, net, [path], path)
  {
  }

  lemma NextPicked(net: Net, added: seq<seq<NodeId>>, more: seq<seq<NodeId>>, path: seq<NodeId>, from: int, to: int,
                   list: seq<Shard>, k: nat)
    requires k < |list| && CandidatesAt(net, list, from, false) && ListsSome(net, added, path, from, to, list, k)
    requires list[k].id in net && net[list[k].id].range.Some?
    requires ListsExtensions(net, more, path + [list[k].id], EndOf(net, list[k].id), to)
    ensures ListsSome(net, added + more, path, from, to, list, k + 1)
  {
    var id := list[k].id;
    MoreBegin(net, more, path, from, to, list, k);
    NotPickedYet(list, k);
    hide Pipeline, CandidatesAt, ListsExtensions, Picked;
    forall q: seq<NodeId> | |q| > |path|
      ensures Picked(list, k + 1, q[|path|]) <==> Picked(list, k, q[|path|]) || q[|path|] == id
    {
      OnePicked(list, k, q[|path|]);
    }
    forall i, j | 0 <= i < j < |added + more| ensures (added + more)[i] != (added + more)[j] {
      if i < |added| <= j {
        assert added[i] in added && more[j - |added|] in more;
      }
    }
  }

  lemma MoreBegin(net: Net, more: seq<seq<NodeId>>, path: seq<NodeId>, from: int, to: int, list: seq<Shard>, k: nat)
    requires k < |list| && CandidatesAt(net, list, from, false) && list[k].id in net && net[list[k].id].range.Some?
    requires ListsExtensions(net, more, path + [list[k].id], EndOf(net, list[k].id), to)
    ensures forall q :: q in more <==>
              path <= q && |q| > |path| && q[|path|] == list[k].id && Pipeline(net, q[|path|..], from, to)
  {
    assert IsCandidate(net, list[k].id, from, false);
    forall q: seq<NodeId>
      ensures q in more <==> path <= q && |q| > |path| && q[|path|] == list[k].id && Pipeline(net, q[|path|..], from, to)
    {
      PickStep(net, path, from, to, list[k].id, q);
    }
  }

  lemma OnePicked(list: seq<Shard>, k: nat, id: NodeId)
    requires k < |list|
    ensures Picked(list, k + 1, id) <==> Picked(list, k, id) || id == list[k].id
  {
    assert id == list[k].id ==> list[k].id == id;
  }

  lemma NotPickedYet(list: seq<Shard>, k: nat)
    requires DistinctShards(list) && k < |list|
    ensures !Picked(list, k, list[k].id)
  {
  }

  lemma PickStep(net: Net, path: seq<NodeId>, from: int, to: int, id: NodeId, q: seq<NodeId>)
    requires IsCandidate(net, id, from, false)
    ensures path + [id] <= q && Pipeline(net, q[|path + [id]|..], EndOf(net, id), to) <==>
            path <= q && |q| > |path| && q[|path|] == id && Pipeline(net, q[|path|..], from, to)
  {
    if path <= q && |q| > |path| {
      assert q[|path|..][1..] == q[|path| + 1..];
    }
  }

  lemma AllPicked(net: Net, added: seq<seq<NodeId>>, path: seq<NodeId>, from: int, to: int, list: seq<Shard>)
    requires from != to && CandidatesAt(net, list, from, false) && NamesItself(net)
    requires ListsSome(net, added, path, from, to, list, |list|)
    ensures ListsExtensions(net, added, path, from, to)
  {
    forall q | path <= q && Pipeline(net, q[|path|..], from, to) ensures q in added {
      assert q[|path|..] != [];
      var id := q[|path|];
      assert q[|path|..][0] == id;
      assert IsCandidate(net, id, from, false);
      var m :| 0 <= m < |list| && list[m] == net[id];
      assert IsCandidate(net, list[m].id, from, false);
    }
  }

  lemma ItselfNamed(nodes: seq<Shard>, net: Net)
    requires NetOf(nodes, net)
    ensures NamesItself(net)
  {
  }

  lemma NothingPicked(net: Net, path: seq<NodeId>, from: int, to: int, list: seq<Shard>)
    ensures ListsSome(net, [], path, from, to, list, 0)
  {
  }

  /** At the last layer the path itself is the only extension. */
  lemma EndReached(net: Net, path: seq<NodeId>, layer: int)
    ensures ListsExtensions(net, [path], path, layer, layer)
  {
    forall q | path <= q && Pipeline(net, q[|path|..], layer, layer) ensures q == path {
      PipelineGoesUp(net, q[|path|..], layer, layer);
      assert q == path + q[|path|..];
    }
    assert path[|path|..] == [];
  }

  /** Extends the path in every way to a complete pipeline, pushing and popping one node at a time. */
  method Dfs(nodes: seq<Shard>, ghost net: Net, index: StartMap, layers: int, current: int, path: seq<NodeId>,
             found: seq<seq<NodeId>>) returns (found': seq<seq<NodeId>>)
    requires NetOf(nodes, net) && IndexedByStart(nodes, index, |nodes|)
    ensures found <= found' && ListsExtensions(net, found'[|found|..], path, current, layers)
    ensures InOrder(nodes, net, found'[|found|..], path)
    decreases Left(nodes, current)
  {
    hide NetOf, IndexedByStart, CandidatesAt, ListsExtensions, ListsSome, Pipeline, Left, InOrder, Ranked;
    found' := found;
    OneInOrder(nodes, net, path);
    if current == layers {
      EndReached(net, path, layers);
      found' := found + [path];
      assert found'[|found|..] == [path];
      return;
    }
    var list := Candidates(nodes, net, index, current, false);
    NothingPicked(net, path, current, layers, list);
    assert found'[|found|..] == [];
    for k := 0 to |list|
      invariant found <= found' && ListsSome(net, found'[|found|..], path, current, layers, list, k)
      invariant InOrder(nodes, net, found'[|found|..], path)
    {
      var next := list[k];
      CandidateFacts(nodes, net, list, current, false, k);
      ghost var before := found';
      found' := Dfs(nodes, net, index, layers, next.range.value.end, path + [next.id], found');
      NextPicked(net, before[|found|..], found'[|before|..], path, current, layers, list, k);
      NextInOrder(nodes, net, before[|found|..], found'[|before|..], path, current, layers, list, k);
      assert found'[|found|..] == before[|found|..] + found'[|before|..];
    }
    ItselfNamed(nodes, net);
    AllPicked(net, found'[|found|..], path, current, layers, list);
  }

  lemma CandidateFacts(nodes: seq<Shard>, net: Net, list: seq<Shard>, layer: int, healthyOnly: bool, k: nat)
    requires NetOf(nodes, net) && CandidatesAt(net, list, layer, healthyOnly) && k < |list|
    ensures list[k].id in net && net[list[k].id] == list[k] && list[k].range.Some?
    ensures Left(nodes, list[k].range.value.end) < Left(nodes, layer)
    ensures healthyOnly ==> !Overloaded(list[k])
    ensures list[k].range.value.start == layer < list[k].range.value.end
  {
    assert IsCandidate(net, list[k].id, layer, healthyOnly);
    CandidatesGoUp(nodes, net, layer, list[k].id, healthyOnly);
  }

  /** First by where their first nodes are listed, then as the search goes on. */
  ghost predicate InSearchOrder(nodes: seq<Shard>, net: Net, pipelines: seq<seq<NodeId>>) {
    forall i, j :: 0 <= i < j < |pipelines| ==> Searched(nodes, net, pipelines[i], pipelines[j])
  }

  ghost predicate Searched(nodes: seq<Shard>, net: Net, a: seq<NodeId>, b: seq<NodeId>) {
    && a != [] && b != [] && a[0] in net && b[0] in net
    && (if a[0] == b[0] then Earlier(nodes, net, a[1..], b[1..]) else Listed(nodes, net[a[0]], net[b[0]]))
  }

  lemma NextHead(nodes: seq<Shard>, net: Net, found: seq<seq<NodeId>>, more: seq<seq<NodeId>>, layers: int, heads: seq<Shard>, k: nat)
    requires k < |heads| && CandidatesAt(net, heads, 0, false) && InListOrder(nodes, heads)
    requires ListsSome(net, found, [], 0, layers, heads, k) && InSearchOrder(nodes, net, found)
    requires heads[k].id in net && net[heads[k].id].range.Some?
    requires ListsExtensions(net, more, [heads[k].id], EndOf(net, heads[k].id), layers)
    requires InOrder(nodes, net, more, [heads[k].id])
    ensures InSearchOrder(nodes, net, found + more)
  {
    hide Pipeline, Listed, Earlier, Sooner;
    var all := found + more;
    forall i, j | 0 <= i < j < |all| ensures Searched(nodes, net, all[i], all[j]) {
      if j < |found| {
        assert all[i] == found[i] && all[j] == found[j];
      } else {
        var b := more[j - |found|];
        assert b in more;
        assert IsCandidate(net, heads[k].id, 0, false);
        if i < |found| {
          assert found[i] in found;
          var m :| 0 <= m < k && heads[m].id == found[i][0];
          assert IsCandidate(net, heads[m].id, 0, false);
          assert Listed(nodes, heads[m], heads[k]) && heads[m].id != heads[k].id;
        } else {
          assert more[i - |found|] in more;
        }
      }
    }
  }

  /** Lists every complete pipeline over the layers, each once, in the order of the search. */
  method PipelineDiscovery(nodes: seq<Shard>, ghost net: Net, layers: int) returns (pipelines: seq<seq<NodeId>>)
    requires NetOf(nodes, net) && DistinctShards(nodes)
    ensures nodes == [] || layers <= 0 ==> pipelines == []
    ensures layers > 0 ==> ListsExtensions(net, pipelines, [], 0, layers) && InSearchOrder(nodes, net, pipelines)
  {
    hide NetOf, CandidatesAt, ListsExtensions, ListsSome, Pipeline, DistinctShards, InOrder, InSearchOrder, InListOrder, IndexedByStart;
    NoneInSearchOrder(nodes, net);
    pipelines := [];
    if nodes == [] || layers <= 0 {
      if layers > 0 {
        NoNodesNoPipelines(nodes, net, layers);
      }
      return;
    }
    var index := BuildStartIndex(nodes);
    var heads := ListAt(index, 0);
    HeadsAreCandidates(nodes, net, index);
    NothingPicked(net, [], 0, layers, heads);
    for k := 0 to |heads|
      invariant ListsSome(net, pipelines, [], 0, layers, heads, k) && InSearchOrder(nodes, net, pipelines)
    {
      CandidateFacts(nodes, net, heads, 0, false, k);
      ghost var before := pipelines;
      pipelines := Dfs(nodes, net, index, layers, heads[k].range.value.end, [heads[k].id], pipelines);
      assert [] + [heads[k].id] == [heads[k].id];
      NextPicked(net, before, pipelines[|before|..], [], 0, layers, heads, k);
      NextHead(nodes, net, before, pipelines[|before|..], layers, heads, k);
      assert pipelines == before + pipelines[|before|..];
    }
    ItselfNamed(nodes, net);
    AllPicked(net, pipelines, [], 0, layers, heads);
  }

  lemma NoneInSearchOrder(nodes: seq<Shard>, net: Net)
    ensures InSearchOrder(nodes, net, [])
  {
  }

  lemma NoNodesNoPipelines(nodes: seq<Shard>, net: Net, layers: int)
    requires NetOf(nodes, net) && nodes == [] && layers > 0
    ensures ListsExtensions(net, [], [], 0, layers)
  {
  }

  lemma HeadsAreCandidates(nodes: seq<Shard>, net: Net, index: StartMap)
    requires NetOf(nodes, net) && IndexedByStart(nodes, index, |nodes|)
    ensures CandidatesAt(net, ListAt(index, 0), 0, false) && InListOrder(nodes, ListAt(index, 0))
  {
    StartList(nodes, net, index, 0);
  }

  // ----- repair -----

  ghost predicate HealthyPipeline(net: Net, ids: seq<NodeId>, from: int, to: int) {
    Pipeline(net, ids, from, to) && Healthy(net, ids)
  }

  ghost predicate NoneHealthy(net: Net, from: int, to: int) {
    forall s :: !HealthyPipeline(net, s, from, to)
  }

  /** Nothing healthy starts with any of the first `k` candidates. */
  ghost predicate NoneBelow(net: Net, list: seq<Shard>, k: nat, to: int)
    requires k <= |list|
  {
    forall m :: 0 <= m < k && list[m].range.Some? ==> NoneHealthy(net, list[m].range.value.end, to)
  }

  /** A healthy pipeline that comes before every other one. */
  ghost predicate FirstHealthy(nodes: seq<Shard>, net: Net, ids: seq<NodeId>, from: int, to: int) {
    HealthyPipeline(net, ids, from, to)
    && forall q :: HealthyPipeline(net, q, from, to) && q != ids ==> Earlier(nodes, net, ids, q)
  }

  /** With no help from the candidates before it, the first pipeline that goes on with a candidate is first of all. */
  lemma FirstGoesOn(nodes: seq<Shard>, net: Net, list: seq<Shard>, k: nat, s: seq<NodeId>, from: int, to: int)
    requires from != to && k < |list| && CandidatesAt(net, list, from, true) && Ranked(nodes, list) && NamesItself(net)
    requires NoneBelow(net, list, k, to) && IsCandidate(net, list[k].id, from, true)
    requires FirstHealthy(nodes, net, s, EndOf(net, list[k].id), to)
    ensures FirstHealthy(nodes, net, [list[k].id] + s, from, to)
  {
    var id := list[k].id;
    ExtendHealthy(net, id, s, from, to);
    var ids := [id] + s;
    assert ids[1..] == s;
    hide Ranked, CandidatesAt, Sooner;
    forall q | HealthyPipeline(net, q, from, to) && q != ids ensures Earlier(nodes, net, ids, q) {
      StepsOn(net, q, from, to);
      var m := Among0(net, list, q[0], from);
      NotBelow(net, list, k, m, q[1..], to);
      if m == k {
        assert q == [q[0]] + q[1..];
      } else {
        RankedPair(nodes, net, list, k, m, from);
      }
    }
  }

  lemma NotBelow(net: Net, list: seq<Shard>, k: nat, m: nat, rest: seq<NodeId>, to: int)
    requires k < |list| && m < |list| && NoneBelow(net, list, k, to) && list[m].range.Some?
    requires HealthyPipeline(net, rest, list[m].range.value.end, to)
    ensures m >= k
  {
  }

  lemma StepsOn(net: Net, q: seq<NodeId>, from: int, to: int)
    requires from != to && HealthyPipeline(net, q, from, to)
    ensures q != [] && IsCandidate(net, q[0], from, true) && HealthyPipeline(net, q[1..], EndOf(net, q[0]), to)
  {
  }

  lemma Among0(net: Net, list: seq<Shard>, id: NodeId, from: int) returns (m: nat)
    requires CandidatesAt(net, list, from, true) && IsCandidate(net, id, from, true) && NamesItself(net)
    ensures m < |list| && list[m] == net[id] && list[m].id == id && list[m].range.Some?
  {
    m :| 0 <= m < |list| && list[m] == net[id];
  }

  lemma RankedPair(nodes: seq<Shard>, net: Net, list: seq<Shard>, k: nat, m: nat, from: int)
    requires k < m < |list| && CandidatesAt(net, list, from, true) && Ranked(nodes, list)
    ensures list[k].id in net && list[m].id in net && list[k].id != list[m].id
    ensures Sooner(nodes, net[list[k].id], net[list[m].id])
  {
  }

  lemma NoCandidateHelps(net: Net, list: seq<Shard>, from: int, to: int)
    requires from != to && CandidatesAt(net, list, from, true) && NamesItself(net) && NoneBelow(net, list, |list|, to)
    ensures NoneHealthy(net, from, to)
  {
    forall s ensures !HealthyPipeline(net, s, from, to) {
      if s != [] && IsCandidate(net, s[0], from, true) {
        var m :| 0 <= m < |list| && list[m] == net[s[0]];
        assert NoneHealthy(net, list[m].range.value.end, to);
        assert !HealthyPipeline(net, s[1..], EndOf(net, s[0]), to);
      }
    }
  }

  lemma ExtendHealthy(net: Net, id: NodeId, s: seq<NodeId>, from: int, to: int)
    requires IsCandidate(net, id, from, true) && HealthyPipeline(net, s, EndOf(net, id), to)
    ensures HealthyPipeline(net, [id] + s, from, to)
  {
    assert ([id] + s)[1..] == s;
  }

  /** Looks for a pipeline of nodes that are not overloaded, and finds the first one if there is any. */
  method RepairDfs(nodes: seq<Shard>, ghost net: Net, index: StartMap, layers: int, layer: int, acc: seq<NodeId>)
      returns (done: bool, suffix: seq<NodeId>)
    requires NetOf(nodes, net) && IndexedByStart(nodes, index, |nodes|)
    ensures done ==> acc <= suffix && FirstHealthy(nodes, net, suffix[|acc|..], layer, layers)
    ensures !done ==> NoneHealthy(net, layer, layers)
    decreases Left(nodes, layer)
  {
    hide NetOf, IndexedByStart, CandidatesAt, NoneHealthy, HealthyPipeline, Left, FirstHealthy, Ranked;
    ItselfNamed(nodes, net);
    if layer == layers {
      assert FirstHealthy(nodes, net, [], layer, layers) by { EmptyIsHealthy(nodes, net, layer); }
      assert acc[|acc|..] == [];
      return true, acc;
    }
    var list := Candidates(nodes, net, index, layer, true);
    for k := 0 to |list|
      invariant NoneBelow(net, list, k, layers)
    {
      var next := list[k];
      CandidateFacts(nodes, net, list, layer, true, k);
      done, suffix := RepairDfs(nodes, net, index, layers, next.range.value.end, acc + [next.id]);
      if done {
        FirstGoesOn(nodes, net, list, k, suffix[|acc + [next.id]|..], layer, layers);
        assert suffix[|acc|..] == [next.id] + suffix[|acc + [next.id]|..];
        return;
      }
    }
    NoCandidateHelps(net, list, layer, layers);
    done, suffix := false, [];
  }

  lemma EmptyIsHealthy(nodes: seq<Shard>, net: Net, layer: int)
    ensures FirstHealthy(nodes, net, [], layer, layer)
  {
    forall q | HealthyPipeline(net, q, layer, layer) ensures q == [] {
      PipelineGoesUp(net, q, layer, layer);
    }
  }

  /** The layer at which the first `split` nodes end. */
  function EndAt(net: Net, ids: seq<NodeId>, split: nat): int
    requires split <= |ids| && (split > 0 ==> ids[split - 1] in net && net[ids[split - 1]].range.Some?)
  {
    if split == 0 then 0 else EndOf(net, ids[split - 1])
  }

  /** The first `split` nodes are usable, and cannot be completed. */
  ghost predicate DeadEnd(net: Net, ids: seq<NodeId>, layers: int, split: nat)
    requires split <= |ids|
  {
    Healthy(net, ids[..split]) ==>
      (split > 0 ==> ids[split - 1] in net && net[ids[split - 1]].range.Some?) && NoneHealthy(net, EndAt(net, ids, split), layers)
  }

  ghost predicate SplitHere(nodes: seq<Shard>, net: Net, ids: seq<NodeId>, layers: int, repaired: seq<NodeId>, split: nat)
    requires split < |ids|
  {
    && Healthy(net, ids[..split]) && (split > 0 ==> ids[split - 1] in net && net[ids[split - 1]].range.Some?)
    && split <= |repaired| && repaired[..split] == ids[..split]
    && FirstHealthy(nodes, net, repaired[split..], EndAt(net, ids, split), layers)
    && forall longer :: split < longer < |ids| ==> DeadEnd(net, ids, layers, longer)
  }

  /** The pipeline keeps the longest usable prefix that can be completed, and completes it in the first way. */
  ghost predicate RepairOf(nodes: seq<Shard>, net: Net, ids: seq<NodeId>, layers: int, repaired: seq<NodeId>) {
    exists split :: 0 <= split < |ids| && SplitHere(nodes, net, ids, layers, repaired, split)
  }

  lemma {:induction false} EarlierOneWay(nodes: seq<Shard>, net: Net, a: seq<NodeId>, b: seq<NodeId>)
    requires DistinctShards(nodes) && Earlier(nodes, net, a, b)
    ensures !Earlier(nodes, net, b, a)
  {
    if a[0] == b[0] {
      EarlierOneWay(nodes, net, a[1..], b[1..]);
    } else {
      SoonerOneWay(nodes, net[a[0]], net[b[0]]);
    }
  }

  lemma SoonerOneWay(nodes: seq<Shard>, a: Shard, b: Shard)
    requires DistinctShards(nodes) && Sooner(nodes, a, b)
    ensures !Sooner(nodes, b, a)
  {
    assert !(Listed(nodes, a, b) && Listed(nodes, b, a)) by { ListedOneWay(nodes, a, b); }
  }

  lemma ListedOneWay(nodes: seq<Shard>, a: Shard, b: Shard)
    requires DistinctShards(nodes)
    ensures !(Listed(nodes, a, b) && Listed(nodes, b, a))
  {
  }

  /** There is one repair at most. */
  lemma RepairIsUnique(nodes: seq<Shard>, net: Net, ids: seq<NodeId>, layers: int, a: seq<NodeId>, b: seq<NodeId>)
    requires DistinctShards(nodes) && RepairOf(nodes, net, ids, layers, a) && RepairOf(nodes, net, ids, layers, b)
    ensures a == b
  {
    var s: nat :| s < |ids| && SplitHere(nodes, net, ids, layers, a, s);
    var t: nat :| t < |ids| && SplitHere(nodes, net, ids, layers, b, t);
    hide Healthy, Earlier, DistinctShards;
    assert s == t by {
      assert s < t ==> DeadEnd(net, ids, layers, t);
      assert t < s ==> DeadEnd(net, ids, layers, s);
    }
    if a[s..] != b[s..] {
      EarlierOneWay(nodes, net, a[s..], b[s..]);
    }
    assert a == a[..s] + a[s..] && b == b[..s] + b[s..];
  }

  /** The nodes by id. */
  method IndexById(nodes: seq<Shard>) returns (net: Net)
    requires DistinctShards(nodes) && ProperRanges(nodes)
    ensures NetOf(nodes, net)
  {
    net := map[];
    for k := 0 to |nodes|
      invariant forall m :: 0 <= m < k ==> nodes[m].id in net && net[nodes[m].id] == nodes[m]
      invariant forall id :: id in net ==> net[id] in nodes && net[id].id == id
      invariant forall id :: id in net && net[id].range.Some? ==> net[id].range.value.start < net[id].range.value.end
    {
      net := net[nodes[k].id := nodes[k]];
    }
  }

  lemma NetIsUnique(nodes: seq<Shard>, a: Net, b: Net)
    requires NetOf(nodes, a) && NetOf(nodes, b)
    ensures a == b
  {
    forall id ensures id in a <==> id in b {
      if id in a {
        var k :| 0 <= k < |nodes| && nodes[k] == a[id];
      }
      if id in b {
        var k :| 0 <= k < |nodes| && nodes[k] == b[id];
      }
    }
    forall id | id in a ensures a[id] == b[id] {
      var k :| 0 <= k < |nodes| && nodes[k] == a[id];
    }
  }

  /** Keeps the longest usable prefix for which some healthy suffix exists, and completes it in the first way.  At
      the latest without any prefix, a healthy pipeline is found if there is one at all. */
  method AttemptRepair(candidate: seq<NodeId>, nodes: seq<Shard>, net: Net, layers: int) returns (repaired: Option<seq<NodeId>>)
    requires NetOf(nodes, net) && DistinctShards(nodes) && layers > 0
    requires candidate != [] && Pipeline(net, candidate, 0, layers)
    ensures repaired.Some? ==> repaired.value != [] && HealthyPipeline(net, repaired.value, 0, layers)
    ensures repaired.Some? ==> RepairOf(nodes, net, candidate, layers, repaired.value)
    ensures repaired.None? <==> NoneHealthy(net, 0, layers)
  {
    hide NetOf, IndexedByStart, NoneHealthy, Pipeline, DistinctShards, DeadEnd, FirstHealthy;
    var index := BuildStartIndex(nodes);
    var split := |candidate|;
    while split > 0
      invariant 0 <= split <= |candidate|
      invariant split == 0 ==> NoneHealthy(net, 0, layers)
      invariant forall longer :: split <= longer < |candidate| ==> DeadEnd(net, candidate, layers, longer)
    {
      split := split - 1;
      PrefixEnds(net, candidate, layers, split);
      var ok := forall i | 0 <= i < split :: candidate[i] in net && !Overloaded(net[candidate[i]]);
      if ok {
        var layer := if split == 0 then 0 else net[candidate[split - 1]].range.value.end;
        var done, suffix := RepairDfs(nodes, net, index, layers, layer, []);
        if done {
          assert suffix[0..] == suffix;
          FirstIsHealthy(nodes, net, suffix, layer, layers);
          assert (candidate[..split] + suffix)[split..] == suffix;
          assert SplitHere(nodes, net, candidate, layers, candidate[..split] + suffix, split);
          PipelineJoin(net, candidate[..split], suffix, 0, layer, layers);
          NotEmpty(net, candidate[..split] + suffix, layers);
          Witnessed(net, candidate[..split] + suffix, 0, layers);
          return Some(candidate[..split] + suffix);
        }
      }
      IsDeadEnd(net, candidate, layers, split, ok);
    }
    repaired := None;
  }

  lemma FirstIsHealthy(nodes: seq<Shard>, net: Net, ids: seq<NodeId>, from: int, to: int)
    requires FirstHealthy(nodes, net, ids, from, to)
    ensures HealthyPipeline(net, ids, from, to)
  {
  }

  lemma IsDeadEnd(net: Net, ids: seq<NodeId>, layers: int, split: nat, ok: bool)
    requires split < |ids| && (split > 0 ==> ids[split - 1] in net && net[ids[split - 1]].range.Some?)
    requires ok == forall i :: 0 <= i < split ==> ids[i] in net && !Overloaded(net[ids[i]])
    requires ok ==> NoneHealthy(net, EndAt(net, ids, split), layers)
    ensures DeadEnd(net, ids, layers, split)
  {
    hide NoneHealthy;
    if Healthy(net, ids[..split]) {
      assert forall i :: 0 <= i < split ==> ids[..split][i] == ids[i];
    }
  }

  lemma NotEmpty(net: Net, ids: seq<NodeId>, layers: int)
    requires Pipeline(net, ids, 0, layers) && layers > 0
    ensures ids != []
  {
  }

  lemma Witnessed(net: Net, ids: seq<NodeId>, from: int, to: int)
    requires HealthyPipeline(net, ids, from, to)
    ensures !NoneHealthy(net, from, to)
  {
  }

  lemma PrefixEnds(net: Net, ids: seq<NodeId>, layers: int, split: nat)
    requires Pipeline(net, ids, 0, layers) && split < |ids|
    ensures split > 0 ==> ids[split - 1] in net && net[ids[split - 1]].range.Some?
    ensures Pipeline(net, ids[..split], 0, if split == 0 then 0 else net[ids[split - 1]].range.value.end)
  {
    if split > 0 {
      PipelineCut(net, ids, 0, layers, split - 1);
    } else {
      assert ids[..0] == [];
    }
  }

  // ----- rotation -----

  /** Node latencies plus transfers along the pipeline. */
  function Total(net: Net, ids: seq<NodeId>): Time
    requires forall k :: 0 <= k < |ids| ==> ids[k] in net
  {
    if ids == [] then Fin(0.0)
    else
      var last := net[ids[|ids| - 1]];
      var before := Plus(Total(net, ids[..|ids| - 1]), last.latency);
      if |ids| == 1 then before else Plus(before, Transfer(net[ids[|ids| - 2]], last))
  }

  /** The estimate is what the shard-level router makes of the same nodes. */
  lemma {:induction false} TotalIsCost(nodes: seq<Shard>, net: Net, ids: seq<NodeId>, path: seq<nat>)
    requires ids != [] && |path| == |ids|
    requires forall k :: 0 <= k < |ids| ==> path[k] < |nodes| && ids[k] in net && net[ids[k]] == nodes[path[k]]
    ensures Total(net, ids) == ShardRouting.Cost(nodes, path)
    decreases |ids|
  {
    if |ids| > 1 {
      TotalIsCost(nodes, net, ids[..|ids| - 1], path[..|path| - 1]);
    } else {
      assert ids[..0] == [];
    }
  }

  /** A pipeline of active nodes is a chain of the shard-level router. */
  lemma {:induction false} PipelineIsChain(nodes: seq<Shard>, net: Net, ids: seq<NodeId>, to: int) returns (path: seq<nat>)
    requires NetOf(nodes, net) && ids != [] && Pipeline(net, ids, 0, to)
    requires forall k :: 0 <= k < |ids| ==> ids[k] in net && net[ids[k]].active
    ensures |path| == |ids| && forall k :: 0 <= k < |ids| ==> path[k] < |nodes| && net[ids[k]] == nodes[path[k]]
    ensures FullChain(nodes, to, path)
    decreases |ids|
  {
    var n := |ids| - 1;
    PipelineCut(net, ids, 0, to, n);
    assert ids[n + 1..] == [] && ids[..n + 1] == ids;
    var i: nat :| i < |nodes| && nodes[i] == net[ids[n]];
    if n == 0 {
      path := [i];
    } else {
      PipelineCut(net, ids, 0, to, n - 1);
      assert ids[..n - 1 + 1] == ids[..n] && ids[n - 1 + 1..] == [ids[n]];
      var init := PipelineIsChain(nodes, net, ids[..n], EndOf(net, ids[n - 1]));
      path := init + [i];
      assert path[..|path| - 1] == init;
    }
  }

  /** Whatever pipeline of active nodes the rotation picks, the shard-level router's path takes no longer. */
  lemma RotationIsNoFaster(nodes: seq<Shard>, net: Net, ids: seq<NodeId>, layers: int, latency: Time)
    requires NetOf(nodes, net) && ids != [] && Pipeline(net, ids, 0, layers)
    requires forall k :: 0 <= k < |ids| ==> ids[k] in net && net[ids[k]].active
    requires forall q :: FullChain(nodes, layers, q) ==> CostsAtLeast(nodes, q, latency)
    ensures AtMost(latency, Total(net, ids))
  {
    var path := PipelineIsChain(nodes, net, ids, layers);
    TotalIsCost(nodes, net, ids, path);
    assert CostsAtLeast(nodes, path, latency);
  }

  /** Healthy and of finite latency: what a request may be sent along. */
  ghost predicate Good(net: Net, ids: seq<NodeId>) {
    Healthy(net, ids) && Total(net, ids).Fin?
  }

  /** Whether every node is there and not overloaded, and then the latency. */
  method Estimate(net: Net, ids: seq<NodeId>) returns (viable: bool, total: Time)
    ensures viable <==> Healthy(net, ids)
    ensures viable ==> total == Total(net, ids)
  {
    total := Fin(0.0);
    for k := 0 to |ids|
      invariant Healthy(net, ids[..k]) && total == Total(net, ids[..k])
    {
      assert ids[..k + 1][..k] == ids[..k];
      if ids[k] !in net || Overloaded(net[ids[k]]) {
        return false, Inf;
      }
      total := Plus(total, net[ids[k]].latency);
      if k > 0 {
        assert ids[k - 1] == ids[..k][k - 1];
        total := Plus(total, Transfer(net[ids[k - 1]], net[ids[k]]));
      }
    }
    assert ids[..|ids|] == ids;
    viable := true;
  }

  /** No healthy pipeline over all layers has a finite latency. */
  ghost predicate NothingGood(net: Net, layers: int) {
    forall q: seq<NodeId> :: q != [] && Pipeline(net, q, 0, layers) ==> !Good(net, q)
  }

  /** The cursor wraps around the list. */
  function Wrap(cursor: nat, n: nat): (i: nat)
    requires n > 0
    ensures i < n
  {
    cursor % n
  }

  lemma WrapStays(start: nat, n: nat)
    requires start < n
    ensures Wrap(start, n) == start
  {
  }

  /** Every position comes up on the way round. */
  lemma WrapReaches(start: nat, i: nat, n: nat) returns (c: nat)
    requires start < n && i < n
    ensures start <= c < start + n && Wrap(c, n) == i
  {
    c := if i >= start then i else i + n;
  }

  /** What a listed pipeline offers: itself if it is good, or else its repair if that is. */
  ghost predicate Offers(nodes: seq<Shard>, net: Net, candidate: seq<NodeId>, layers: int, ids: seq<NodeId>) {
    if Good(net, candidate) then ids == candidate else RepairOf(nodes, net, candidate, layers, ids) && Good(net, ids)
  }

  ghost predicate OffersNothing(nodes: seq<Shard>, net: Net, candidate: seq<NodeId>, layers: int) {
    forall ids :: !Offers(nodes, net, candidate, layers, ids)
  }

  lemma NoOffer(nodes: seq<Shard>, net: Net, candidate: seq<NodeId>, layers: int, repaired: Option<seq<NodeId>>)
    requires DistinctShards(nodes) && Pipeline(net, candidate, 0, layers) && !Good(net, candidate)
    requires repaired.Some? ==> RepairOf(nodes, net, candidate, layers, repaired.value) && !Good(net, repaired.value)
    requires repaired.None? ==> NoneHealthy(net, 0, layers)
    ensures OffersNothing(nodes, net, candidate, layers)
  {
    hide Good, Pipeline, RepairOf, NoneHealthy, DistinctShards;
    forall ids ensures !Offers(nodes, net, candidate, layers, ids) {
      if RepairOf(nodes, net, candidate, layers, ids) {
        if repaired.Some? {
          RepairIsUnique(nodes, net, candidate, layers, ids, repaired.value);
        } else {
          RepairIsHealthy(nodes, net, candidate, layers, ids);
        }
      }
    }
  }

  lemma RepairIsHealthy(nodes: seq<Shard>, net: Net, candidate: seq<NodeId>, layers: int, ids: seq<NodeId>)
    requires RepairOf(nodes, net, candidate, layers, ids) && Pipeline(net, candidate, 0, layers)
    ensures HealthyPipeline(net, ids, 0, layers) && !NoneHealthy(net, 0, layers)
  {
    hide Pipeline, DeadEnd;
    var split: nat :| split < |candidate| && SplitHere(nodes, net, candidate, layers, ids, split);
    PrefixEnds(net, candidate, layers, split);
    PipelineJoin(net, ids[..split], ids[split..], 0, EndAt(net, candidate, split), layers);
    assert ids == ids[..split] + ids[split..];
    assert HealthyPipeline(net, ids, 0, layers);
  }

  /** The first `tried` positions from `start` on offer nothing. */
  ghost predicate TriedInVain(nodes: seq<Shard>, net: Net, pipelines: seq<seq<NodeId>>, layers: int, start: nat, tried: nat)
    requires pipelines != []
  {
    forall c :: start <= c < start + tried ==> OffersNothing(nodes, net, pipelines[Wrap(c, |pipelines|)], layers)
  }

  /** After `n` positions that offer nothing comes one that offers these nodes. */
  ghost predicate OfferedAfter(nodes: seq<Shard>, net: Net, pipelines: seq<seq<NodeId>>, layers: int, start: nat, n: nat,
                               ids: seq<NodeId>)
    requires pipelines != []
  {
    TriedInVain(nodes, net, pipelines, layers, start, n)
    && Offers(nodes, net, pipelines[Wrap(start + n, |pipelines|)], layers, ids)
  }

  lemma GoodIsOffered(nodes: seq<Shard>, net: Net, candidate: seq<NodeId>, layers: int)
    requires OffersNothing(nodes, net, candidate, layers)
    ensures !Good(net, candidate)
  {
    assert !Offers(nodes, net, candidate, layers, candidate);
  }

  /** Going round once tries every pipeline. */
  lemma AllTried(nodes: seq<Shard>, net: Net, pipelines: seq<seq<NodeId>>, start: nat, layers: int)
    requires pipelines != [] && start < |pipelines| && TriedInVain(nodes, net, pipelines, layers, start, |pipelines|)
    requires ListsExtensions(net, pipelines, [], 0, layers)
    ensures NothingGood(net, layers)
  {
    forall q: seq<NodeId> | q != [] && Pipeline(net, q, 0, layers) ensures !Good(net, q) {
      assert q[0..] == q;
      var i :| 0 <= i < |pipelines| && pipelines[i] == q;
      var c := WrapReaches(start, i, |pipelines|);
      GoodIsOffered(nodes, net, pipelines[Wrap(c, |pipelines|)], layers);
    }
  }

  /** What the pipeline offers: itself, or its repair, or nothing. */
  method Offer(candidate: seq<NodeId>, nodes: seq<Shard>, net: Net, layers: int) returns (ids: seq<NodeId>, latency: Time)
    requires NetOf(nodes, net) && DistinctShards(nodes) && layers > 0
    requires candidate != [] && Pipeline(net, candidate, 0, layers)
    ensures if ids == [] then OffersNothing(nodes, net, candidate, layers) && latency == Inf
            else Offers(nodes, net, candidate, layers, ids) && Pipeline(net, ids, 0, layers) && Good(net, ids) && latency == Total(net, ids)
  {
    hide Good, NoneHealthy, NetOf, DistinctShards, RepairOf, OffersNothing, Pipeline;
    var viable, total := Estimate(net, candidate);
    IsGood(net, candidate);
    if viable && total != Inf {
      return candidate, total;
    }
    var repaired := AttemptRepair(candidate, nodes, net, layers);
    if repaired.Some? {
      viable, total := Estimate(net, repaired.value);
      IsGood(net, repaired.value);
      if viable && total != Inf {
        return repaired.value, total;
      }
    }
    NoOffer(nodes, net, candidate, layers, repaired);
    return [], Inf;
  }

  class Router {
    var cursor: nat
    var pipelines: Option<seq<seq<NodeId>>>

    /** The cached list, if any, matches the nodes' ranges. */
    ghost predicate UpToDate(net: Net, layers: int)
      reads this
    {
      pipelines.Some? && layers > 0 ==> ListsExtensions(net, pipelines.value, [], 0, layers)
    }

    /** From the cursor on the first listed pipeline was taken that offers anything; the cursor is behind it. */
    ghost predicate Rotated(nodes: seq<Shard>, net: Net, layers: int, from: nat, ids: seq<NodeId>)
      reads this
    {
      pipelines.Some? && (pipelines.value != [] ==>
        var list := pipelines.value;
        var start := Wrap(from, |list|);
        if ids == [] then cursor == start + |list|
        else exists n :: 0 <= n < |list| && cursor == start + n + 1 && OfferedAfter(nodes, net, list, layers, start, n, ids))
    }

    constructor ()
      ensures cursor == 0 && pipelines == None
    {
      cursor, pipelines := 0, None;
    }

    method FindOptimalPath(nodes: seq<Shard>, layers: int, ghost net: Net) returns (ids: seq<NodeId>, latency: Time)
      requires DistinctShards(nodes) && ProperRanges(nodes) && NetOf(nodes, net) && UpToDate(net, layers)
      modifies this
      ensures UpToDate(net, layers) && (old(pipelines).Some? ==> pipelines == old(pipelines))
      ensures ids != [] ==> Pipeline(net, ids, 0, layers) && Good(net, ids) && latency == Total(net, ids)
      ensures ids == [] ==> latency == Inf
      ensures layers > 0 ==> (ids == [] <==> NothingGood(net, layers))
      ensures layers <= 0 ==> ids == []
      ensures nodes != [] && layers > 0 && old(pipelines).None? ==>
                pipelines.Some? && InSearchOrder(nodes, net, pipelines.value)
      ensures nodes != [] && layers > 0 ==> Rotated(nodes, net, layers, old(cursor), ids)
    {
      hide Good, ListsExtensions, Pipeline, NothingGood, TriedInVain, DistinctShards, NoneHealthy, NetOf, Wrap, OffersNothing,
           OfferedAfter, InSearchOrder;
      if nodes == [] || layers <= 0 {
        if layers > 0 {
          NoNodesNoPipelines(nodes, net, layers);
          NoneListed(net, layers);
        }
        return [], Inf;
      }
      if pipelines.None? {
        var found := PipelineDiscovery(nodes, net, layers);
        pipelines := Some(found);
      }
      if pipelines.value == [] {
        NoneListed(net, layers);
        return [], Inf;
      }
      var index := IndexById(nodes);
      NetIsUnique(nodes, index, net);
      var list := pipelines.value;
      cursor := Wrap(cursor, |list|);
      ghost var start := cursor;
      var attempts := 0;
      NoneTried(nodes, net, list, layers, start);
      while attempts < |list|
        invariant attempts <= |list| && cursor == start + attempts && pipelines == Some(list)
        invariant TriedInVain(nodes, net, list, layers, start, attempts)
        decreases |list| - attempts
      {
        var candidate := list[Wrap(cursor, |list|)];
        ListedIsPipeline(net, list, layers, Wrap(cursor, |list|));
        cursor := cursor + 1;
        attempts := attempts + 1;
        ids, latency := Offer(candidate, nodes, index, layers);
        if ids != [] {
          SomethingGood(net, ids, layers);
          OfferedNext(nodes, net, list, layers, start, attempts - 1, ids);
          return;
        }
        TriedOneMore(nodes, net, list, layers, start, attempts - 1);
      }
      AllTried(nodes, net, list, start, layers);
      return [], Inf;
    }
  }

  lemma NoneListed(net: Net, layers: int)
    requires ListsExtensions(net, [], [], 0, layers)
    ensures NothingGood(net, layers)
  {
    forall q: seq<NodeId> | q != [] && Pipeline(net, q, 0, layers) ensures !Good(net, q) {
      assert q[0..] == q;
    }
  }

  lemma NoneTried(nodes: seq<Shard>, net: Net, list: seq<seq<NodeId>>, layers: int, start: nat)
    requires list != []
    ensures TriedInVain(nodes, net, list, layers, start, 0)
  {
  }

  lemma TriedOneMore(nodes: seq<Shard>, net: Net, list: seq<seq<NodeId>>, layers: int, start: nat, a: nat)
    requires list != [] && TriedInVain(nodes, net, list, layers, start, a)
    requires OffersNothing(nodes, net, list[Wrap(start + a, |list|)], layers)
    ensures TriedInVain(nodes, net, list, layers, start, a + 1)
  {
  }

  lemma OfferedNext(nodes: seq<Shard>, net: Net, list: seq<seq<NodeId>>, layers: int, start: nat, n: nat, ids: seq<NodeId>)
    requires list != [] && TriedInVain(nodes, net, list, layers, start, n)
    requires var candidate := list[Wrap(start + n, |list|)];
             Offers(nodes, net, candidate, layers, ids)
    ensures OfferedAfter(nodes, net, list, layers, start, n, ids)
  {
  }

  /** The next pipeline in rotation comes back whenever it is good. */
  lemma NextIfGood(nodes: seq<Shard>, net: Net, list: seq<seq<NodeId>>, layers: int, cursor: nat, n: nat, ids: seq<NodeId>)
    requires list != [] && OfferedAfter(nodes, net, list, layers, Wrap(cursor, |list|), n, ids)
    requires Good(net, list[Wrap(cursor, |list|)])
    ensures n == 0 && ids == list[Wrap(cursor, |list|)]
  {
    var start := Wrap(cursor, |list|);
    WrapStays(start, |list|);
    if n > 0 {
      GoodIsOffered(nodes, net, list[Wrap(start, |list|)], layers);
    }
  }

  lemma ListedIsPipeline(net: Net, list: seq<seq<NodeId>>, layers: int, i: nat)
    requires ListsExtensions(net, list, [], 0, layers) && i < |list| && layers > 0
    ensures list[i] != [] && Pipeline(net, list[i], 0, layers)
  {
    assert list[i] in list && list[i][0..] == list[i];
  }

  lemma IsGood(net: Net, ids: seq<NodeId>)
    ensures Good(net, ids) <==> Healthy(net, ids) && Total(net, ids) != Inf
  {
  }

  lemma SomethingGood(net: Net, ids: seq<NodeId>, layers: int)
    requires ids != [] && Pipeline(net, ids, 0, layers) && Good(net, ids)
    ensures !NothingGood(net, layers)
  {
  }

  // ----- dispatch -----

  class Worker {
    const id: NodeId
    const maxRequests: int
    var currentRequests: int

    constructor (id: NodeId, maxRequests: int)
      ensures this.id == id && this.maxRequests == maxRequests && currentRequests == 0
    {
      this.id, this.maxRequests, currentRequests := id, maxRequests, 0;
    }

    predicate IsOverloaded()
      reads this
    {
      currentRequests >= maxRequests
    }

    method AddRequest()
      modifies this
      ensures currentRequests == old(currentRequests) + 1
    {
      currentRequests := currentRequests + 1;
    }
  }

  /** The shards describe the workers: same ids, and an infinite latency exactly when overloaded. */
  ghost predicate Describes(shards: seq<Shard>, workers: seq<Worker>)
    reads workers
  {
    |shards| == |workers| && forall i :: 0 <= i < |shards| ==>
      shards[i].id == workers[i].id && (Overloaded(shards[i]) <==> workers[i].IsOverloaded())
  }

  ghost predicate WorkersById(workers: seq<Worker>, byId: map<NodeId, Worker>) {
    && (forall i :: 0 <= i < |workers| ==> workers[i].id in byId && byId[workers[i].id] == workers[i])
    && (forall id :: id in byId ==> byId[id].id == id)
  }

  /** Sends a request along the next pipeline and counts it on every node of it.  No node takes more than
      its maximum, because a pipeline visits each of its nodes once and none of them is overloaded. */
  method DispatchNext(router: Router, workers: seq<Worker>, byId: map<NodeId, Worker>, shards: seq<Shard>, layers: int,
                      ghost net: Net) returns (ids: seq<NodeId>, latency: Time)
    requires DistinctShards(shards) && ProperRanges(shards) && NetOf(shards, net) && router.UpToDate(net, layers)
    requires Describes(shards, workers) && WorkersById(workers, byId)
    modifies router, workers
    ensures router.UpToDate(net, layers)
    ensures layers > 0 ==> (ids == [] <==> NothingGood(net, layers))
    ensures ids != [] ==> Pipeline(net, ids, 0, layers) && Good(net, ids)
    ensures shards != [] && layers > 0 ==> router.Rotated(shards, net, layers, old(router.cursor), ids)
    ensures forall w :: w in workers ==>
              w.currentRequests == old(w.currentRequests) + if w.id in ids then 1 else 0
    ensures forall w :: w in workers && old(w.currentRequests) <= w.maxRequests ==> w.currentRequests <= w.maxRequests
  {
    hide Good, NothingGood, ListsExtensions, Pipeline;
    ids, latency := router.FindOptimalPath(shards, layers, net);
    PathWorkers(shards, net, ids, layers, workers, byId);
    assert forall w :: w in workers && w.id in ids ==> old(w.currentRequests) < w.maxRequests;
    AddRequests(workers, byId, ids);
  }

  /** Counts one more request on every node of the path. */
  method AddRequests(workers: seq<Worker>, byId: map<NodeId, Worker>, ids: seq<NodeId>)
    requires WorkersById(workers, byId)
    requires forall k :: 0 <= k < |ids| ==> ids[k] in byId && byId[ids[k]] in workers && ids[k] !in ids[..k]
    modifies workers
    ensures forall w :: w in workers ==>
              w.currentRequests == old(w.currentRequests) + if w.id in ids then 1 else 0
  {
    for k := 0 to |ids|
      invariant forall w :: w in workers ==>
                  w.currentRequests == old(w.currentRequests) + if w.id in ids[..k] then 1 else 0
    {
      var w := byId[ids[k]];
      assert w in workers && ids[..k + 1] == ids[..k] + [ids[k]];
      forall v | v in workers && v.id == w.id ensures v == w {
        var i :| 0 <= i < |workers| && workers[i] == v;
      }
      w.AddRequest();
    }
    assert ids[..|ids|] == ids;
  }

  /** The nodes of a good pipeline are known workers, all different, none of them overloaded. */
  lemma PathWorkers(shards: seq<Shard>, net: Net, ids: seq<NodeId>, layers: int, workers: seq<Worker>, byId: map<NodeId, Worker>)
    requires NetOf(shards, net) && Describes(shards, workers) && WorkersById(workers, byId)
    requires ids != [] ==> Pipeline(net, ids, 0, layers) && Good(net, ids)
    ensures forall k :: 0 <= k < |ids| ==> ids[k] in byId && byId[ids[k]] in workers && ids[k] !in ids[..k]
    ensures forall w :: w in workers && w.id in ids ==> !w.IsOverloaded()
  {
    forall k | 0 <= k < |ids| ensures ids[k] in byId && byId[ids[k]] in workers && ids[k] !in ids[..k] {
      assert ids[k] in net;
      var i :| 0 <= i < |shards| && shards[i] == net[ids[k]];
      assert byId[workers[i].id] == workers[i];
      forall j | 0 <= j < k ensures ids[j] != ids[k] {
        PipelineIsSimple(net, ids, 0, layers, j, k);
      }
    }
    forall w | w in workers && w.id in ids ensures !w.IsOverloaded() {
      var i :| 0 <= i < |workers| && workers[i] == w;
      var k :| 0 <= k < |ids| && ids[k] == w.id;
      assert net[shards[i].id] == shards[i] && !Overloaded(net[ids[k]]);
    }
  }
}
