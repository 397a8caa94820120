/** Warm-up: cutting nodes back to the part of their range the cheapest route uses. */
module WarmUp {
  import opened Outcomes
  import opened ClusterNode
  import opened LayerIndex
  import opened LayerAllocator
  import opened Latency
  import opened ShardRouting
  import opened TurningPoints

  // ----- cutting ranges -----

  function Cut(r: Range, t: Turn): Range {
    match t.kind
    case Tail => if t.layer < r.end then Range(r.start, t.layer) else r
    case Head => if t.layer > r.start then Range(t.layer, r.end) else r
  }

  /** A range after the turns that name the node, in order. */
  function CutAll(r: Range, id: NodeId, turns: seq<Turn>): Range {
    if turns == [] then r
    else
      var r' := CutAll(r, id, turns[..|turns| - 1]);
      if turns[|turns| - 1].id == id then Cut(r', turns[|turns| - 1]) else r'
  }

  /** No cut ever empties the range. */
  predicate StaysProper(r: Range, id: NodeId, turns: seq<Turn>) {
    r.start < r.end && (turns != [] ==> StaysProper(r, id, turns[..|turns| - 1]) && CutAll(r, id, turns).start < CutAll(r, id, turns).end)
  }

  lemma CutAllAppend(r: Range, id: NodeId, turns: seq<Turn>, t: Turn)
    ensures CutAll(r, id, turns + [t]) == if t.id == id then Cut(CutAll(r, id, turns), t) else CutAll(r, id, turns)
    ensures StaysProper(r, id, turns + [t]) <==>
            r.start < r.end && StaysProper(r, id, turns) && CutAll(r, id, turns + [t]).start < CutAll(r, id, turns + [t]).end
  {
    assert (turns + [t])[..|turns + [t]| - 1] == turns;
  }

  // ----- what the turns of a route do to a node on it -----

  /** The route leaves node `i` when it comes to layer `l`. */
  ghost predicate Leaves(path: seq<nat>, i: nat, l: int) {
    0 < l < |path| && path[l - 1] == i && path[l] != i
  }

  ghost predicate FirstUse(path: seq<nat>, i: nat, f: int) {
    0 <= f < |path| && path[f] == i && forall m :: 0 <= m < f ==> path[m] != i
  }

  /** A route over nodes with distinct ids and proper ranges within the layers. */
  ghost predicate OnNodes(nodes: seq<Shard>, path: seq<nat>) {
    && Route(nodes, path) && InNodes(nodes, path)
    && (forall a, b :: 0 <= a < b < |nodes| ==> nodes[a].id != nodes[b].id)
  }

  /** After the tail turns of the first `n` layers, the range ends where the route first left the node. */
  ghost predicate TailsCut(r: Range, cut: Range, path: seq<nat>, i: nat, n: nat) {
    && cut.start == r.start && cut.end <= r.end
    && (forall l :: Leaves(path, i, l) && l < n ==> cut.end <= l)
    && (cut.end == r.end || (Leaves(path, i, cut.end) && cut.end < n))
  }

  /** The tail turn at layer `n`, if there is one, ends the range there unless it ended before. */
  lemma TailStep(nodes: seq<Shard>, path: seq<nat>, i: nat, n: nat, cut: Range)
    requires OnNodes(nodes, path) && i < |nodes| && nodes[i].range.Some? && 0 < n < |path|
    requires var r := nodes[i].range.value;
             r.start < r.end && TailsCut(r, cut, path, i, n) && cut.start < cut.end
    ensures var r := nodes[i].range.value;
            var turns := path[n - 1] == i && path[n] != i && HostsLayer(nodes, i, n);
            var cut' := if turns then Cut(cut, Turn(nodes[i].id, n, Tail)) else cut;
            TailsCut(r, cut', path, i, n + 1) && cut'.start < cut'.end
  {
    assert HostsLayer(nodes, path[n - 1], n - 1);
    assert forall l :: Leaves(path, i, l) && l < n + 1 ==> l < n || (l == n && path[n - 1] == i && path[n] != i);
  }

  lemma {:induction false} TailsLeave(nodes: seq<Shard>, path: seq<nat>, i: nat, n: nat)
    requires OnNodes(nodes, path) && i < |nodes| && nodes[i].range.Some? && n <= |path|
    requires nodes[i].range.value.start < nodes[i].range.value.end
    ensures TailsCut(nodes[i].range.value, CutAll(nodes[i].range.value, nodes[i].id, Tails(nodes, path, n)), path, i, n)
    ensures StaysProper(nodes[i].range.value, nodes[i].id, Tails(nodes, path, n))
  {
    hide Route;
    if n > 1 {
      TailsLeave(nodes, path, i, n - 1);
      hide TailsCut, StaysProper, CutAll;
      var r, id := nodes[i].range.value, nodes[i].id;
      var before := Tails(nodes, path, n - 1);
      IdsTell(nodes, path, i, n - 2);
      ProperCut(r, id, before);
      TailStep(nodes, path, i, n - 1, CutAll(r, id, before));
      CutAllAppend(r, id, before, Turn(nodes[path[n - 2]].id, n - 1, Tail));
      assert before + [] == before;
    }
  }

  ghost predicate HeadsCut(r: Range, cut: Range, tail: Range, path: seq<nat>, i: nat, n: nat)
    requires n <= |path|
  {
    cut.end == tail.end && (if i in path[..n] then FirstUse(path, i, cut.start) && cut.start < n else cut.start == r.start)
  }

  /** The head turn at layer `n`, if there is one, moves the start to the first use. */
  lemma HeadStep(nodes: seq<Shard>, path: seq<nat>, i: nat, n: nat, cut: Range, tail: Range)
    requires OnNodes(nodes, path) && i < |nodes| && nodes[i].range.Some? && n < |path|
    requires var r := nodes[i].range.value;
             r.start < r.end && TailsCut(r, tail, path, i, |path|) && HeadsCut(r, cut, tail, path, i, n) && cut.start < cut.end
    ensures var r := nodes[i].range.value;
            var turns := path[n] == i && i !in path[..n] && n > r.start;
            var cut' := if turns then Cut(cut, Turn(nodes[i].id, n, Head)) else cut;
            HeadsCut(r, cut', tail, path, i, n + 1) && cut'.start < cut'.end
  {
    assert path[..n + 1] == path[..n] + [path[n]];
    assert forall m :: 0 <= m < n ==> path[m] == path[..n][m] && path[m] in path[..n];
    assert HostsLayer(nodes, path[n], n);
  }

  lemma {:induction false} HeadsEnter(nodes: seq<Shard>, path: seq<nat>, i: nat, n: nat)
    requires OnNodes(nodes, path) && i < |nodes| && nodes[i].range.Some? && n <= |path|
    requires nodes[i].range.value.start < nodes[i].range.value.end
    ensures var r, id := nodes[i].range.value, nodes[i].id;
            var tails := Tails(nodes, path, |path|);
            && HeadsCut(r, CutAll(r, id, tails + Heads(nodes, path, n)), CutAll(r, id, tails), path, i, n)
            && StaysProper(r, id, tails + Heads(nodes, path, n))
  {
    hide Tails, Heads, Route, CutAll, StaysProper, TailsCut, HeadsCut;
    var tails := Tails(nodes, path, |path|);
    TailsLeave(nodes, path, i, |path|);
    if n == 0 {
      NoHeadsYet(nodes, path, i, tails);
    } else {
      HeadsEnter(nodes, path, i, n - 1);
      NextHead(nodes, path, i, n - 1, tails);
    }
  }

  lemma NoHeadsYet(nodes: seq<Shard>, path: seq<nat>, i: nat, tails: seq<Turn>)
    requires InNodes(nodes, path) && i < |nodes| && nodes[i].range.Some?
    requires var r, id := nodes[i].range.value, nodes[i].id;
             TailsCut(r, CutAll(r, id, tails), path, i, |path|)
    ensures var r, id := nodes[i].range.value, nodes[i].id;
            && tails + Heads(nodes, path, 0) == tails
            && HeadsCut(r, CutAll(r, id, tails), CutAll(r, id, tails), path, i, 0)
  {
    hide CutAll;
    assert Heads(nodes, path, 0) == [];
  }

  /** One more head turn, if there is one at layer `n`. */
  lemma NextHead(nodes: seq<Shard>, path: seq<nat>, i: nat, n: nat, tails: seq<Turn>)
    requires OnNodes(nodes, path) && InNodes(nodes, path) && i < |nodes| && nodes[i].range.Some? && n < |path|
    requires var r, id := nodes[i].range.value, nodes[i].id;
             var before := tails + Heads(nodes, path, n);
             && r.start < r.end && TailsCut(r, CutAll(r, id, tails), path, i, |path|)
             && HeadsCut(r, CutAll(r, id, before), CutAll(r, id, tails), path, i, n) && StaysProper(r, id, before)
    ensures var r, id := nodes[i].range.value, nodes[i].id;
            var after := tails + Heads(nodes, path, n + 1);
            HeadsCut(r, CutAll(r, id, after), CutAll(r, id, tails), path, i, n + 1) && StaysProper(r, id, after)
  {
    hide HeadsCut, TailsCut, StaysProper, CutAll, OnNodes;
    var r, id := nodes[i].range.value, nodes[i].id;
    var before := tails + Heads(nodes, path, n);
    IdsTell(nodes, path, i, n);
    ProperCut(r, id, before);
    HeadStep(nodes, path, i, n, CutAll(r, id, before), CutAll(r, id, tails));
    CutAllAppend(r, id, before, Turn(nodes[path[n]].id, n, Head));
    HeadsGrow(nodes, path, n, tails);
  }

  lemma HeadsGrow(nodes: seq<Shard>, path: seq<nat>, n: nat, tails: seq<Turn>)
    requires InNodes(nodes, path) && n < |path| && nodes[path[n]].range.Some?
    ensures var before := tails + Heads(nodes, path, n);
            tails + Heads(nodes, path, n + 1) ==
            if path[n] !in path[..n] && n > nodes[path[n]].range.value.start then before + [Turn(nodes[path[n]].id, n, Head)]
            else before
  {
    var before := Heads(nodes, path, n);
    var t := Turn(nodes[path[n]].id, n, Head);
    assert tails + (before + [t]) == tails + before + [t];
    assert tails + (before + []) == tails + before;
  }

  lemma ProperCut(r: Range, id: NodeId, turns: seq<Turn>)
    requires StaysProper(r, id, turns)
    ensures CutAll(r, id, turns).start < CutAll(r, id, turns).end
  {
  }

  lemma IdsTell(nodes: seq<Shard>, path: seq<nat>, i: nat, n: nat)
    requires OnNodes(nodes, path) && i < |nodes| && n < |path|
    ensures path[n] < |nodes| && nodes[path[n]].range.Some? && (path[n] == i <==> nodes[path[n]].id == nodes[i].id)
  {
    assert HostsLayer(nodes, path[n], n);
    assert path[n] != i ==> nodes[path[n]].id != nodes[i].id;
  }

  // ----- what is left of a node on the route -----

  /** The range left to a node: its first unbroken stretch on the route. */
  ghost predicate FirstStretch(path: seq<nat>, i: nat, r: Range) {
    && FirstUse(path, i, r.start) && r.start < r.end <= |path|
    && (forall l :: r.start <= l < r.end ==> path[l] == i)
    && (r.end < |path| ==> path[r.end] != i)
  }

  lemma {:induction false} StretchHolds(path: seq<nat>, i: nat, from: nat, to: nat, l: nat)
    requires from <= l < to <= |path| && path[from] == i
    requires forall m :: Leaves(path, i, m) ==> to <= m
    ensures path[l] == i
    decreases l
  {
    if l > from {
      StretchHolds(path, i, from, to, l - 1);
      assert path[l] != i ==> Leaves(path, i, l);
    }
  }

  lemma CutIsFirstStretch(nodes: seq<Shard>, path: seq<nat>, i: nat)
    requires OnNodes(nodes, path) && i in path
    requires nodes[i].range.Some? && 0 <= nodes[i].range.value.start < nodes[i].range.value.end <= |path|
    ensures var turns := Tails(nodes, path, |path|) + Heads(nodes, path, |path|);
            && FirstStretch(path, i, CutAll(nodes[i].range.value, nodes[i].id, turns))
            && StaysProper(nodes[i].range.value, nodes[i].id, turns)
  {
    hide CutAll, StaysProper, Tails, Heads;
    var r, id := nodes[i].range.value, nodes[i].id;
    var tails := Tails(nodes, path, |path|);
    var turns := tails + Heads(nodes, path, |path|);
    TailsLeave(nodes, path, i, |path|);
    HeadsEnter(nodes, path, i, |path|);
    ProperCut(r, id, turns);
    var cut := CutAll(r, id, turns);
    assert path[..|path|] == path;
    assert forall m :: Leaves(path, i, m) ==> cut.end <= m;
    forall l | cut.start <= l < cut.end ensures path[l] == i {
      StretchHolds(path, i, cut.start, cut.end, l);
    }
    if cut.end == r.end < |path| {
      assert HostsLayer(nodes, path[cut.end], cut.end);
    }
  }

  /** A node off the route keeps its range. */
  lemma {:induction false} OffRouteTails(nodes: seq<Shard>, path: seq<nat>, r: Range, id: NodeId, n: nat)
    requires InNodes(nodes, path) && n <= |path| && r.start < r.end
    requires forall k :: 0 <= k < |path| ==> nodes[path[k]].id != id
    ensures CutAll(r, id, Tails(nodes, path, n)) == r && StaysProper(r, id, Tails(nodes, path, n))
  {
    if n > 1 {
      OffRouteTails(nodes, path, r, id, n - 1);
      var before := Tails(nodes, path, n - 1);
      CutAllAppend(r, id, before, Turn(nodes[path[n - 2]].id, n - 1, Tail));
      assert before + [] == before;
    }
  }

  lemma StillProper(r: Range, id: NodeId, turns: seq<Turn>, t: Turn)
    requires StaysProper(r, id, turns) && t.id != id
    ensures StaysProper(r, id, turns + [t])
  {
    CutAllAppend(r, id, turns, t);
    ProperCut(r, id, turns);
    assert r.start < r.end;
  }

  lemma {:induction false} OffRoute(nodes: seq<Shard>, path: seq<nat>, r: Range, id: NodeId, n: nat)
    requires InNodes(nodes, path) && n <= |path| && r.start < r.end
    requires forall k :: 0 <= k < |path| ==> nodes[path[k]].id != id
    ensures var turns := Tails(nodes, path, |path|) + Heads(nodes, path, n);
            CutAll(r, id, turns) == r && StaysProper(r, id, turns)
  {
    hide Tails, CutAll, StaysProper;
    var tails := Tails(nodes, path, |path|);
    if n == 0 {
      OffRouteTails(nodes, path, r, id, |path|);
      assert tails + [] == tails;
    } else {
      OffRoute(nodes, path, r, id, n - 1);
      var before := Heads(nodes, path, n - 1);
      var t := Turn(nodes[path[n - 1]].id, n - 1, Head);
      CutAllAppend(r, id, tails + before, t);
      StillProper(r, id, tails + before, t);
      assert tails + (before + [t]) == tails + before + [t];
      assert before + [] == before;
    }
  }

  // ----- coverage -----

  /** The route never comes back to a node it has left. */
  ghost predicate NeverReturns(path: seq<nat>) {
    forall a, b, c :: 0 <= a < b < c < |path| && path[a] == path[c] ==> path[b] == path[a]
  }

  /** What the nodes on the route are left with. */
  ghost predicate Stretches(path: seq<nat>, left: map<nat, Range>) {
    (forall i :: i in left <==> i in path) && (forall i :: i in left ==> FirstStretch(path, i, left[i]))
  }

  /** Some node of the route still hosts the layer. */
  ghost predicate CoveredAt(left: map<nat, Range>, l: int) {
    exists i :: i in left && Hosts(left[i], l)
  }

  /** The route comes to the layer on a node it had left: that node has lost the layer. */
  ghost predicate LostAt(path: seq<nat>, l: int) {
    exists a, b :: 0 <= a < b < l < |path| && path[a] == path[l] && path[b] != path[l]
  }

  /** The route's nodes keep covering exactly the layers that are not lost. */
  lemma CoveredUnlessLost(path: seq<nat>, left: map<nat, Range>, l: nat)
    requires Stretches(path, left) && l < |path|
    ensures CoveredAt(left, l) <==> !LostAt(path, l)
  {
    if LostAt(path, l) {
      var a, b :| 0 <= a < b < l < |path| && path[a] == path[l] && path[b] != path[l];
      forall i | i in left ensures !Hosts(left[i], l) {
        StretchStops(path, i, left[i], a, b, l);
      }
    } else {
      assert path[l] in left && FirstStretch(path, path[l], left[path[l]]);
      StretchReaches(path, left[path[l]], l);
      assert Hosts(left[path[l]], l);
    }
  }

  /** They keep covering every layer exactly when the route never returns to a node it left. */
  lemma CoverageNeedsNoReturn(path: seq<nat>, left: map<nat, Range>)
    requires Stretches(path, left)
    ensures (forall l :: 0 <= l < |path| ==> CoveredAt(left, l)) <==> NeverReturns(path)
  {
    hide CoveredAt, Stretches;
    forall l | 0 <= l < |path| ensures CoveredAt(left, l) <==> !LostAt(path, l) {
      CoveredUnlessLost(path, left, l);
    }
    ReturningLoses(path);
  }

  lemma ReturningLoses(path: seq<nat>)
    ensures NeverReturns(path) <==> forall l :: 0 <= l < |path| ==> !LostAt(path, l)
  {
    if !NeverReturns(path) {
      var a, b, c :| 0 <= a < b < c < |path| && path[a] == path[c] && path[b] != path[a];
      assert LostAt(path, c);
    }
  }

  lemma StretchStops(path: seq<nat>, i: nat, r: Range, a: nat, b: nat, c: nat)
    requires FirstStretch(path, i, r) && a < b < c < |path| && path[a] == path[c] != path[b]
    ensures !Hosts(r, c)
  {
    if path[c] == i {
      assert r.start <= a;
    }
  }

  lemma StretchReaches(path: seq<nat>, r: Range, l: nat)
    requires l < |path| && FirstStretch(path, path[l], r) && !LostAt(path, l)
    ensures Hosts(r, l)
  {
    assert r.start <= l && path[r.start] == path[l];
    assert r.end <= l ==> !(r.start < r.end < l);
  }

  /** From the first use of a node on, the stretches chain to the last layer. */
  lemma {:induction false} StretchesChain(path: seq<nat>, left: map<nat, Range>, from: nat) returns (chain: seq<Range>)
    requires Stretches(path, left) && NeverReturns(path) && from <= |path|
    requires from < |path| ==> FirstUse(path, path[from], from)
    ensures ChainIn(left.Values, chain, from, |path|) && (from < |path| ==> chain != [])
    decreases |path| - from
  {
    if from == |path| {
      return [];
    }
    var i := path[from];
    assert i in left && FirstStretch(path, i, left[i]);
    var r := left[i];
    OneFirstUse(path, i, from, r.start);
    if r.end < |path| {
      forall m | 0 <= m < r.end ensures path[m] != path[r.end] {
        StaysAway(path, m, r.end - 1, r.end);
      }
    }
    var rest := StretchesChain(path, left, r.end);
    chain := [r] + rest;
    assert chain[1..] == rest;
  }

  lemma StaysAway(path: seq<nat>, a: nat, b: nat, c: nat)
    requires NeverReturns(path) && a <= b < c < |path| && path[b] != path[c]
    ensures path[a] != path[c]
  {
  }

  /** Where the route first uses node `i`. */
  function FirstOf(path: seq<nat>, i: nat): (f: nat)
    requires i in path
    ensures FirstUse(path, i, f)
  {
    if path[0] == i then 0
    else
      assert path == [path[0]] + path[1..];
      var f := 1 + FirstOf(path[1..], i);
      assert forall m :: 0 < m < f ==> path[m] == path[1..][m - 1];
      f
  }

  /** Where the run of node `i` from layer `l` on ends. */
  function RunEnd(path: seq<nat>, i: nat, l: nat): (end: nat)
    requires l <= |path|
    ensures l <= end <= |path| && (forall m :: l <= m < end ==> path[m] == i) && (end < |path| ==> path[end] != i)
    decreases |path| - l
  {
    if l < |path| && path[l] == i then RunEnd(path, i, l + 1) else l
  }

  /** The first unbroken stretch of a node on the route. */
  function StretchOf(path: seq<nat>, i: nat): Range
    requires i in path
  {
    Range(FirstOf(path, i), RunEnd(path, i, FirstOf(path, i)))
  }

  lemma OnlyOneStretch(path: seq<nat>, i: nat, r: Range)
    requires FirstStretch(path, i, r)
    ensures i in path && r == StretchOf(path, i)
  {
    OneFirstUse(path, i, r.start, FirstOf(path, i));
  }

  lemma OneFirstUse(path: seq<nat>, i: nat, f: int, g: int)
    requires FirstUse(path, i, f) && FirstUse(path, i, g)
    ensures f == g
  {
  }

  // ----- cutting the allocation -----

  function Truncated(alloc: Allocation, turns: seq<Turn>): (r: Allocation)
    ensures r.Keys == alloc.Keys
  {
    map id | id in alloc :: CutAll(alloc[id], id, turns)
  }

  ghost predicate AllStayProper(alloc: Allocation, turns: seq<Turn>) {
    forall id :: id in alloc ==> StaysProper(alloc[id], id, turns)
  }

  lemma {:induction false} PrefixStaysProper(r: Range, id: NodeId, turns: seq<Turn>, k: nat)
    requires StaysProper(r, id, turns) && k <= |turns|
    ensures StaysProper(r, id, turns[..k])
  {
    if k == |turns| {
      assert turns[..k] == turns;
    } else {
      PrefixStaysProper(r, id, turns[..|turns| - 1], k);
      assert turns[..|turns| - 1][..k] == turns[..k];
    }
  }

  /** One turn changes the named node's range. */
  lemma TurnApplied(alloc: Allocation, turns: seq<Turn>, k: nat)
    requires k < |turns|
    ensures var t := turns[k];
            var before := Truncated(alloc, turns[..k]);
            Truncated(alloc, turns[..k + 1]) == (if t.id in alloc then before[t.id := Cut(before[t.id], t)] else before)
  {
    var t := turns[k];
    assert turns[..k + 1] == turns[..k] + [t];
    var before, after := Truncated(alloc, turns[..k]), Truncated(alloc, turns[..k + 1]);
    forall id | id in alloc ensures after[id] == if id == t.id then Cut(before[id], t) else before[id] {
      CutAllAppend(alloc[id], id, turns[..k], t);
    }
  }

  /** Turn `k` is the first to empty a range: those before it were applied, and its node has no range left. */
  ghost predicate StoppedAt(alloc: Allocation, turns: seq<Turn>, after: Allocation, k: nat) {
    && k < |turns| && AllStayProper(alloc, turns[..k]) && !AllStayProper(alloc, turns[..k + 1])
    && after == Truncated(alloc, turns[..k]) - {turns[k].id}
  }

  /** A turn keeps all ranges proper exactly when the one it cuts, if any, stays nonempty. */
  lemma NextStaysProper(alloc: Allocation, turns: seq<Turn>, k: nat)
    requires k < |turns| && AllStayProper(alloc, turns[..k])
    ensures var t := turns[k];
            AllStayProper(alloc, turns[..k + 1]) <==>
              (t.id in alloc ==> Cut(Truncated(alloc, turns[..k])[t.id], t).start < Cut(Truncated(alloc, turns[..k])[t.id], t).end)
  {
    hide Cut;
    var t := turns[k];
    assert turns[..k + 1] == turns[..k] + [t];
    forall id | id in alloc
      ensures StaysProper(alloc[id], id, turns[..k + 1]) <==>
              (id == t.id ==> Cut(CutAll(alloc[id], id, turns[..k]), t).start < Cut(CutAll(alloc[id], id, turns[..k]), t).end)
    {
      CutAllAppend(alloc[id], id, turns[..k], t);
      ProperCut(alloc[id], id, turns[..k]);
      assert StaysProper(alloc[id], id, turns[..k]);
    }
  }

  lemma LongerIsNoBetter(alloc: Allocation, turns: seq<Turn>, k: nat)
    requires k <= |turns| && AllStayProper(alloc, turns)
    ensures AllStayProper(alloc, turns[..k])
  {
    forall id | id in alloc ensures StaysProper(alloc[id], id, turns[..k]) {
      PrefixStaysProper(alloc[id], id, turns, k);
    }
  }

  lemma ProperFromTheStart(a: Allocator)
    requires a.Valid()
    ensures AllStayProper(a.allocation, [])
  {
    assert a.LoadsOk();
  }

  /** Applies the turns one after another through the allocator.  A turn for an unknown or unallocated node is
      skipped.  It raises exactly when some turn empties a range; the first such turn takes the range away. */
  method ApplyTurns(a: Allocator, turns: seq<Turn>) returns (r: Result<()>)
    requires a.Valid()
    modifies a, Members(a.nodes), a.loads
    ensures a.Valid() && a.nodes == old(a.nodes) && a.nodeById == old(a.nodeById)
    ensures AllocatedAreListed(old(a.nodes), old(a.allocation)) ==>
              && (r == Ok(()) <==> AllStayProper(old(a.allocation), turns))
              && (r == Ok(()) ==> a.allocation == Truncated(old(a.allocation), turns))
              && (r.Raise? ==> r.error == EmptyRange && exists k :: StoppedAt(old(a.allocation), turns, a.allocation, k))
    ensures NoneActivated(Members(a.nodes))
  {
    hide Allocator.Valid, Truncated, AllStayProper, StaysProper, CutAll;
    r := Ok(());
    ghost var alloc := a.allocation;
    NothingCut(alloc);
    ProperFromTheStart(a);
    assert turns[..0] == [];
    for k := 0 to |turns|
      invariant a.Valid() && a.nodes == old(a.nodes) && a.nodeById == old(a.nodeById)
      invariant r == Ok(())
      invariant AllocatedAreListed(a.nodes, alloc) ==>
                  a.allocation == Truncated(alloc, turns[..k]) && AllStayProper(alloc, turns[..k])
      invariant NoneActivated(Members(a.nodes))
    {
      TurnApplied(alloc, turns, k);
      if AllocatedAreListed(a.nodes, alloc) {
        NextStaysProper(alloc, turns, k);
      }
      var t := turns[k];
      var at := FirstWith(a.nodes, t.id);
      if at == |a.nodes| || a.nodes[at].range == None {
        SkippedTurn(a, t, at);
        SameAllocated(a.nodes, alloc, a.allocation);
        continue;
      }
      var node := a.nodes[at];
      NodeRange(a, node);
      var range := node.range.value;
      if t.kind == Tail && t.layer < range.end {
        r := a.Reallocate(node, range.start, t.layer);
      } else if t.kind == Head && t.layer > range.start {
        r := a.Reallocate(node, t.layer, range.end);
      }
      if r.Raise? {
        if AllocatedAreListed(a.nodes, alloc) {
          assert StoppedAt(alloc, turns, a.allocation, k);
          if AllStayProper(alloc, turns) {
            LongerIsNoBetter(alloc, turns, k + 1);
          }
        }
        return;
      }
    }
    assert turns[..|turns|] == turns;
  }

  /** Every allocated node is on the node list. */
  ghost predicate AllocatedAreListed(nodes: seq<Node>, alloc: Allocation) {
    forall id :: id in alloc ==> exists k :: 0 <= k < |nodes| && nodes[k].id == id
  }

  lemma SameAllocated(nodes: seq<Node>, alloc: Allocation, other: Allocation)
    ensures alloc.Keys == other.Keys ==> (AllocatedAreListed(nodes, alloc) <==> AllocatedAreListed(nodes, other))
  {
  }

  lemma NothingCut(alloc: Allocation)
    ensures Truncated(alloc, []) == alloc
  {
  }

  lemma NodeRange(a: Allocator, node: Node)
    requires a.Valid() && node in a.nodes && node.range.Some?
    ensures node.id in a.nodeById && a.nodeById[node.id] == node && node in Members(a.nodes)
    ensures node.id in a.allocation && a.allocation[node.id] == node.range.value
    ensures 0 <= node.range.value.start < node.range.value.end <= a.layers
  {
    assert a.NodesOk() && a.RangesOk() && a.LoadsOk();
  }

  /** A turn is skipped only when its node has no range. */
  lemma SkippedTurn(a: Allocator, t: Turn, at: nat)
    requires a.Valid() && at == FirstWith(a.nodes, t.id) && (at == |a.nodes| || a.nodes[at].range == None)
    ensures AllocatedAreListed(a.nodes, a.allocation) ==> t.id !in a.allocation
  {
    assert a.NodesOk() && a.RangesOk();
    forall k | 0 <= k < |a.nodes| && a.nodes[k].id == t.id ensures t.id !in a.allocation {
      assert k == at;
      assert a.nodeById[t.id] == a.nodes[k];
    }
  }

  // ----- the whole warm-up -----

  /** The shards the search works on are the listed nodes with their allocated ranges. */
  ghost predicate Snapshot(shards: seq<Shard>, nodes: seq<Node>, alloc: Allocation) {
    |shards| == |nodes| && forall i :: 0 <= i < |shards| ==> shards[i].id == nodes[i].id && ShardOf(shards[i], alloc)
  }

  ghost predicate ShardOf(shard: Shard, alloc: Allocation) {
    shard.range == if shard.id in alloc then Some(alloc[shard.id]) else None
  }

  ghost predicate ShardsOf(shards: seq<Shard>, alloc: Allocation) {
    && (forall i :: 0 <= i < |shards| ==> ShardOf(shards[i], alloc))
    && (forall a, b :: 0 <= a < b < |shards| ==> shards[a].id != shards[b].id)
  }

  /** What the allocation holds for the nodes of the route. */
  ghost function LeftOnRoute(shards: seq<Shard>, path: seq<nat>, alloc: Allocation): map<nat, Range>
    requires InNodes(shards, path) && forall k :: 0 <= k < |path| ==> shards[path[k]].id in alloc
  {
    map i | i in path :: alloc[shards[i].id]
  }

  /** After warm-up: with no finite route nothing changed; otherwise the nodes on the route keep their
      first stretch and the others everything. */
  ghost predicate Warmed(shards: seq<Shard>, before: Allocation, after: Allocation, path: seq<nat>, cost: Time) {
    && after.Keys == before.Keys
    && (path == [] || cost.Inf? ==> after == before)
    && (path != [] && cost.Fin? ==>
          && InNodes(shards, path) && (forall k :: 0 <= k < |path| ==> shards[path[k]].id in after)
          && Stretches(path, LeftOnRoute(shards, path, after))
          && (forall id :: id in before && (forall k :: 0 <= k < |path| ==> shards[path[k]].id != id) ==> after[id] == before[id]))
  }

  lemma RouteOnNodes(shards: seq<Shard>, alloc: Allocation, layers: nat, path: seq<nat>, cost: Time, i: nat)
    requires ShardsOf(shards, alloc) && ValidRanges(alloc, layers) && BestRoute(shards, layers, path, cost) && cost.Fin?
    requires i in path
    ensures OnNodes(shards, path) && shards[i].range.Some? && shards[i].id in alloc
    ensures shards[i].range.value == alloc[shards[i].id]
    ensures 0 <= shards[i].range.value.start < shards[i].range.value.end <= |path|
  {
    var k :| 0 <= k < |path| && path[k] == i;
    assert HostsLayer(shards, path[k], k);
    assert ShardOf(shards[i], alloc);
  }

  lemma TurnsKeepRangesProper(shards: seq<Shard>, alloc: Allocation, layers: nat, path: seq<nat>, cost: Time, id: NodeId)
    requires ShardsOf(shards, alloc) && ValidRanges(alloc, layers) && BestRoute(shards, layers, path, cost) && cost.Fin?
    requires id in alloc && InNodes(shards, path)
    ensures var turns := Tails(shards, path, |path|) + Heads(shards, path, |path|);
            && StaysProper(alloc[id], id, turns)
            && (forall k :: 0 <= k < |path| && shards[path[k]].id == id ==> FirstStretch(path, path[k], CutAll(alloc[id], id, turns)))
            && ((forall k :: 0 <= k < |path| ==> shards[path[k]].id != id) ==> CutAll(alloc[id], id, turns) == alloc[id])
  {
    hide Tails, Heads, CutAll, StaysProper, BestRoute, OnNodes, FirstStretch;
    if k :| 0 <= k < |path| && shards[path[k]].id == id {
      RouteOnNodes(shards, alloc, layers, path, cost, path[k]);
      CutIsFirstStretch(shards, path, path[k]);
      assert forall m :: 0 <= m < |path| && shards[path[m]].id == id ==> path[m] == path[k];
    } else {
      OffRoute(shards, path, alloc[id], id, |path|);
    }
  }

  lemma WarmUpAllocation(shards: seq<Shard>, alloc: Allocation, layers: nat, path: seq<nat>, cost: Time)
    requires ShardsOf(shards, alloc) && ValidRanges(alloc, layers)
    requires path != [] ==> BestRoute(shards, layers, path, cost)
    ensures InNodes(shards, path)
    ensures var turns := Tails(shards, path, |path|) + Heads(shards, path, |path|);
            AllStayProper(alloc, turns) && Warmed(shards, alloc, Truncated(alloc, turns), path, cost)
  {
    if path == [] || cost.Inf? {
      NoTurns(shards, alloc, path);
      NothingCut(alloc);
    } else {
      FiniteWarmUp(shards, alloc, layers, path, cost);
    }
  }

  lemma FiniteWarmUp(shards: seq<Shard>, alloc: Allocation, layers: nat, path: seq<nat>, cost: Time)
    requires ShardsOf(shards, alloc) && ValidRanges(alloc, layers)
    requires path != [] && cost.Fin? && BestRoute(shards, layers, path, cost) && InNodes(shards, path)
    ensures var turns := Tails(shards, path, |path|) + Heads(shards, path, |path|);
            AllStayProper(alloc, turns) && Warmed(shards, alloc, Truncated(alloc, turns), path, cost)
  {
    hide Tails, Heads, CutAll, StaysProper, BestRoute, FirstStretch, Warmed, ShardsOf, ValidRanges;
    var turns := Tails(shards, path, |path|) + Heads(shards, path, |path|);
    var after := Truncated(alloc, turns);
    forall id | id in alloc
      ensures StaysProper(alloc[id], id, turns)
      ensures forall k :: 0 <= k < |path| && shards[path[k]].id == id ==> FirstStretch(path, path[k], after[id])
      ensures (forall k :: 0 <= k < |path| ==> shards[path[k]].id != id) ==> after[id] == alloc[id]
    {
      TurnsKeepRangesProper(shards, alloc, layers, path, cost, id);
    }
    forall k | 0 <= k < |path| ensures shards[path[k]].id in alloc {
      RouteOnNodes(shards, alloc, layers, path, cost, path[k]);
    }
    WarmedFromStretches(shards, alloc, after, path, cost);
  }

  lemma WarmedFromStretches(shards: seq<Shard>, before: Allocation, after: Allocation, path: seq<nat>, cost: Time)
    requires after.Keys == before.Keys && path != [] && cost.Fin? && InNodes(shards, path)
    requires forall k :: 0 <= k < |path| ==> shards[path[k]].id in before
    requires forall id, k :: id in after && 0 <= k < |path| && shards[path[k]].id == id ==> FirstStretch(path, path[k], after[id])
    requires forall id :: id in before ==> (forall k :: 0 <= k < |path| ==> shards[path[k]].id != id) ==> after[id] == before[id]
    ensures Warmed(shards, before, after, path, cost)
  {
    hide FirstStretch;
    var left := LeftOnRoute(shards, path, after);
    forall i | i in left ensures FirstStretch(path, i, left[i]) {
      var k :| 0 <= k < |path| && path[k] == i;
      assert shards[path[k]].id in after;
    }
  }

  lemma NoTurns(shards: seq<Shard>, alloc: Allocation, path: seq<nat>)
    requires ShardsOf(shards, alloc) && |path| <= 1 && InNodes(shards, path)
    requires forall id :: id in alloc ==> 0 <= alloc[id].start < alloc[id].end
    ensures Tails(shards, path, |path|) + Heads(shards, path, |path|) == []
    ensures AllStayProper(alloc, [])
  {
    if path != [] {
      assert ShardOf(shards[path[0]], alloc);
      assert Heads(shards, path, 0) == [];
    }
  }

  /** While the route never returns, its nodes alone still form a full pipeline. */
  lemma WarmedPipeline(shards: seq<Shard>, before: Allocation, after: Allocation, layers: nat, path: seq<nat>, cost: Time)
    requires path != [] && cost.Fin? && |path| == layers && Warmed(shards, before, after, path, cost) && NeverReturns(path)
    ensures FullPipeline(after, layers)
  {
    var left := LeftOnRoute(shards, path, after);
    var chain := StretchesChain(path, left, 0);
    forall q | 0 <= q < |chain| ensures chain[q] in after.Values {
      var i :| i in left && left[i] == chain[q];
      assert after[shards[i].id] == chain[q];
    }
    assert ChainIn(after.Values, chain, 0, layers);
  }

  /** Every range lies within the one it was. */
  ghost predicate Shrunk(before: Allocation, after: Allocation) {
    after.Keys == before.Keys
    && forall id :: id in after ==> before[id].start <= after[id].start && after[id].end <= before[id].end
  }

  lemma {:induction false} CutAllShrinks(r: Range, id: NodeId, turns: seq<Turn>)
    ensures r.start <= CutAll(r, id, turns).start && CutAll(r, id, turns).end <= r.end
  {
    if turns != [] {
      CutAllShrinks(r, id, turns[..|turns| - 1]);
    }
  }

  lemma TruncatedShrinks(alloc: Allocation, turns: seq<Turn>)
    ensures Shrunk(alloc, Truncated(alloc, turns))
  {
    forall id | id in alloc
      ensures alloc[id].start <= Truncated(alloc, turns)[id].start && Truncated(alloc, turns)[id].end <= alloc[id].end
    {
      CutAllShrinks(alloc[id], id, turns);
    }
  }

  /** A node off the route hosts the layer. */
  ghost predicate HeldOff(shards: seq<Shard>, path: seq<nat>, alloc: Allocation, l: int) {
    exists id :: id in alloc && Hosts(alloc[id], l) && OffRouteId(shards, path, id)
  }

  ghost predicate OffRouteId(shards: seq<Shard>, path: seq<nat>, id: NodeId) {
    forall k :: 0 <= k < |path| && path[k] < |shards| ==> shards[path[k]].id != id
  }

  lemma {:induction false} ChainCovers(chain: seq<Range>, ranges: set<Range>, from: int, to: int, l: int) returns (r: Range)
    requires ChainIn(ranges, chain, from, to) && from <= l < to
    ensures r in ranges && Hosts(r, l)
  {
    if l < chain[0].end {
      r := chain[0];
    } else {
      r := ChainCovers(chain[1..], ranges, chain[0].end, to, l);
    }
  }

  /** If a full pipeline is left, every layer the route's nodes lost is hosted by a node off the route, and was
      before. */
  lemma LostLayersAreHeld(shards: seq<Shard>, before: Allocation, after: Allocation, layers: nat, path: seq<nat>, cost: Time, l: nat)
    requires path != [] && cost.Fin? && |path| == layers && Warmed(shards, before, after, path, cost)
    requires FullPipeline(after, layers) && LostAt(path, l)
    ensures HeldOff(shards, path, before, l)
  {
    hide LostAt, Stretches;
    assert l < |path| by { LostIsThere(path, l); }
    var left := LeftOnRoute(shards, path, after);
    CoveredUnlessLost(path, left, l);
    var chain: seq<Range> :| chain != [] && ChainIn(after.Values, chain, 0, layers);
    var r := ChainCovers(chain, after.Values, 0, layers, l);
    var id :| id in after && after[id] == r;
    forall k | 0 <= k < |path| && path[k] < |shards| ensures shards[path[k]].id != id {
      assert path[k] in left;
    }
    assert OffRouteId(shards, path, id) && before[id] == r;
  }

  lemma LostIsThere(path: seq<nat>, l: int)
    requires LostAt(path, l)
    ensures 0 <= l < |path|
  {
  }

  /** Searches the cheapest route and cuts every node back to its turning points. */
  method RunWarmup(a: Allocator, shards: seq<Shard>) returns (ghost path: seq<nat>, ghost cost: Time, r: Result<()>)
    requires a.Valid() && AllocatedAreListed(a.nodes, a.allocation) && Snapshot(shards, a.nodes, a.allocation)
    modifies a, Members(a.nodes), a.loads
    ensures a.Valid() && a.nodes == old(a.nodes) && a.nodeById == old(a.nodeById) && r == Ok(())
    ensures path != [] <==> a.layers > 0 && shards != [] && EveryLayerHosted(shards, a.layers)
    ensures path != [] ==> BestRoute(shards, a.layers, path, cost)
    ensures Warmed(shards, old(a.allocation), a.allocation, path, cost) && Shrunk(old(a.allocation), a.allocation)
    ensures path != [] && cost.Fin? ==>
              && ((forall l :: 0 <= l < a.layers ==> CoveredAt(LeftOnRoute(shards, path, a.allocation), l)) <==> NeverReturns(path))
              && (NeverReturns(path) ==> FullPipeline(a.allocation, a.layers))
              && (FullPipeline(a.allocation, a.layers) ==>
                    forall l :: LostAt(path, l) ==> HeldOff(shards, path, old(a.allocation), l))
    ensures NoneActivated(Members(a.nodes))
  {
    SnapshotShards(a, shards);
    hide FullPipeline, HeldOff, LostAt, Allocator.Valid, Warmed, Shrunk, Tails, Heads, AllStayProper, Truncated, EveryLayerHosted;
    var turns;
    turns, path, cost := FindTurningPoints(shards, a.layers);
    WarmUpAllocation(shards, a.allocation, a.layers, path, cost);
    ghost var before := a.allocation;
    TruncatedShrinks(before, turns);
    r := ApplyTurns(a, turns);
    if path != [] && cost.Fin? {
      WarmedLeft(shards, before, a.allocation, path, cost);
      CoverageNeedsNoReturn(path, LeftOnRoute(shards, path, a.allocation));
      if NeverReturns(path) {
        WarmedPipeline(shards, before, a.allocation, a.layers, path, cost);
      }
      if FullPipeline(a.allocation, a.layers) {
        forall l | LostAt(path, l) ensures HeldOff(shards, path, before, l) {
          LostIsThere(path, l);
          LostLayersAreHeld(shards, before, a.allocation, a.layers, path, cost, l);
        }
      }
    }
  }

  lemma WarmedLeft(shards: seq<Shard>, before: Allocation, after: Allocation, path: seq<nat>, cost: Time)
    requires path != [] && cost.Fin? && Warmed(shards, before, after, path, cost)
    ensures InNodes(shards, path) && (forall k :: 0 <= k < |path| ==> shards[path[k]].id in after)
    ensures Stretches(path, LeftOnRoute(shards, path, after))
  {
  }

  lemma SnapshotShards(a: Allocator, shards: seq<Shard>)
    requires a.Valid() && Snapshot(shards, a.nodes, a.allocation)
    ensures ShardsOf(shards, a.allocation) && ValidRanges(a.allocation, a.layers)
  {
    assert a.NodesOk() && a.LoadsOk();
  }

  // ----- a route that returns -----

  /** Node A hosts all three layers, node B the middle one, and B is much faster. */
  function Returning(): (seq<Shard>, Allocation) {
    ([Shard("A", Some(Range(0, 3)), true, Fin(10.0), map["B" := 1.0]),
      Shard("B", Some(Range(1, 2)), true, Fin(1.0), map["A" := 1.0])],
     map["A" := Range(0, 3), "B" := Range(1, 2)])
  }

  lemma ReturningRouteIsBest()
    ensures BestRoute(Returning().0, 3, [0, 1, 0], Fin(23.0)) && !NeverReturns([0, 1, 0])
  {
    var shards := Returning().0;
    assert Route(shards, [0, 1, 0]) && [0, 1, 0][..2] == [0, 1] && [0, 1][..1] == [0];
    assert RouteCost(shards, [0]) == Fin(10.0) && RouteCost(shards, [0, 1]) == Fin(12.0);
    assert RouteCost(shards, [0, 1, 0]) == Fin(23.0);
    forall q: seq<nat> | |q| == 3 && Route(shards, q) ensures CostsNoLess(shards, q, Fin(23.0)) {
      assert HostsLayer(shards, q[0], 0) && HostsLayer(shards, q[1], 1) && HostsLayer(shards, q[2], 2);
      assert q[0] == 0 && q[2] == 0 && (q[1] == 0 || q[1] == 1);
      if q[1] == 0 {
        assert q == [0, 0, 0] && [0, 0, 0][..2] == [0, 0] && [0, 0][..1] == [0];
        assert Route(shards, [0, 0]);
        assert RouteCost(shards, [0]) == Fin(10.0) && RouteCost(shards, [0, 0]) == Fin(20.0);
      } else {
        assert q == [0, 1, 0];
      }
    }
    var path := [0, 1, 0];
    assert path[0] == path[2] && path[1] != path[0];
  }

  lemma ReturningTurns()
    ensures Tails(Returning().0, [0, 1, 0], 3) + Heads(Returning().0, [0, 1, 0], 3) == [Turn("A", 1, Tail)]
  {
    var shards := Returning().0;
    var path := [0, 1, 0];
    assert Tails(shards, path, 1) == [] && Tails(shards, path, 2) == [Turn("A", 1, Tail)];
    assert Tails(shards, path, 3) == [Turn("A", 1, Tail)];
    assert Heads(shards, path, 0) == [] && Heads(shards, path, 1) == [];
    assert Heads(shards, path, 2) == [];
    assert path[0] in path[..2];
    assert Heads(shards, path, 3) == [];
  }

  lemma ReturningCut()
    ensures Truncated(Returning().1, [Turn("A", 1, Tail)]) == map["A" := Range(0, 1), "B" := Range(1, 2)]
  {
    var turns := [Turn("A", 1, Tail)];
    assert turns[..0] == [];
    assert CutAll(Range(0, 3), "A", turns) == Range(0, 1) && CutAll(Range(1, 2), "B", turns) == Range(1, 2);
  }

  /** Warm-up on these two nodes destroys the only full pipeline: layer 2 is no longer hosted. */
  lemma ReturningRouteLosesThePipeline()
    ensures var (shards, alloc) := Returning();
            var turns := Tails(shards, [0, 1, 0], 3) + Heads(shards, [0, 1, 0], 3);
            FullPipeline(alloc, 3) && !FullPipeline(Truncated(alloc, turns), 3)
  {
    var alloc := Returning().1;
    assert alloc["A"] in alloc.Values && Chain([Range(0, 3)], 0, 3);
    assert ChainIn(alloc.Values, [Range(0, 3)], 0, 3);
    ReturningTurns();
    ReturningCut();
    hide Tails, Heads, Truncated;
    var after: Allocation := map["A" := Range(0, 1), "B" := Range(1, 2)];
    forall chain: seq<Range> | chain != [] ensures !ChainIn(after.Values, chain, 0, 3) {
      EndsTooEarly(chain, after.Values, 0, 3);
    }
  }

  lemma {:induction false} EndsTooEarly(chain: seq<Range>, ranges: set<Range>, from: int, to: int)
    requires from < 3 && forall r :: r in ranges ==> r.end < 3
    ensures ChainIn(ranges, chain, from, to) ==> to < 3
  {
    if chain != [] && ChainIn(ranges, chain, from, to) {
      assert chain[0] in ranges;
      EndsTooEarly(chain[1..], ranges, chain[0].end, to);
    }
  }
}
