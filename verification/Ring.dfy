/** The ring protocol: requests circulate from the first peer over the others and back, one token per lap. */
module Ring {
  // Each action is one atomic step of one peer.  Messages are delivered in any order.

  import opened Outcomes

  type PeerId = string
  type Rid = string

  datatype Phase = Prefill | Decode

  /** A running request on one peer: the phase of its current copy, and whether it waits for a step. */
  datatype Slot = Slot(phase: Phase, ready: bool)

  /** A peer's queue and running requests, how many may run at once, and its token budget for a batch. */
  datatype Peer = Peer(waiting: seq<Rid>, running: map<Rid, Slot>, slots: nat, budget: int)

  /** A packet with hidden states or a token, or the news that a request is over. */
  datatype Note = Forward(rid: Rid, phase: Phase) | Over(rid: Rid)

  datatype Envelope = Envelope(to: PeerId, note: Note)

  /** Each request has its route and the length of its prompt, which only its first peer knows. */
  datatype State = State(peers: map<PeerId, Peer>, net: multiset<Envelope>, routes: map<Rid, seq<PeerId>>,
                         lengths: map<Rid, nat>)

  /** A client's request arrives, a peer admits the head of its queue (or drops it, when the cache is
      full), a peer runs a ready request, a peer handles a message.  `done` is whether a token committed
      in the step was the last one. */
  datatype Action =
    | Arrive(rid: Rid, route: seq<PeerId>, length: nat)
    | Admit(peer: PeerId, fits: bool)
    | Process(peer: PeerId, rid: Rid, done: bool)
    | Deliver(envelope: Envelope, done: bool)

  predicate DistinctPeers(route: seq<PeerId>) {
    forall i, j :: 0 <= i < j < |route| ==> route[i] != route[j]
  }

  /** Position of the peer on the route. */
  function IndexIn(route: seq<PeerId>, p: PeerId): (i: nat)
    requires p in route
    ensures i < |route| && route[i] == p
  {
    if route[0] == p then 0 else 1 + IndexIn(route[1..], p)
  }

  /** The next hop; after the last peer comes the first. */
  function NextPeer(route: seq<PeerId>, p: PeerId): PeerId
    requires p in route
  {
    route[(IndexIn(route, p) + 1) % |route|]
  }

  predicate IsFirst(route: seq<PeerId>, p: PeerId) {
    route != [] && route[0] == p
  }

  predicate IsLast(route: seq<PeerId>, p: PeerId) {
    route != [] && route[|route| - 1] == p
  }

  /** What a batch is charged for the request: its prompt on the first peer, nothing for a prefill on the
      others, one token for a decode. */
  function Cost(s: State, p: PeerId, rid: Rid, phase: Phase): nat {
    if phase == Decode then 1
    else if rid in s.routes && IsFirst(s.routes[rid], p) && rid in s.lengths then s.lengths[rid]
    else 0
  }

  /** What an action demands of the state: its peer exists, has something to do and is not held back by its
      limits.  No more requests run than there are slots, and none runs that is over the budget by itself. */
  predicate Enabled(s: State, a: Action) {
    match a
    case Arrive(rid, route, _) => rid !in s.routes && route != [] && DistinctPeers(route) && forall p :: p in route ==> p in s.peers
    case Admit(p, _) => p in s.peers && s.peers[p].waiting != [] && |s.peers[p].running| < s.peers[p].slots
    case Process(p, rid, _) =>
      && p in s.peers && rid in s.peers[p].running && s.peers[p].running[rid].ready && rid in s.routes && p in s.routes[rid]
      && Cost(s, p, rid, s.peers[p].running[rid].phase) <= s.peers[p].budget
    case Deliver(e, _) => e in s.net && e.to in s.peers && e.note.rid in s.routes && e.to in s.routes[e.note.rid]
  }

  /** The request becomes known. */
  function Known(s: State, rid: Rid, route: seq<PeerId>, length: nat): State {
    s.(routes := s.routes[rid := route], lengths := s.lengths[rid := length])
  }

  function SetSlot(s: State, p: PeerId, rid: Rid, slot: Slot): State
    requires p in s.peers
  {
    s.(peers := s.peers[p := s.peers[p].(running := s.peers[p].running[rid := slot])])
  }

  function DropSlot(s: State, p: PeerId, rid: Rid): State
    requires p in s.peers
  {
    s.(peers := s.peers[p := s.peers[p].(running := s.peers[p].running - {rid})])
  }

  function Enqueue(s: State, p: PeerId, rid: Rid): State
    requires p in s.peers
  {
    s.(peers := s.peers[p := s.peers[p].(waiting := s.peers[p].waiting + [rid])])
  }

  /** Takes the head of the queue. */
  function Dequeue(s: State, p: PeerId): State
    requires p in s.peers && s.peers[p].waiting != []
  {
    s.(peers := s.peers[p := s.peers[p].(waiting := s.peers[p].waiting[1..])])
  }

  function Receive(s: State, e: Envelope): State {
    s.(net := s.net - multiset{e})
  }

  function Send(s: State, to: PeerId, note: Note): State {
    s.(net := s.net + multiset{Envelope(to, note)})
  }

  /** The news goes to every other peer of the route. */
  function Broadcast(s: State, route: seq<PeerId>, rid: Rid): State
  {
    if route == [] then s else Send(Broadcast(s, route[..|route| - 1], rid), route[|route| - 1], Over(rid))
  }

  /** The first peer commits a token: the request ends, or is ready for the next lap. */
  function Commit(s: State, route: seq<PeerId>, rid: Rid, done: bool): State
    requires route != [] && route[0] in s.peers
  {
    if done then Broadcast(DropSlot(s, route[0], rid), route[1..], rid) else SetSlot(s, route[0], rid, Slot(Decode, true))
  }

  /** One step.  A decode packet for a request that was never admitted raises. */
  function Apply(s: State, a: Action): (r: Result<State>)
    requires Enabled(s, a)
  {
    match a
    case Arrive(rid, route, length) => Ok(Enqueue(Known(s, rid, route, length), route[0], rid))
    case Admit(p, fits) =>
      var rid := s.peers[p].waiting[0];
      var s' := Dequeue(s, p);
      if rid in s.peers[p].running || !fits then Ok(s') else Ok(SetSlot(s', p, rid, Slot(Prefill, true)))
    case Process(p, rid, done) =>
      var route := s.routes[rid];
      var slot := s.peers[p].running[rid];
      var s' := SetSlot(s, p, rid, Slot(slot.phase, false));
      if IsFirst(route, p) && IsLast(route, p) then Ok(Commit(s', route, rid, done))
      else Ok(Send(s', NextPeer(route, p), Forward(rid, if IsLast(route, p) then Decode else slot.phase)))
    case Deliver(e, done) =>
      var route := s.routes[e.note.rid];
      var rid := e.note.rid;
      var s' := Receive(s, e);
      match e.note
      case Over(_) => Ok(DropSlot(s', e.to, rid))
      case Forward(_, phase) =>
        if IsFirst(route, e.to) then
          if rid in s.peers[e.to].running then Ok(Commit(s', route, rid, done)) else Ok(s')
        else if phase == Prefill then Ok(Enqueue(s', e.to, rid))
        else if rid in s.peers[e.to].running then Ok(SetSlot(s', e.to, rid, Slot(Decode, true)))
        else Raise(UnknownRequest)
  }

  // ----- the invariant -----

  /** Where the one copy of a request that may still move is. */
  datatype Place = Nowhere | Waits(at: PeerId) | Ready(at: PeerId) | Flies(to: PeerId, phase: Phase)

  /** The request waits on the queue of at most the one peer named by the place, and once. */
  ghost predicate QueuedAt(peers: map<PeerId, Peer>, rid: Rid, place: Place) {
    forall p :: p in peers ==> multiset(peers[p].waiting)[rid] == if place == Waits(p) then 1 else 0
  }

  ghost predicate ReadyAt(peers: map<PeerId, Peer>, rid: Rid, place: Place) {
    forall p :: p in peers ==> (rid in peers[p].running && peers[p].running[rid].ready <==> place == Ready(p))
  }

  ghost predicate FlyingAt(net: multiset<Envelope>, rid: Rid, place: Place) {
    forall to, phase :: net[Envelope(to, Forward(rid, phase))] == if place == Flies(to, phase) then 1 else 0
  }

  /** The only copy of the request is at that place. */
  ghost predicate OnlyAt(s: State, rid: Rid, place: Place) {
    QueuedAt(s.peers, rid, place) && ReadyAt(s.peers, rid, place) && FlyingAt(s.net, rid, place)
  }

  /** The peers on which the request is running. */
  ghost function Holders(s: State, rid: Rid): set<PeerId> {
    set p | p in s.peers && rid in s.peers[p].running
  }

  /** The first `k` peers of the route hold the request. */
  ghost predicate HeldBy(holders: set<PeerId>, route: seq<PeerId>, k: nat)
    requires k <= |route|
  {
    forall i :: 0 <= i < k ==> route[i] in holders
  }

  /** Exactly the first `k` peers of the route hold it. */
  ghost predicate PassedOnly(holders: set<PeerId>, route: seq<PeerId>, k: nat)
    requires k <= |route|
  {
    HeldBy(holders, route, k) && forall i :: k <= i < |route| ==> route[i] !in holders
  }

  ghost predicate OverSent(s: State, rid: Rid) {
    exists p :: Envelope(p, Over(rid)) in s.net
  }

  /** Everyone the copy has passed holds the request; in the decode phase that is everyone. */
  ghost predicate PlacedWell(s: State, rid: Rid, place: Place)
    requires rid in s.routes
  {
    var route := s.routes[rid];
    && route != [] && DistinctPeers(route) && (forall p :: p in route ==> p in s.peers)
    && (place != Nowhere ==> !OverSent(s, rid))
    && match place
       case Nowhere => true
       case Waits(p) => p in route && PassedOnly(Holders(s, rid), route, IndexIn(route, p))
       case Ready(p) =>
         && p in route && rid in s.peers[p].running
         && (if s.peers[p].running[rid].phase == Prefill then PassedOnly(Holders(s, rid), route, IndexIn(route, p) + 1)
             else HeldBy(Holders(s, rid), route, |route|))
       case Flies(p, Prefill) => p in route && !IsFirst(route, p) && PassedOnly(Holders(s, rid), route, IndexIn(route, p))
       case Flies(p, Decode) => p in route && HeldBy(Holders(s, rid), route, |route|)
  }

  /** A request that has not arrived is nowhere at all. */
  ghost predicate Unheard(s: State, rid: Rid) {
    (forall p :: p in s.peers ==> rid !in s.peers[p].running) && !OverSent(s, rid)
  }

  ghost predicate Fine(s: State, rid: Rid, place: Place) {
    OnlyAt(s, rid, place) && if rid in s.routes then PlacedWell(s, rid, place) else place == Nowhere && Unheard(s, rid)
  }

  /** Each request has at most one copy that may still move. */
  ghost predicate Inv(s: State) {
    forall rid :: HasPlace(s, rid)
  }

  ghost predicate HasPlace(s: State, rid: Rid) {
    exists place :: Fine(s, rid, place)
  }

  /** Nothing has happened yet. */
  ghost predicate Init(s: State) {
    && s.net == multiset{} && s.routes == map[] && s.lengths == map[]
    && forall p :: p in s.peers ==> s.peers[p].waiting == [] && s.peers[p].running == map[]
  }

  lemma InitInv(s: State)
    requires Init(s)
    ensures Inv(s)
  {
    forall rid ensures HasPlace(s, rid) {
      assert Fine(s, rid, Nowhere);
    }
  }

  // ----- steps keep it -----

  ghost predicate PeerAgrees(a: Peer, b: Peer, r: Rid) {
    && multiset(a.waiting)[r] == multiset(b.waiting)[r]
    && (r in a.running <==> r in b.running) && (r in a.running ==> a.running[r] == b.running[r])
  }

  ghost predicate NetAgrees(a: multiset<Envelope>, b: multiset<Envelope>, r: Rid) {
    forall e: Envelope :: e.note.rid == r ==> a[e] == b[e]
  }

  /** Nothing about the request differs between the two states. */
  ghost predicate Untouched(s: State, s': State, r: Rid) {
    && s.peers.Keys == s'.peers.Keys
    && (r in s.routes <==> r in s'.routes) && (r in s.routes ==> s.routes[r] == s'.routes[r])
    && (forall p :: p in s.peers ==> PeerAgrees(s.peers[p], s'.peers[p], r))
    && NetAgrees(s.net, s'.net, r)
  }

  lemma UntouchedNews(s: State, s': State, r: Rid)
    requires NetAgrees(s.net, s'.net, r)
    ensures OverSent(s, r) <==> OverSent(s', r)
  {
    if OverSent(s, r) {
      var p :| Envelope(p, Over(r)) in s.net;
      assert Envelope(p, Over(r)) in s'.net;
    }
    if OverSent(s', r) {
      var p :| Envelope(p, Over(r)) in s'.net;
      assert Envelope(p, Over(r)) in s.net;
    }
  }

  lemma UntouchedStaysThere(s: State, s': State, r: Rid, place: Place)
    requires Untouched(s, s', r) && OnlyAt(s, r, place)
    ensures OnlyAt(s', r, place) && Holders(s', r) == Holders(s, r)
  {
  }

  lemma UntouchedStaysFine(s: State, s': State, r: Rid, place: Place)
    requires Untouched(s, s', r) && Fine(s, r, place)
    ensures Fine(s', r, place)
  {
    UntouchedNews(s, s', r);
    UntouchedStaysThere(s, s', r, place);
    hide OnlyAt, OverSent, Holders, HeldBy;
  }

  lemma {:induction false} BroadcastSends(s: State, route: seq<PeerId>, rid: Rid)
    ensures var s' := Broadcast(s, route, rid);
            && s'.peers == s.peers && s'.routes == s.routes
            && forall e: Envelope :: e.note != Over(rid) ==> s'.net[e] == s.net[e]
  {
    if route != [] {
      BroadcastSends(s, route[..|route| - 1], rid);
    }
  }

  /** The news reaches every peer it is sent to. */
  lemma {:induction false} BroadcastReaches(s: State, route: seq<PeerId>, rid: Rid, p: PeerId)
    requires p in route
    ensures Envelope(p, Over(rid)) in Broadcast(s, route, rid).net
  {
    if p != route[|route| - 1] {
      BroadcastReaches(s, route[..|route| - 1], rid, p);
    }
  }

  function About(s: State, a: Action): Rid
    requires Enabled(s, a)
  {
    match a
    case Arrive(rid, _, _) => rid
    case Admit(p, _) => s.peers[p].waiting[0]
    case Process(_, rid, _) => rid
    case Deliver(e, _) => e.note.rid
  }

  function Replace(s: State, p: PeerId, peer: Peer): State {
    s.(peers := s.peers[p := peer])
  }

  lemma ReplaceUntouched(s: State, p: PeerId, peer: Peer, r: Rid)
    requires p in s.peers && PeerAgrees(s.peers[p], peer, r)
    ensures Untouched(s, Replace(s, p, peer), r)
  {
    var s' := Replace(s, p, peer);
    forall q | q in s.peers ensures PeerAgrees(s.peers[q], s'.peers[q], r) {
    }
    hide PeerAgrees;
  }

  lemma SlotUntouched(s: State, p: PeerId, rid: Rid, slot: Slot, r: Rid)
    requires p in s.peers && r != rid
    ensures Untouched(s, SetSlot(s, p, rid, slot), r) && Untouched(s, DropSlot(s, p, rid), r)
  {
    hide Untouched;
    var peer := s.peers[p];
    ReplaceUntouched(s, p, peer.(running := peer.running[rid := slot]), r);
    ReplaceUntouched(s, p, peer.(running := peer.running - {rid}), r);
  }

  lemma QueueUntouched(s: State, p: PeerId, rid: Rid, r: Rid)
    requires p in s.peers && r != rid
    ensures Untouched(s, Enqueue(s, p, rid), r)
    ensures s.peers[p].waiting != [] && s.peers[p].waiting[0] == rid ==> Untouched(s, Dequeue(s, p), r)
  {
    hide Untouched;
    var peer := s.peers[p];
    var w := peer.waiting;
    assert multiset(w + [rid])[r] == multiset(w)[r];
    ReplaceUntouched(s, p, peer.(waiting := w + [rid]), r);
    if w != [] && w[0] == rid {
      assert w == [w[0]] + w[1..];
      ReplaceUntouched(s, p, peer.(waiting := w[1..]), r);
    }
  }

  lemma NetUntouched(s: State, e: Envelope, r: Rid)
    requires e.note.rid != r
    ensures Untouched(s, Send(s, e.to, e.note), r) && Untouched(s, Receive(s, e), r)
  {
  }

  lemma BroadcastUntouched(s: State, route: seq<PeerId>, rid: Rid, r: Rid)
    requires r != rid
    ensures Untouched(s, Broadcast(s, route, rid), r)
  {
    BroadcastSends(s, route, rid);
    hide Broadcast;
  }

  lemma CommitUntouched(s: State, route: seq<PeerId>, rid: Rid, done: bool, r: Rid)
    requires route != [] && route[0] in s.peers && r != rid
    ensures Untouched(s, Commit(s, route, rid, done), r)
  {
    SlotUntouched(s, route[0], rid, Slot(Decode, true), r);
    hide SetSlot, DropSlot;
    if done {
      var dropped := DropSlot(s, route[0], rid);
      BroadcastUntouched(dropped, route[1..], rid, r);
      hide Untouched, Broadcast;
      UntouchedTwice(s, dropped, Broadcast(dropped, route[1..], rid), r);
    }
  }

  lemma UntouchedTwice(a: State, b: State, c: State, r: Rid)
    requires Untouched(a, b, r) && Untouched(b, c, r)
    ensures Untouched(a, c, r)
  {
  }

  /** A step concerns one request only. */
  lemma OthersUntouched(s: State, a: Action, r: Rid)
    requires Enabled(s, a) && r != About(s, a) && Apply(s, a).Ok?
    ensures Untouched(s, Apply(s, a).value, r)
  {
    hide Untouched, SetSlot, DropSlot, Enqueue, Dequeue, Send, Receive, Commit, NextPeer;
    var s' := Apply(s, a).value;
    match a
    case Arrive(rid, route, length) =>
      var known := Known(s, rid, route, length);
      assert Untouched(s, known, r) by { RouteUntouched(s, rid, route, length, r); }
      QueueUntouched(known, route[0], rid, r);
      UntouchedTwice(s, known, s', r);
    case Admit(p, fits) =>
      var rid := s.peers[p].waiting[0];
      var taken := Dequeue(s, p);
      QueueUntouched(s, p, rid, r);
      PeersStay(s, p);
      SlotUntouched(taken, p, rid, Slot(Prefill, true), r);
      UntouchedTwice(s, taken, SetSlot(taken, p, rid, Slot(Prefill, true)), r);
    case Process(p, rid, done) =>
      var route := s.routes[rid];
      var slot := Slot(s.peers[p].running[rid].phase, false);
      var stopped := SetSlot(s, p, rid, slot);
      SlotUntouched(s, p, rid, slot, r);
      SlotsStay(s, p, rid, slot);
      if IsFirst(route, p) && IsLast(route, p) {
        CommitUntouched(stopped, route, rid, done, r);
      } else {
        NetUntouched(stopped, Envelope(NextPeer(route, p), Forward(rid, if IsLast(route, p) then Decode else slot.phase)), r);
      }
      UntouchedTwice(s, stopped, s', r);
    case Deliver(e, done) =>
      var rid := e.note.rid;
      var route := s.routes[rid];
      var got := Receive(s, e);
      NetUntouched(s, e, r);
      ReceiveStays(s, e);
      SlotUntouched(got, e.to, rid, Slot(Decode, true), r);
      QueueUntouched(got, e.to, rid, r);
      if IsFirst(route, e.to) {
        CommitUntouched(got, route, rid, done, r);
        UntouchedTwice(s, got, Commit(got, route, rid, done), r);
      }
      UntouchedTwice(s, got, SetSlot(got, e.to, rid, Slot(Decode, true)), r);
      UntouchedTwice(s, got, DropSlot(got, e.to, rid), r);
      UntouchedTwice(s, got, Enqueue(got, e.to, rid), r);
  }

  lemma RouteUntouched(s: State, rid: Rid, route: seq<PeerId>, length: nat, r: Rid)
    requires r != rid
    ensures Untouched(s, Known(s, rid, route, length), r)
  {
  }

  lemma PeersStay(s: State, p: PeerId)
    requires p in s.peers && s.peers[p].waiting != []
    ensures Dequeue(s, p).peers.Keys == s.peers.Keys
  {
  }

  lemma SlotsStay(s: State, p: PeerId, rid: Rid, slot: Slot)
    requires p in s.peers
    ensures SetSlot(s, p, rid, slot).peers.Keys == s.peers.Keys
  {
  }

  lemma ReceiveStays(s: State, e: Envelope)
    ensures Receive(s, e).peers == s.peers && Receive(s, e).routes == s.routes
  {
  }

  // ----- taking the copy away, and putting it somewhere -----

  lemma HeadTaken(peers: map<PeerId, Peer>, p: PeerId, rid: Rid)
    requires p in peers && peers[p].waiting != [] && peers[p].waiting[0] == rid && QueuedAt(peers, rid, Waits(p))
    ensures QueuedAt(peers[p := peers[p].(waiting := peers[p].waiting[1..])], rid, Nowhere)
  {
    var w := peers[p].waiting;
    assert multiset(w) == multiset{rid} + multiset(w[1..]) by { assert w == [rid] + w[1..]; }
  }

  lemma TailPut(peers: map<PeerId, Peer>, p: PeerId, rid: Rid)
    requires p in peers && QueuedAt(peers, rid, Nowhere)
    ensures QueuedAt(peers[p := peers[p].(waiting := peers[p].waiting + [rid])], rid, Waits(p))
  {
    var w := peers[p].waiting;
    assert multiset(w + [rid]) == multiset(w) + multiset{rid};
  }

  /** With the queues as they were. */
  lemma QueuesStay(peers: map<PeerId, Peer>, p: PeerId, peer: Peer, rid: Rid, a: Place, b: Place)
    requires p in peers && peer.waiting == peers[p].waiting && QueuedAt(peers, rid, a) && !a.Waits? && !b.Waits?
    ensures QueuedAt(peers[p := peer], rid, b)
  {
  }

  /** With the running requests as they were. */
  lemma RunningStays(peers: map<PeerId, Peer>, p: PeerId, peer: Peer, rid: Rid, a: Place, b: Place)
    requires p in peers && peer.running == peers[p].running && ReadyAt(peers, rid, a) && !a.Ready? && !b.Ready?
    ensures ReadyAt(peers[p := peer], rid, b)
  {
  }

  lemma SlotSet(peers: map<PeerId, Peer>, p: PeerId, peer: Peer, rid: Rid, a: Place, b: Place)
    requires p in peers && ReadyAt(peers, rid, a) && (a == Ready(p) || !a.Ready?)
    requires b == Ready(p) || !b.Ready?
    requires rid in peer.running && peer.running[rid].ready <==> b == Ready(p)
    ensures ReadyAt(peers[p := peer], rid, b)
  {
  }

  /** With the messages as they were. */
  lemma MessagesStay(net: multiset<Envelope>, rid: Rid, a: Place, b: Place)
    requires FlyingAt(net, rid, a) && !a.Flies? && !b.Flies?
    ensures FlyingAt(net, rid, b)
  {
  }

  lemma HoldersAfter(s: State, p: PeerId, peer: Peer, rid: Rid)
    requires p in s.peers
    ensures rid in peer.running ==> Holders(Replace(s, p, peer), rid) == Holders(s, rid) + {p}
    ensures (rid in peer.running <==> rid in s.peers[p].running) ==> Holders(Replace(s, p, peer), rid) == Holders(s, rid)
  {
  }

  lemma SameNews(s: State, s': State, rid: Rid)
    requires s'.net == s.net
    ensures OverSent(s', rid) <==> OverSent(s, rid)
  {
  }

  lemma DequeueTakes(s: State, p: PeerId, rid: Rid)
    requires p in s.peers && s.peers[p].waiting != [] && s.peers[p].waiting[0] == rid && OnlyAt(s, rid, Waits(p))
    ensures OnlyAt(Dequeue(s, p), rid, Nowhere) && Elsewhere(s, Dequeue(s, p), rid, Holders(s, rid))
  {
    hide QueuedAt, ReadyAt, FlyingAt, Holders, OverSent;
    var peer := s.peers[p].(waiting := s.peers[p].waiting[1..]);
    HeadTaken(s.peers, p, rid);
    RunningStays(s.peers, p, peer, rid, Waits(p), Nowhere);
    MessagesStay(s.net, rid, Waits(p), Nowhere);
    HoldersAfter(s, p, peer, rid);
    SameNews(s, Dequeue(s, p), rid);
  }

  lemma StopTakes(s: State, p: PeerId, rid: Rid)
    requires p in s.peers && rid in s.peers[p].running && OnlyAt(s, rid, Ready(p))
    ensures var s' := SetSlot(s, p, rid, Slot(s.peers[p].running[rid].phase, false));
            OnlyAt(s', rid, Nowhere) && Elsewhere(s, s', rid, Holders(s, rid))
  {
    hide QueuedAt, ReadyAt, FlyingAt, Holders, OverSent;
    var slot := Slot(s.peers[p].running[rid].phase, false);
    var peer := s.peers[p].(running := s.peers[p].running[rid := slot]);
    QueuesStay(s.peers, p, peer, rid, Ready(p), Nowhere);
    SlotSet(s.peers, p, peer, rid, Ready(p), Nowhere);
    MessagesStay(s.net, rid, Ready(p), Nowhere);
    HoldersAfter(s, p, peer, rid);
    SameNews(s, SetSlot(s, p, rid, slot), rid);
  }

  lemma PacketTaken(net: multiset<Envelope>, rid: Rid, to: PeerId, phase: Phase)
    requires FlyingAt(net, rid, Flies(to, phase))
    ensures FlyingAt(net - multiset{Envelope(to, Forward(rid, phase))}, rid, Nowhere)
  {
  }

  lemma PacketPut(net: multiset<Envelope>, rid: Rid, to: PeerId, phase: Phase)
    requires FlyingAt(net, rid, Nowhere)
    ensures FlyingAt(net + multiset{Envelope(to, Forward(rid, phase))}, rid, Flies(to, phase))
  {
  }

  /** Neither taking a packet nor sending one changes what is announced. */
  lemma PacketIsNoNews(s: State, to: PeerId, rid: Rid, phase: Phase)
    ensures OverSent(Receive(s, Envelope(to, Forward(rid, phase))), rid) <==> OverSent(s, rid)
    ensures OverSent(Send(s, to, Forward(rid, phase)), rid) <==> OverSent(s, rid)
  {
    var fewer, more := Receive(s, Envelope(to, Forward(rid, phase))), Send(s, to, Forward(rid, phase));
    assert forall p :: Envelope(p, Over(rid)) in s.net <==> Envelope(p, Over(rid)) in fewer.net;
    assert forall p :: Envelope(p, Over(rid)) in s.net <==> Envelope(p, Over(rid)) in more.net;
  }

  lemma NowhereToFly(peers: map<PeerId, Peer>, rid: Rid, to: PeerId, phase: Phase)
    ensures QueuedAt(peers, rid, Flies(to, phase)) <==> QueuedAt(peers, rid, Nowhere)
    ensures ReadyAt(peers, rid, Flies(to, phase)) <==> ReadyAt(peers, rid, Nowhere)
  {
  }

  lemma ReceiveTakes(s: State, e: Envelope)
    requires e in s.net && e.note.Forward? && OnlyAt(s, e.note.rid, Flies(e.to, e.note.phase))
    ensures OnlyAt(Receive(s, e), e.note.rid, Nowhere) && Elsewhere(s, Receive(s, e), e.note.rid, Holders(s, e.note.rid))
  {
    hide QueuedAt, ReadyAt, FlyingAt, OverSent;
    PacketTaken(s.net, e.note.rid, e.to, e.note.phase);
    PacketIsNoNews(s, e.to, e.note.rid, e.note.phase);
    NowhereToFly(s.peers, e.note.rid, e.to, e.note.phase);
  }

  lemma SlotPuts(s: State, p: PeerId, rid: Rid, phase: Phase)
    requires p in s.peers && OnlyAt(s, rid, Nowhere)
    ensures var s' := SetSlot(s, p, rid, Slot(phase, true));
            && OnlyAt(s', rid, Ready(p)) && Elsewhere(s, s', rid, Holders(s, rid) + {p})
            && rid in s'.peers[p].running && s'.peers[p].running[rid].phase == phase
  {
    hide QueuedAt, ReadyAt, FlyingAt, Holders, OverSent;
    var peer := s.peers[p].(running := s.peers[p].running[rid := Slot(phase, true)]);
    QueuesStay(s.peers, p, peer, rid, Nowhere, Ready(p));
    SlotSet(s.peers, p, peer, rid, Nowhere, Ready(p));
    MessagesStay(s.net, rid, Nowhere, Ready(p));
    HoldersAfter(s, p, peer, rid);
    SameNews(s, SetSlot(s, p, rid, Slot(phase, true)), rid);
  }

  lemma EnqueuePuts(s: State, p: PeerId, rid: Rid)
    requires p in s.peers && OnlyAt(s, rid, Nowhere)
    ensures OnlyAt(Enqueue(s, p, rid), rid, Waits(p)) && Elsewhere(s, Enqueue(s, p, rid), rid, Holders(s, rid))
  {
    hide QueuedAt, ReadyAt, FlyingAt, Holders, OverSent;
    var peer := s.peers[p].(waiting := s.peers[p].waiting + [rid]);
    TailPut(s.peers, p, rid);
    RunningStays(s.peers, p, peer, rid, Nowhere, Waits(p));
    MessagesStay(s.net, rid, Nowhere, Waits(p));
    HoldersAfter(s, p, peer, rid);
    SameNews(s, Enqueue(s, p, rid), rid);
  }

  lemma SendPuts(s: State, to: PeerId, rid: Rid, phase: Phase)
    requires OnlyAt(s, rid, Nowhere)
    ensures var s' := Send(s, to, Forward(rid, phase));
            OnlyAt(s', rid, Flies(to, phase)) && Elsewhere(s, s', rid, Holders(s, rid))
  {
    hide QueuedAt, ReadyAt, FlyingAt, OverSent;
    PacketPut(s.net, rid, to, phase);
    PacketIsNoNews(s, to, rid, phase);
    NowhereToFly(s.peers, rid, to, phase);
  }

  /** Apart from the copy itself, only the holders may differ, in the given way. */
  ghost predicate Elsewhere(s: State, s': State, rid: Rid, holders: set<PeerId>) {
    s'.peers.Keys == s.peers.Keys && s'.routes == s.routes && Holders(s', rid) == holders && (OverSent(s', rid) <==> OverSent(s, rid))
  }

  lemma DropLeavesNothing(s: State, p: PeerId, rid: Rid)
    requires p in s.peers && OnlyAt(s, rid, Nowhere)
    ensures OnlyAt(DropSlot(s, p, rid), rid, Nowhere)
  {
  }

  /** The first peer's commit finds everyone holding the request, and leaves it ready or gone. */
  lemma CommitKeeps(s: State, route: seq<PeerId>, rid: Rid, done: bool)
    requires route != [] && route[0] in s.peers && OnlyAt(s, rid, Nowhere) && rid in s.routes && s.routes[rid] == route
    requires DistinctPeers(route) && (forall p :: p in route ==> p in s.peers)
    requires !OverSent(s, rid) && HeldBy(Holders(s, rid), route, |route|)
    ensures Fine(Commit(s, route, rid, done), rid, if done then Nowhere else Ready(route[0]))
  {
    hide SetSlot, DropSlot, OnlyAt, Holders, OverSent;
    if done {
      var dropped := DropSlot(s, route[0], rid);
      DropLeavesNothing(s, route[0], rid);
      DropStays(s, route[0], rid);
      BroadcastLeavesNothing(dropped, route[1..], rid);
    } else {
      SlotPuts(s, route[0], rid, Decode);
      assert HeldBy(Holders(s, rid) + {route[0]}, route, |route|);
    }
  }

  lemma DropStays(s: State, p: PeerId, rid: Rid)
    requires p in s.peers
    ensures DropSlot(s, p, rid).peers.Keys == s.peers.Keys && DropSlot(s, p, rid).routes == s.routes
  {
  }

  lemma BroadcastLeavesNothing(s: State, route: seq<PeerId>, rid: Rid)
    requires OnlyAt(s, rid, Nowhere)
    ensures OnlyAt(Broadcast(s, route, rid), rid, Nowhere)
    ensures Broadcast(s, route, rid).peers == s.peers && Broadcast(s, route, rid).routes == s.routes
  {
    BroadcastSends(s, route, rid);
  }

  lemma SamePosition(route: seq<PeerId>, i: nat)
    requires DistinctPeers(route) && i < |route|
    ensures IndexIn(route, route[i]) == i
  {
    var j := IndexIn(route, route[i]);
    assert route[j] == route[i];
  }

  /** From one hop to the next. */
  lemma {:induction false} NextPosition(route: seq<PeerId>, p: PeerId)
    requires DistinctPeers(route) && p in route
    ensures NextPeer(route, p) in route
    ensures IsLast(route, p) <==> IndexIn(route, p) == |route| - 1
    ensures IsLast(route, p) ==> NextPeer(route, p) == route[0]
    ensures !IsLast(route, p) ==> IndexIn(route, NextPeer(route, p)) == IndexIn(route, p) + 1 && !IsFirst(route, NextPeer(route, p))
  {
    var i := IndexIn(route, p);
    NextIndex(i, |route|);
    if i < |route| - 1 {
      SamePosition(route, i + 1);
      assert route[0] != route[i + 1];
    }
    SamePosition(route, |route| - 1);
  }

  lemma NextIndex(i: nat, n: nat)
    requires i < n
    ensures (i + 1) % n == if i == n - 1 then 0 else i + 1
  {
  }

  // ----- each action -----

  /** Where an action leaves the copy of its request. */
  function NextPlace(s: State, a: Action): Place
    requires Enabled(s, a)
  {
    match a
    case Arrive(_, route, _) => Waits(route[0])
    case Admit(p, fits) => if fits then Ready(p) else Nowhere
    case Process(p, rid, done) =>
      var route := s.routes[rid];
      if IsFirst(route, p) && IsLast(route, p) then if done then Nowhere else Ready(p)
      else Flies(NextPeer(route, p), if IsLast(route, p) then Decode else s.peers[p].running[rid].phase)
    case Deliver(e, done) =>
      if e.note.Over? then Nowhere
      else if IsFirst(s.routes[e.note.rid], e.to) then if done then Nowhere else Ready(e.to)
      else if e.note.phase == Prefill then Waits(e.to)
      else Ready(e.to)
  }

  lemma ArriveKeeps(s: State, rid: Rid, route: seq<PeerId>, length: nat, place: Place)
    requires Enabled(s, Arrive(rid, route, length)) && Fine(s, rid, place)
    ensures place == Nowhere && Fine(Apply(s, Arrive(rid, route, length)).value, rid, Waits(route[0]))
  {
    hide OnlyAt, Enqueue;
    var known := Known(s, rid, route, length);
    KnownSame(s, rid, route, length);
    EnqueuePuts(known, route[0], rid);
    SamePosition(route, 0);
    assert route[0] in route;
  }

  lemma KnownSame(s: State, rid: Rid, route: seq<PeerId>, length: nat)
    ensures var known := Known(s, rid, route, length);
            (forall place :: OnlyAt(known, rid, place) <==> OnlyAt(s, rid, place)) && Holders(known, rid) == Holders(s, rid)
            && (OverSent(known, rid) <==> OverSent(s, rid))
  {
  }

  lemma AdmitKeeps(s: State, p: PeerId, fits: bool, place: Place)
    requires Enabled(s, Admit(p, fits)) && Fine(s, s.peers[p].waiting[0], place)
    ensures place == Waits(p)
    ensures Fine(Apply(s, Admit(p, fits)).value, s.peers[p].waiting[0], if fits then Ready(p) else Nowhere)
  {
    hide OnlyAt, Dequeue, SetSlot, OverSent, Holders;
    var rid := s.peers[p].waiting[0];
    HeadIsQueued(s, p, place);
    var route := s.routes[rid];
    DequeueTakes(s, p, rid);
    NotHeld(s, rid, route, p);
    if fits {
      SlotPuts(Dequeue(s, p), p, rid, Prefill);
      PassedOneMore(Holders(s, rid), route, p);
    }
  }

  lemma NotHeld(s: State, rid: Rid, route: seq<PeerId>, p: PeerId)
    requires p in s.peers && p in route && PassedOnly(Holders(s, rid), route, IndexIn(route, p))
    ensures rid !in s.peers[p].running
  {
    assert route[IndexIn(route, p)] == p;
  }

  lemma HeadIsQueued(s: State, p: PeerId, place: Place)
    requires p in s.peers && s.peers[p].waiting != [] && OnlyAt(s, s.peers[p].waiting[0], place)
    ensures place == Waits(p)
  {
    assert s.peers[p].waiting[0] in multiset(s.peers[p].waiting);
  }

  lemma PassedOneMore(holders: set<PeerId>, route: seq<PeerId>, p: PeerId)
    requires DistinctPeers(route) && p in route && PassedOnly(holders, route, IndexIn(route, p))
    ensures PassedOnly(holders + {p}, route, IndexIn(route, p) + 1)
  {
  }

  lemma ReadyIsThere(s: State, p: PeerId, rid: Rid, place: Place)
    requires p in s.peers && rid in s.peers[p].running && s.peers[p].running[rid].ready && OnlyAt(s, rid, place)
    ensures place == Ready(p)
  {
  }

  lemma ProcessKeeps(s: State, p: PeerId, rid: Rid, done: bool, place: Place)
    requires Enabled(s, Process(p, rid, done)) && Fine(s, rid, place)
    ensures place == Ready(p)
    ensures Fine(Apply(s, Process(p, rid, done)).value, rid, NextPlace(s, Process(p, rid, done)))
  {
    hide OnlyAt, SetSlot, OverSent, Send, Commit, NextPeer, Holders;
    ReadyIsThere(s, p, rid, place);
    var route := s.routes[rid];
    var phase := s.peers[p].running[rid].phase;
    var stopped := SetSlot(s, p, rid, Slot(phase, false));
    StopTakes(s, p, rid);
    NextPosition(route, p);
    if IsFirst(route, p) && IsLast(route, p) {
      CommitKeeps(stopped, route, rid, done);
    } else {
      SendPuts(stopped, NextPeer(route, p), rid, if IsLast(route, p) then Decode else phase);
    }
  }

  lemma PacketIsThere(s: State, e: Envelope, place: Place)
    requires e in s.net && e.note.Forward? && OnlyAt(s, e.note.rid, place)
    ensures place == Flies(e.to, e.note.phase)
  {
    assert s.net[Envelope(e.to, Forward(e.note.rid, e.note.phase))] > 0;
  }

  lemma NewsIsOut(s: State, e: Envelope)
    requires e in s.net && e.note.Over?
    ensures OverSent(s, e.note.rid)
  {
    assert Envelope(e.to, Over(e.note.rid)) in s.net;
  }

  lemma DeliverKeeps(s: State, e: Envelope, done: bool, place: Place)
    requires Enabled(s, Deliver(e, done)) && Fine(s, e.note.rid, place)
    ensures place == if e.note.Over? then Nowhere else Flies(e.to, e.note.phase)
    ensures Apply(s, Deliver(e, done)).Ok?
    ensures Fine(Apply(s, Deliver(e, done)).value, e.note.rid, NextPlace(s, Deliver(e, done)))
  {
    hide OnlyAt, SetSlot, OverSent, Enqueue, Commit, DropSlot, Receive;
    var rid := e.note.rid;
    var route := s.routes[rid];
    var got := Receive(s, e);
    ReceiveStays(s, e);
    if e.note.Over? {
      NewsIsOut(s, e);
      ReceiveOverLeavesNothing(s, e);
      DropStays(got, e.to, rid);
      return;
    }
    PacketIsThere(s, e, place);
    ReceiveTakes(s, e);
    assert e.to == route[IndexIn(route, e.to)];
    if IsFirst(route, e.to) {
      assert e.to in Holders(s, rid);
      CommitKeeps(got, route, rid, done);
    } else if e.note.phase == Prefill {
      EnqueuePuts(got, e.to, rid);
    } else {
      assert e.to in Holders(s, rid);
      SlotPuts(got, e.to, rid, Decode);
    }
  }

  lemma ReceiveOverLeavesNothing(s: State, e: Envelope)
    requires e.note.Over? && e.to in s.peers && OnlyAt(s, e.note.rid, Nowhere)
    ensures OnlyAt(DropSlot(Receive(s, e), e.to, e.note.rid), e.note.rid, Nowhere)
  {
  }

  // ----- whole runs -----

  /** No step ever raises, and each keeps at most one moving copy of every request. */
  lemma StepKeepsInv(s: State, a: Action)
    requires Inv(s) && Enabled(s, a)
    ensures Apply(s, a).Ok? && Inv(Apply(s, a).value)
  {
    hide Fine, Untouched, OnlyAt;
    var rid := About(s, a);
    assert HasPlace(s, rid);
    var place :| Fine(s, rid, place);
    OwnStep(s, a, place);
    var s' := Apply(s, a).value;
    forall r ensures HasPlace(s', r) {
      if r == rid {
        assert Fine(s', r, NextPlace(s, a));
      } else {
        assert HasPlace(s, r);
        var other :| Fine(s, r, other);
        OthersUntouched(s, a, r);
        UntouchedStaysFine(s, s', r, other);
      }
    }
  }

  lemma OwnStep(s: State, a: Action, place: Place)
    requires Enabled(s, a) && Fine(s, About(s, a), place)
    ensures Apply(s, a).Ok? && Fine(Apply(s, a).value, About(s, a), NextPlace(s, a))
    ensures place == Nowhere <==> a.Arrive? || (a.Deliver? && a.envelope.note.Over?)
  {
    hide Fine, OnlyAt;
    match a
    case Arrive(rid, route, length) => ArriveKeeps(s, rid, route, length, place);
    case Admit(p, fits) => AdmitKeeps(s, p, fits, place);
    case Process(p, rid, done) => ProcessKeeps(s, p, rid, done, place);
    case Deliver(e, done) => DeliverKeeps(s, e, done, place);
  }

  /** A run from the empty ring. */
  ghost predicate Run(trace: seq<State>, actions: seq<Action>) {
    && |trace| == |actions| + 1 && Init(trace[0])
    && forall i :: 0 <= i < |actions| ==> Enabled(trace[i], actions[i]) && Apply(trace[i], actions[i]) == Ok(trace[i + 1])
  }

  lemma {:induction false} RunKeepsInv(trace: seq<State>, actions: seq<Action>, k: nat)
    requires Run(trace, actions) && k < |trace|
    ensures Inv(trace[k])
  {
    hide Inv, Enabled, Apply;
    if k == 0 {
      InitInv(trace[0]);
    } else {
      RunKeepsInv(trace, actions, k - 1);
      assert Apply(trace[k - 1], actions[k - 1]) == Ok(trace[k - 1 + 1]);
      StepKeepsInv(trace[k - 1], actions[k - 1]);
    }
  }

  /** The action takes the request's copy away for good: an admission refuses it, or its last token is
      committed. */
  predicate Ends(s: State, a: Action, rid: Rid)
    requires Enabled(s, a)
  {
    match a
    case Arrive(_, _, _) => false
    case Admit(p, fits) => s.peers[p].waiting[0] == rid && !fits
    case Process(p, r, done) => r == rid && done && IsFirst(s.routes[r], p) && IsLast(s.routes[r], p)
    case Deliver(e, done) => e.note.rid == rid && e.note.Forward? && done && IsFirst(s.routes[rid], e.to)
  }

  /** No step before the `k`-th ended the request. */
  ghost predicate NotEnded(trace: seq<State>, actions: seq<Action>, k: nat, rid: Rid)
    requires Run(trace, actions) && k < |trace|
  {
    forall i :: 0 <= i < k ==> !Ends(trace[i], actions[i], rid)
  }

  /** One step moves the copy of its own request, makes it, or ends it. */
  lemma StepMoves(s: State, a: Action, rid: Rid, place: Place) returns (place': Place)
    requires Enabled(s, a) && Fine(s, rid, place)
    ensures Apply(s, a).Ok? ==> Fine(Apply(s, a).value, rid, place')
    ensures Apply(s, a).Ok? ==>
              (rid in Apply(s, a).value.routes <==> rid in s.routes || (a.Arrive? && a.rid == rid))
    ensures place' != Nowhere <==> (place != Nowhere && !Ends(s, a, rid)) || (a.Arrive? && a.rid == rid)
    ensures Ends(s, a, rid) ==> place != Nowhere
  {
    hide Fine, Untouched, OnlyAt;
    if About(s, a) == rid {
      OwnStep(s, a, place);
      place' := NextPlace(s, a);
      OwnRoute(s, a);
    } else {
      place' := place;
      if Apply(s, a).Ok? {
        OthersUntouched(s, a, rid);
        UntouchedStaysFine(s, Apply(s, a).value, rid, place);
        SameRoutes(s, Apply(s, a).value, rid);
      }
    }
  }

  lemma SameRoutes(s: State, s': State, rid: Rid)
    requires Untouched(s, s', rid)
    ensures rid in s'.routes <==> rid in s.routes
  {
  }

  lemma CommitRoutes(s: State, route: seq<PeerId>, rid: Rid, done: bool)
    requires route != [] && route[0] in s.peers
    ensures Commit(s, route, rid, done).routes == s.routes
  {
    BroadcastSends(DropSlot(s, route[0], rid), route[1..], rid);
  }

  /** Only an arrival makes a request known. */
  lemma OwnRoute(s: State, a: Action)
    requires Enabled(s, a) && Apply(s, a).Ok?
    ensures Apply(s, a).value.routes == if a.Arrive? then s.routes[a.rid := a.route] else s.routes
  {
    hide Commit;
    match a
    case Process(p, rid, done) =>
      if IsFirst(s.routes[rid], p) && IsLast(s.routes[rid], p) {
        CommitRoutes(SetSlot(s, p, rid, Slot(s.peers[p].running[rid].phase, false)), s.routes[rid], rid, done);
      }
    case Deliver(e, done) =>
      if IsFirst(s.routes[e.note.rid], e.to) {
        CommitRoutes(Receive(s, e), s.routes[e.note.rid], e.note.rid, done);
      }
    case _ =>
  }

  lemma FineIfKnown(s: State, rid: Rid, place: Place)
    requires Fine(s, rid, place)
    ensures place != Nowhere ==> rid in s.routes
  {
  }

  lemma {:induction false} PlaceInRun(trace: seq<State>, actions: seq<Action>, k: nat, rid: Rid) returns (place: Place)
    requires Run(trace, actions) && k < |trace|
    ensures Fine(trace[k], rid, place)
    ensures place != Nowhere <==> rid in trace[k].routes && NotEnded(trace, actions, k, rid)
    ensures rid !in trace[k].routes ==> NotEnded(trace, actions, k, rid)
  {
    hide Fine, Enabled, Apply, Ends;
    if k == 0 {
      place := Nowhere;
      NothingYet(trace[0], rid);
    } else {
      var before := PlaceInRun(trace, actions, k - 1, rid);
      var s, a := trace[k - 1], actions[k - 1];
      assert Enabled(s, a) && Apply(s, a) == Ok(trace[k - 1 + 1]);
      FineIfKnown(s, rid, before);
      place := StepMoves(s, a, rid, before);
      assert NotEnded(trace, actions, k, rid) <==> NotEnded(trace, actions, k - 1, rid) && !Ends(s, a, rid);
      if a.Arrive? && a.rid == rid {
        ArrivesOnce(s, a, rid);
      }
    }
  }

  lemma NothingYet(s: State, rid: Rid)
    requires Init(s)
    ensures Fine(s, rid, Nowhere)
  {
  }

  lemma ArrivesOnce(s: State, a: Action, rid: Rid)
    requires Enabled(s, a) && a.Arrive? && a.rid == rid
    ensures rid !in s.routes && !Ends(s, a, rid)
  {
  }

  /** The request has a copy there that may still move. */
  ghost predicate CopyAt(s: State, rid: Rid, place: Place) {
    match place
    case Nowhere => false
    case Waits(p) => p in s.peers && rid in s.peers[p].waiting
    case Ready(p) => p in s.peers && rid in s.peers[p].running && s.peers[p].running[rid].ready
    case Flies(to, phase) => Envelope(to, Forward(rid, phase)) in s.net
  }

  /** In every state of every run a request has at most one copy, and that copy once. */
  lemma OneCopy(trace: seq<State>, actions: seq<Action>, k: nat, rid: Rid, a: Place, b: Place)
    requires Run(trace, actions) && k < |trace| && CopyAt(trace[k], rid, a) && CopyAt(trace[k], rid, b)
    ensures a == b
    ensures a.Waits? ==> multiset(trace[k].peers[a.at].waiting)[rid] == 1
    ensures a.Flies? ==> trace[k].net[Envelope(a.to, Forward(rid, a.phase))] == 1
  {
    RunKeepsInv(trace, actions, k);
    var s := trace[k];
    assert HasPlace(s, rid);
    var place :| Fine(s, rid, place);
    CopyIsPlace(s, rid, a, place);
    CopyIsPlace(s, rid, b, place);
  }

  /** Copies are conserved: in every state of every run, a request that arrived has a copy exactly as long as
      no admission refused it and its last token was not committed. */
  lemma CopiesAreConserved(trace: seq<State>, actions: seq<Action>, k: nat, rid: Rid)
    requires Run(trace, actions) && k < |trace|
    ensures (exists place :: CopyAt(trace[k], rid, place)) <==>
            rid in trace[k].routes && NotEnded(trace, actions, k, rid)
  {
    var place := PlaceInRun(trace, actions, k, rid);
    hide NotEnded, Run;
    if place != Nowhere {
      PlaceIsCopy(trace[k], rid, place);
    }
    forall other | CopyAt(trace[k], rid, other) ensures place != Nowhere {
      CopyIsPlace(trace[k], rid, other, place);
    }
  }

  lemma PlaceIsCopy(s: State, rid: Rid, place: Place)
    requires Fine(s, rid, place) && place != Nowhere
    ensures CopyAt(s, rid, place)
  {
    if place.Waits? {
      assert multiset(s.peers[place.at].waiting)[rid] == 1;
    }
  }

  lemma CopyIsPlace(s: State, rid: Rid, copy: Place, place: Place)
    requires OnlyAt(s, rid, place) && CopyAt(s, rid, copy)
    ensures copy == place
  {
    if copy.Waits? {
      assert rid in multiset(s.peers[copy.at].waiting);
    }
  }

  /** A decode packet only ever reaches peers that have admitted the request. */
  lemma DecodeWasAdmitted(trace: seq<State>, actions: seq<Action>, k: nat, to: PeerId, rid: Rid)
    requires Run(trace, actions) && k < |trace| && Envelope(to, Forward(rid, Decode)) in trace[k].net
    ensures to in trace[k].peers && rid in trace[k].peers[to].running
  {
    RunKeepsInv(trace, actions, k);
    var s := trace[k];
    assert HasPlace(s, rid);
    var place :| Fine(s, rid, place);
    CopyIsPlace(s, rid, Flies(to, Decode), place);
    var route := s.routes[rid];
    assert route[IndexIn(route, to)] in Holders(s, rid);
  }

  /** Once the end of a request is announced, no copy of it is left. */
  lemma OverMeansGone(trace: seq<State>, actions: seq<Action>, k: nat, rid: Rid, place: Place)
    requires Run(trace, actions) && k < |trace| && OverSent(trace[k], rid)
    ensures !CopyAt(trace[k], rid, place)
  {
    RunKeepsInv(trace, actions, k);
    var s := trace[k];
    assert HasPlace(s, rid);
    var at :| Fine(s, rid, at);
    if CopyAt(s, rid, place) {
      CopyIsPlace(s, rid, place, at);
    }
  }

  /** When a request ends at the first peer, every other peer of its route is told. */
  lemma EndIsAnnounced(s: State, e: Envelope, p: PeerId)
    requires Enabled(s, Deliver(e, true)) && e.note.Forward? && IsFirst(s.routes[e.note.rid], e.to)
    requires e.note.rid in s.peers[e.to].running && p in s.routes[e.note.rid][1..]
    ensures Apply(s, Deliver(e, true)).Ok? && Envelope(p, Over(e.note.rid)) in Apply(s, Deliver(e, true)).value.net
  {
    var rid := e.note.rid;
    BroadcastReaches(DropSlot(Receive(s, e), e.to, rid), s.routes[rid][1..], rid, p);
  }

  // ----- handling a list of messages -----

  /** The state after the actions, unless one of them is not enabled or raises. */
  function Ran(s: State, actions: seq<Action>): Option<State>
    decreases |actions|
  {
    if actions == [] then Some(s)
    else if !Enabled(s, actions[0]) then None
    else match Apply(s, actions[0])
      case Raise(_) => None
      case Ok(s') => Ran(s', actions[1..])
  }

  lemma RanOne(s: State, actions: seq<Action>)
    requires actions != [] && Enabled(s, actions[0]) && Apply(s, actions[0]).Ok?
    ensures Ran(s, actions) == Ran(Apply(s, actions[0]).value, actions[1..])
  {
  }

  ghost predicate Mail(s: State, mail: seq<Envelope>) {
    && multiset(mail) <= s.net
    && forall e :: e in mail ==> e.to in s.peers && e.note.rid in s.routes && e.to in s.routes[e.note.rid]
  }

  function Deliveries(mail: seq<Envelope>, done: seq<bool>): (actions: seq<Action>)
    requires |done| == |mail|
    ensures |actions| == |mail| && forall i :: 0 <= i < |mail| ==> actions[i] == Deliver(mail[i], done[i])
  {
    seq(|mail|, i requires 0 <= i < |mail| => Deliver(mail[i], done[i]))
  }

  /** Handles the received messages one after another; each of them can be handled, and no decode packet is
      ever refused. */
  method HandleInputRequests(s: State, mail: seq<Envelope>, done: seq<bool>) returns (r: Result<State>)
    requires Inv(s) && Mail(s, mail) && |done| == |mail|
    ensures r.Ok? && Ran(s, Deliveries(mail, done)) == Some(r.value)
    ensures Inv(r.value) && r.value.routes == s.routes && r.value.peers.Keys == s.peers.Keys
  {
    hide Inv, Enabled, Apply, Ran;
    var cur := s;
    ghost var actions := Deliveries(mail, done);
    for i := 0 to |mail|
      invariant Inv(cur) && cur.routes == s.routes && cur.peers.Keys == s.peers.Keys
      invariant multiset(mail[i..]) <= cur.net
      invariant Ran(cur, actions[i..]) == Ran(s, actions)
    {
      var e := mail[i];
      NextMail(mail, i, cur.net);
      CanDeliver(cur, e, done[i]);
      assert actions[i..][1..] == actions[i + 1..] && actions[i..][0] == Deliver(e, done[i]);
      StepKeepsInv(cur, Deliver(e, done[i]));
      RanOne(cur, actions[i..]);
      MailStays(cur, e, done[i], multiset(mail[i + 1..]));
      cur := Apply(cur, Deliver(e, done[i])).value;
    }
    assert actions[|mail|..] == [];
    RanNone(cur);
    r := Ok(cur);
  }

  lemma RanNone(s: State)
    ensures Ran(s, []) == Some(s)
  {
  }

  lemma NextMail(mail: seq<Envelope>, i: nat, net: multiset<Envelope>)
    requires i < |mail| && multiset(mail[i..]) <= net
    ensures mail[i] in mail && mail[i] in net && multiset{mail[i]} + multiset(mail[i + 1..]) <= net
  {
    assert mail[i..] == [mail[i]] + mail[i + 1..];
    assert mail[i] in multiset(mail[i..]);
  }

  lemma CanDeliver(s: State, e: Envelope, done: bool)
    requires e in s.net && e.to in s.peers && e.note.rid in s.routes && e.to in s.routes[e.note.rid]
    ensures Enabled(s, Deliver(e, done))
  {
  }

  ghost predicate MailKept(s: State, s': State, rest: multiset<Envelope>) {
    rest <= s'.net && s'.routes == s.routes && s'.peers.Keys == s.peers.Keys
  }

  lemma PeerKeepsMail(s: State, p: PeerId, rid: Rid, slot: Slot, rest: multiset<Envelope>)
    requires p in s.peers && rest <= s.net
    ensures MailKept(s, SetSlot(s, p, rid, slot), rest) && MailKept(s, DropSlot(s, p, rid), rest)
    ensures MailKept(s, Enqueue(s, p, rid), rest)
  {
  }

  lemma CommitKeepsMail(s: State, route: seq<PeerId>, rid: Rid, done: bool, rest: multiset<Envelope>)
    requires route != [] && route[0] in s.peers && rest <= s.net
    ensures MailKept(s, Commit(s, route, rid, done), rest)
  {
    hide SetSlot, DropSlot, Broadcast;
    PeerKeepsMail(s, route[0], rid, Slot(Decode, true), rest);
    BroadcastOnlyAdds(DropSlot(s, route[0], rid), route[1..], rid);
    BroadcastSends(DropSlot(s, route[0], rid), route[1..], rid);
  }

  /** Handling one message leaves the others in the net. */
  lemma MailStays(s: State, e: Envelope, done: bool, rest: multiset<Envelope>)
    requires Enabled(s, Deliver(e, done)) && Apply(s, Deliver(e, done)).Ok? && multiset{e} + rest <= s.net
    ensures MailKept(s, Apply(s, Deliver(e, done)).value, rest)
  {
    hide SetSlot, DropSlot, Enqueue, Commit;
    var rid := e.note.rid;
    var route := s.routes[rid];
    var got := Receive(s, e);
    assert rest <= got.net;
    PeerKeepsMail(got, e.to, rid, Slot(Decode, true), rest);
    if IsFirst(route, e.to) {
      CommitKeepsMail(got, route, rid, done, rest);
    }
  }

  lemma {:induction false} BroadcastOnlyAdds(s: State, route: seq<PeerId>, rid: Rid)
    ensures s.net <= Broadcast(s, route, rid).net
  {
    if route != [] {
      BroadcastOnlyAdds(s, route[..|route| - 1], rid);
    }
  }
}
