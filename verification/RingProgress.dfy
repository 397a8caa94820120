/** Progress on the ring, under each peer's running limit and token budget. */
module RingProgress {
  import opened Outcomes
  import opened Ring

  // ----- who holds a slot -----

  ghost predicate Alive(s: State, rid: Rid) {
    exists place :: CopyAt(s, rid, place)
  }

  lemma AliveHasPlace(s: State, rid: Rid) returns (place: Place)
    requires HasPlace(s, rid)
    ensures Fine(s, rid, place) && (Alive(s, rid) <==> place != Nowhere)
    ensures place != Nowhere ==> rid in s.routes
  {
    place :| Fine(s, rid, place);
    hide Fine;
    FineIsThere(s, rid, place);
    FineIfKnown(s, rid, place);
    if place != Nowhere {
      PlaceIsCopy(s, rid, place);
    }
    forall other | CopyAt(s, rid, other) ensures place != Nowhere {
      CopyIsPlace(s, rid, other, place);
    }
  }

  lemma FineIsThere(s: State, rid: Rid, place: Place)
    requires Fine(s, rid, place)
    ensures OnlyAt(s, rid, place)
  {
  }

  /** A copy is in one place only. */
  lemma PlaceIsUnique(s: State, rid: Rid, a: Place, b: Place)
    requires Fine(s, rid, a) && Fine(s, rid, b)
    ensures a == b
  {
    FineIsThere(s, rid, a);
    FineIsThere(s, rid, b);
    if a != Nowhere {
      PlaceIsCopy(s, rid, a);
      CopyIsPlace(s, rid, a, b);
    } else if b != Nowhere {
      PlaceIsCopy(s, rid, b);
      CopyIsPlace(s, rid, b, a);
    }
  }

  /** A running request is on its route, and is either alive or about to hear that it is over. */
  ghost predicate AccountedAt(s: State, p: PeerId, rid: Rid) {
    rid in s.routes && p in s.routes[rid] && (Alive(s, rid) || Envelope(p, Over(rid)) in s.net)
  }

  ghost predicate Accounted(s: State) {
    forall p, rid :: p in s.peers && rid in s.peers[p].running ==> AccountedAt(s, p, rid)
  }

  predicate Refuses(a: Action) {
    a.Admit? && !a.fits
  }

  /** An action of the ring itself, with every cache large enough. */
  predicate Internal(a: Action) {
    !a.Arrive? && !Refuses(a)
  }

  lemma OthersStayAlive(s: State, s': State, rid: Rid)
    requires Untouched(s, s', rid) && HasPlace(s, rid)
    ensures HasPlace(s', rid) && (Alive(s', rid) <==> Alive(s, rid))
  {
    hide Untouched, Fine, CopyAt;
    var place := AliveHasPlace(s, rid);
    UntouchedStaysFine(s, s', rid, place);
    var place' := AliveHasPlace(s', rid);
    PlaceIsUnique(s', rid, place, place');
  }

  lemma OtherIsAccounted(s: State, s': State, p: PeerId, rid: Rid)
    requires Untouched(s, s', rid) && HasPlace(s, rid) && p in s'.peers && rid in s'.peers[p].running
    requires AccountedAt(s, p, rid)
    ensures AccountedAt(s', p, rid)
  {
    hide Alive;
    OthersStayAlive(s, s', rid);
    assert s.net[Envelope(p, Over(rid))] == s'.net[Envelope(p, Over(rid))];
  }

  lemma OtherRanBefore(s: State, s': State, p: PeerId, rid: Rid)
    requires Untouched(s, s', rid) && p in s'.peers && rid in s'.peers[p].running
    ensures p in s.peers && rid in s.peers[p].running
  {
    assert PeerAgrees(s.peers[p], s'.peers[p], rid);
  }

  /** Only peer `p` may have come to hold the request. */
  ghost predicate HeldWithin(s: State, s': State, rid: Rid, p: PeerId) {
    forall q :: q in s'.peers && rid in s'.peers[q].running ==> q == p || (q in s.peers && rid in s.peers[q].running)
  }

  lemma SlotWithin(s: State, p: PeerId, rid: Rid, slot: Slot)
    requires p in s.peers
    ensures HeldWithin(s, SetSlot(s, p, rid, slot), rid, p) && HeldWithin(s, DropSlot(s, p, rid), rid, p)
    ensures HeldWithin(s, Enqueue(s, p, rid), rid, p)
    ensures s.peers[p].waiting != [] ==> HeldWithin(s, Dequeue(s, p), rid, p)
  {
  }

  lemma NetWithin(s: State, s': State, rid: Rid, p: PeerId)
    requires s'.peers == s.peers
    ensures HeldWithin(s, s', rid, p)
  {
  }

  lemma WithinTwice(a: State, b: State, c: State, rid: Rid, p: PeerId)
    requires HeldWithin(a, b, rid, p) && HeldWithin(b, c, rid, p)
    ensures HeldWithin(a, c, rid, p)
  {
  }

  lemma CommitWithin(s: State, route: seq<PeerId>, rid: Rid, done: bool)
    requires route != [] && route[0] in s.peers
    ensures HeldWithin(s, Commit(s, route, rid, done), rid, route[0])
  {
    hide HeldWithin, Broadcast;
    SlotWithin(s, route[0], rid, Slot(Decode, true));
    var dropped := DropSlot(s, route[0], rid);
    BroadcastSends(dropped, route[1..], rid);
    NetWithin(dropped, Broadcast(dropped, route[1..], rid), rid, route[0]);
    WithinTwice(s, dropped, Broadcast(dropped, route[1..], rid), rid, route[0]);
  }

  function Actor(a: Action): PeerId
    requires !a.Arrive?
  {
    match a
    case Admit(p, _) => p
    case Process(p, _, _) => p
    case Deliver(e, _) => e.to
  }

  /** Only the acting peer may come to hold the request of its action. */
  lemma OwnWithin(s: State, a: Action)
    requires Enabled(s, a) && !a.Arrive? && Apply(s, a).Ok?
    ensures HeldWithin(s, Apply(s, a).value, About(s, a), Actor(a))
  {
    hide HeldWithin, SetSlot, DropSlot, Enqueue, Dequeue, Commit, NextPeer;
    var rid, p := About(s, a), Actor(a);
    var s' := Apply(s, a).value;
    match a
    case Admit(_, fits) =>
      var taken := Dequeue(s, p);
      SlotWithin(s, p, rid, Slot(Prefill, true));
      PeersStay(s, p);
      SlotWithin(taken, p, rid, Slot(Prefill, true));
      WithinTwice(s, taken, SetSlot(taken, p, rid, Slot(Prefill, true)), rid, p);
    case Process(_, _, done) =>
      var slot := Slot(s.peers[p].running[rid].phase, false);
      var stopped := SetSlot(s, p, rid, slot);
      SlotWithin(s, p, rid, slot);
      SlotsStay(s, p, rid, slot);
      if IsFirst(s.routes[rid], p) && IsLast(s.routes[rid], p) {
        CommitWithin(stopped, s.routes[rid], rid, done);
      } else {
        NetWithin(stopped, s', rid, p);
      }
      WithinTwice(s, stopped, s', rid, p);
    case Deliver(e, done) =>
      var got := Receive(s, e);
      ReceiveStays(s, e);
      NetWithin(s, got, rid, p);
      SlotWithin(got, p, rid, Slot(Decode, true));
      if IsFirst(s.routes[rid], p) {
        CommitWithin(got, s.routes[rid], rid, done);
      }
      if s' != got {
        WithinTwice(s, got, s', rid, p);
      }
  }

  lemma ActorOnRoute(s: State, a: Action, place: Place)
    requires Enabled(s, a) && !a.Arrive? && Fine(s, About(s, a), place)
    ensures About(s, a) in s.routes && Actor(a) in s.routes[About(s, a)]
  {
    if a.Admit? {
      FineIsThere(s, About(s, a), place);
      HeadIsQueued(s, a.peer, place);
    }
  }

  /** When the last token is committed, every other peer of the route is told. */
  lemma EndIsTold(s: State, a: Action, place: Place, p: PeerId)
    requires Enabled(s, a) && Internal(a) && Fine(s, About(s, a), place) && Apply(s, a).Ok?
    requires place != Nowhere && NextPlace(s, a) == Nowhere
    requires p in Apply(s, a).value.peers && About(s, a) in Apply(s, a).value.peers[p].running
    requires About(s, a) in s.routes && p in s.routes[About(s, a)]
    ensures Envelope(p, Over(About(s, a))) in Apply(s, a).value.net
  {
    hide SetSlot, Commit, DropSlot, Fine;
    var rid := About(s, a);
    var route := s.routes[rid];
    OwnStep(s, a, place);
    if a.Process? {
      var slot := Slot(s.peers[a.peer].running[rid].phase, false);
      SlotsStay(s, a.peer, rid, slot);
      EndDropsFirst(SetSlot(s, a.peer, rid, slot), route, rid, p);
    } else {
      ReadyOrFlying(s, a, place);
      EndDropsFirst(Receive(s, a.envelope), route, rid, p);
    }
  }

  lemma EndDropsFirst(s: State, route: seq<PeerId>, rid: Rid, p: PeerId)
    requires route != [] && route[0] in s.peers && p in route
    ensures var s' := Commit(s, route, rid, true);
            p in s'.peers && rid in s'.peers[p].running ==> Envelope(p, Over(rid)) in s'.net
  {
    var dropped := DropSlot(s, route[0], rid);
    BroadcastSends(dropped, route[1..], rid);
    if p != route[0] {
      assert p in route[1..];
      BroadcastReaches(dropped, route[1..], rid, p);
    }
  }

  /** A copy that was delivered to its first peer was running there. */
  lemma ReadyOrFlying(s: State, a: Action, place: Place)
    requires Enabled(s, a) && Fine(s, About(s, a), place) && place != Nowhere
    requires a.Deliver? && a.envelope.note.Forward? && IsFirst(s.routes[About(s, a)], a.envelope.to)
    ensures About(s, a) in s.peers[a.envelope.to].running
  {
    FineIsThere(s, About(s, a), place);
    PacketIsThere(s, a.envelope, place);
    var route := s.routes[About(s, a)];
    assert route[0] == a.envelope.to;
    assert route[0] in Holders(s, About(s, a));
  }

  /** Every step without a refusal keeps the account. */
  lemma StepAccounts(s: State, a: Action)
    requires Inv(s) && Accounted(s) && Enabled(s, a) && !Refuses(a)
    ensures Apply(s, a).Ok? && Accounted(Apply(s, a).value)
  {
    hide Inv, Fine, Apply, Untouched, AccountedAt;
    StepKeepsInv(s, a);
    var s' := Apply(s, a).value;
    forall p, rid | p in s'.peers && rid in s'.peers[p].running ensures AccountedAt(s', p, rid) {
      PlaceOfAny(s, rid);
      if rid != About(s, a) {
        OthersUntouched(s, a, rid);
        OtherRanBefore(s, s', p, rid);
        OtherIsAccounted(s, s', p, rid);
      } else if a.Arrive? {
        NewIsNowhere(s, a, p);
      } else {
        OwnIsAccounted(s, a, p);
      }
    }
  }

  lemma PlaceOfAny(s: State, rid: Rid)
    requires Inv(s)
    ensures HasPlace(s, rid)
  {
  }

  lemma NewIsNowhere(s: State, a: Action, p: PeerId)
    requires Inv(s) && Enabled(s, a) && a.Arrive? && Apply(s, a).Ok? && p in Apply(s, a).value.peers
    ensures a.rid !in Apply(s, a).value.peers[p].running
  {
    assert HasPlace(s, a.rid);
  }

  lemma OwnIsAccounted(s: State, a: Action, p: PeerId)
    requires Inv(s) && Accounted(s) && Enabled(s, a) && Internal(a)
    requires Apply(s, a).Ok? && Inv(Apply(s, a).value)
    requires p in Apply(s, a).value.peers && About(s, a) in Apply(s, a).value.peers[p].running
    ensures AccountedAt(Apply(s, a).value, p, About(s, a))
  {
    hide Inv, Fine, Apply, Alive, NextPlace, Accounted, Enabled;
    var rid := About(s, a);
    var s' := Apply(s, a).value;
    PlaceOfAny(s, rid);
    PlaceOfAny(s', rid);
    var place := AliveHasPlace(s, rid);
    var place' := AliveHasPlace(s', rid);
    OwnStep(s, a, place);
    PlaceIsUnique(s', rid, place', NextPlace(s, a));
    ActorOnRoute(s, a, place);
    OwnWithin(s, a);
    OwnRoute(s, a);
    HeldBefore(s, s', a, p);
    if place' == Nowhere {
      if place != Nowhere {
        EndIsTold(s, a, place, p);
      } else {
        NewsStays(s, a, p);
      }
    }
  }

  lemma HeldBefore(s: State, s': State, a: Action, p: PeerId)
    requires Enabled(s, a) && !a.Arrive? && Accounted(s) && HeldWithin(s, s', About(s, a), Actor(a))
    requires About(s, a) in s.routes && Actor(a) in s.routes[About(s, a)]
    requires p in s'.peers && About(s, a) in s'.peers[p].running
    ensures p in s.routes[About(s, a)]
    ensures p != Actor(a) ==> AccountedAt(s, p, About(s, a))
  {
    hide AccountedAt;
    if p != Actor(a) {
      assert AccountedAt(s, p, About(s, a));
    }
    assert p != Actor(a) ==> p in s.routes[About(s, a)] by { AccountedOnRoute(s, p, About(s, a)); }
  }

  lemma AccountedOnRoute(s: State, p: PeerId, rid: Rid)
    ensures AccountedAt(s, p, rid) ==> rid in s.routes && p in s.routes[rid]
  {
  }

  /** News taken by one peer is still on its way to the others. */
  lemma NewsStays(s: State, a: Action, p: PeerId)
    requires Enabled(s, a) && a.Deliver? && a.envelope.note.Over? && Apply(s, a).Ok?
    requires p in Apply(s, a).value.peers && About(s, a) in Apply(s, a).value.peers[p].running
    requires p != Actor(a) ==> AccountedAt(s, p, About(s, a)) && !Alive(s, About(s, a))
    ensures Envelope(p, Over(About(s, a))) in Apply(s, a).value.net
  {
  }

  // ----- every run is bounded -----

  /** Peers still to pass: none for a copy on its way back to the first peer. */
  function Hops(route: seq<PeerId>, place: Place): nat {
    match place
    case Nowhere => 0
    case Waits(p) => if p in route then |route| - IndexIn(route, p) else 0
    case Ready(p) => if p in route then |route| - IndexIn(route, p) else 0
    case Flies(p, _) => if p in route && !IsFirst(route, p) then |route| - IndexIn(route, p) else 0
  }

  /** What is left of the lap a copy is on, and of telling the other peers at its end. */
  function LapLeft(route: seq<PeerId>, place: Place): nat {
    if place == Nowhere then 0 else |route| + 6 * Hops(route, place) + if place.Ready? then 0 else 1
  }

  ghost function PlaceOf(s: State, rid: Rid): Place
    requires HasPlace(s, rid)
  {
    var place :| Fine(s, rid, place);
    place
  }

  ghost function Weight(s: State, rid: Rid): nat {
    if rid in s.routes && HasPlace(s, rid) then LapLeft(s.routes[rid], PlaceOf(s, rid)) else 0
  }

  ghost function TotalWeight(s: State, rids: set<Rid>): nat {
    if rids == {} then 0
    else
      var r :| r in rids;
      Weight(s, r) + TotalWeight(s, rids - {r})
  }

  lemma {:induction false} TotalSplits(s: State, rids: set<Rid>, r: Rid)
    requires r in rids
    ensures TotalWeight(s, rids) == Weight(s, r) + TotalWeight(s, rids - {r})
  {
    var x :| x in rids && TotalWeight(s, rids) == Weight(s, x) + TotalWeight(s, rids - {x});
    if x != r {
      TotalSplits(s, rids - {x}, r);
      TotalSplits(s, rids - {r}, x);
      assert rids - {x} - {r} == rids - {r} - {x};
    }
  }

  lemma {:induction false} TotalSame(s: State, s': State, rids: set<Rid>)
    requires forall r :: r in rids ==> Weight(s, r) == Weight(s', r)
    ensures TotalWeight(s, rids) == TotalWeight(s', rids)
  {
    if rids != {} {
      var r :| r in rids;
      TotalSplits(s, rids, r);
      TotalSplits(s', rids, r);
      TotalSame(s, s', rids - {r});
    }
  }

  /** What is still to be done before the next tokens: laps under way, and messages. */
  ghost function Potential(s: State): nat {
    |s.net| + TotalWeight(s, s.routes.Keys)
  }

  /** A token that is not the last one starts a new lap. */
  predicate StartsLap(s: State, a: Action)
    requires Enabled(s, a)
  {
    match a
    case Process(p, rid, done) => !done && IsFirst(s.routes[rid], p) && IsLast(s.routes[rid], p)
    case Deliver(e, done) => !done && e.note.Forward? && IsFirst(s.routes[e.note.rid], e.to)
    case _ => false
  }

  /** No lap is longer. */
  function Lap(s: State): nat {
    6 * |s.peers| + 1
  }

  lemma {:induction false} RouteLength(route: seq<PeerId>, peers: set<PeerId>)
    requires DistinctPeers(route) && forall p :: p in route ==> p in peers
    ensures |route| <= |peers|
  {
    if route != [] {
      assert route == [route[0]] + route[1..];
      assert route[0] !in route[1..];
      RouteLength(route[1..], peers - {route[0]});
    }
  }

  lemma FineRoute(s: State, rid: Rid, place: Place)
    requires Fine(s, rid, place) && rid in s.routes
    ensures s.routes[rid] != [] && DistinctPeers(s.routes[rid]) && |s.routes[rid]| <= |s.peers|
    ensures forall p :: p in s.routes[rid] ==> p in s.peers
  {
    RouteLength(s.routes[rid], s.peers.Keys);
    assert |s.peers.Keys| == |s.peers|;
  }

  lemma {:induction false} BroadcastAdds(s: State, route: seq<PeerId>, rid: Rid)
    ensures |Broadcast(s, route, rid).net| == |s.net| + |route|
  {
    if route != [] {
      BroadcastAdds(s, route[..|route| - 1], rid);
    }
  }

  lemma CommitAdds(s: State, route: seq<PeerId>, rid: Rid, done: bool)
    requires route != [] && route[0] in s.peers
    ensures |Commit(s, route, rid, done).net| == |s.net| + if done then |route| - 1 else 0
  {
    BroadcastAdds(DropSlot(s, route[0], rid), route[1..], rid);
  }

  /** How many messages a step adds or takes. */
  lemma StepMessages(s: State, a: Action)
    requires Enabled(s, a) && !a.Arrive? && Apply(s, a).Ok?
    requires a.Deliver? && a.envelope.note.Forward? && IsFirst(s.routes[About(s, a)], a.envelope.to) ==>
               About(s, a) in s.peers[a.envelope.to].running
    ensures |Apply(s, a).value.net| == |s.net| +
              match a
              case Admit(_, _) => 0
              case Process(p, rid, done) =>
                var route := s.routes[rid];
                if !(IsFirst(route, p) && IsLast(route, p)) then 1 else if done then |route| - 1 else 0
              case Deliver(e, done) =>
                var route := s.routes[e.note.rid];
                if e.note.Forward? && IsFirst(route, e.to) && done then |route| - 2 else -1
  {
    hide Commit;
    match a
    case Process(p, rid, done) =>
      if IsFirst(s.routes[rid], p) && IsLast(s.routes[rid], p) {
        CommitAdds(SetSlot(s, p, rid, Slot(s.peers[p].running[rid].phase, false)), s.routes[rid], rid, done);
      }
    case Deliver(e, done) =>
      if IsFirst(s.routes[e.note.rid], e.to) {
        CommitAdds(Receive(s, e), s.routes[e.note.rid], e.note.rid, done);
      }
    case _ =>
  }

  /** What a step does to the lap of its own request, messages included. */
  lemma OwnLap(s: State, a: Action, place: Place)
    requires Enabled(s, a) && !a.Arrive? && Fine(s, About(s, a), place) && Apply(s, a).Ok? && About(s, a) in s.routes
    ensures var route := s.routes[About(s, a)];
            |Apply(s, a).value.net| + LapLeft(route, NextPlace(s, a)) <
            |s.net| + LapLeft(route, place) + if StartsLap(s, a) then Lap(s) else 0
  {
    hide Apply, Fine;
    var rid := About(s, a);
    var route := s.routes[rid];
    FineRoute(s, rid, place);
    OwnStep(s, a, place);
    if a.Deliver? && a.envelope.note.Forward? && IsFirst(route, a.envelope.to) {
      ReadyOrFlying(s, a, place);
    }
    StepMessages(s, a);
    DuePlace(s, a, place);
    NextPosition(route, Actor(a));
  }

  /** Where the copy an action moves was. */
  lemma DuePlace(s: State, a: Action, place: Place)
    requires Enabled(s, a) && !a.Arrive? && Fine(s, About(s, a), place)
    ensures place == match a
              case Admit(p, _) => Waits(p)
              case Process(p, _, _) => Ready(p)
              case Deliver(e, _) => if e.note.Over? then Nowhere else Flies(e.to, e.note.phase)
    ensures About(s, a) in s.routes && Actor(a) in s.routes[About(s, a)]
  {
    hide Apply;
    ActorOnRoute(s, a, place);
    match a
    case Admit(p, fits) => AdmitKeeps(s, p, fits, place);
    case Process(p, rid, done) => ProcessKeeps(s, p, rid, done, place);
    case Deliver(e, done) => DeliverKeeps(s, e, done, place);
  }

  lemma OtherWeight(s: State, s': State, rid: Rid)
    requires Untouched(s, s', rid) && HasPlace(s, rid)
    ensures Weight(s', rid) == Weight(s, rid)
  {
    hide Fine, LapLeft;
    var place := PlaceOf(s, rid);
    UntouchedStaysFine(s, s', rid, place);
    PlaceIsUnique(s', rid, PlaceOf(s', rid), place);
  }

  lemma WeightIs(s: State, rid: Rid, place: Place)
    requires Fine(s, rid, place) && rid in s.routes
    ensures Weight(s, rid) == LapLeft(s.routes[rid], place)
  {
    hide Fine, LapLeft;
    PlaceIsUnique(s, rid, PlaceOf(s, rid), place);
  }

  /** Every step uses up potential; a token that is not the last one buys at most a lap. */
  lemma StepUses(s: State, a: Action)
    requires Inv(s) && Enabled(s, a) && !a.Arrive?
    ensures Apply(s, a).Ok? && Inv(Apply(s, a).value)
    ensures Potential(Apply(s, a).value) < Potential(s) + if StartsLap(s, a) then Lap(s) else 0
  {
    hide Inv, Fine, Apply, Weight, TotalWeight, LapLeft, StartsLap, Lap, NextPlace, Enabled;
    StepKeepsInv(s, a);
    OwnRoute(s, a);
    var rid := About(s, a);
    var s' := Apply(s, a).value;
    PlaceOfAny(s, rid);
    var place := AliveHasPlace(s, rid);
    DuePlace(s, a, place);
    OwnStep(s, a, place);
    OwnLap(s, a, place);
    WeightIs(s, rid, place);
    WeightIs(s', rid, NextPlace(s, a));
    var all := s.routes.Keys;
    forall r | r in all - {rid} ensures Weight(s, r) == Weight(s', r) {
      PlaceOfAny(s, r);
      OthersUntouched(s, a, r);
      OtherWeight(s, s', r);
    }
    TotalSame(s, s', all - {rid});
    TotalSplits(s, all, rid);
    TotalSplits(s', all, rid);
  }

  /** Tokens committed in a run that were not the last of their request. */
  function Tokens(s: State, actions: seq<Action>): nat
    decreases |actions|
  {
    if actions == [] || !Enabled(s, actions[0]) || Apply(s, actions[0]).Raise? then 0
    else (if StartsLap(s, actions[0]) then 1 else 0) + Tokens(Apply(s, actions[0]).value, actions[1..])
  }

  ghost predicate Quiet(actions: seq<Action>) {
    forall i :: 0 <= i < |actions| ==> !actions[i].Arrive?
  }

  /** Peers keep their limits. */
  ghost predicate LimitsKept(s: State, s': State) {
    && s'.peers.Keys == s.peers.Keys
    && forall p :: p in s.peers ==> s'.peers[p].slots == s.peers[p].slots && s'.peers[p].budget == s.peers[p].budget
  }

  lemma KeptTwice(a: State, b: State, c: State)
    requires LimitsKept(a, b) && LimitsKept(b, c)
    ensures LimitsKept(a, c)
  {
  }

  lemma ReplacedKept(s: State, p: PeerId, peer: Peer)
    requires p in s.peers && peer.slots == s.peers[p].slots && peer.budget == s.peers[p].budget
    ensures LimitsKept(s, Replace(s, p, peer)) && Replace(s, p, peer).lengths == s.lengths
  {
  }

  lemma PeerKept(s: State, p: PeerId, rid: Rid, slot: Slot)
    requires p in s.peers
    ensures LimitsKept(s, SetSlot(s, p, rid, slot)) && LimitsKept(s, DropSlot(s, p, rid)) && LimitsKept(s, Enqueue(s, p, rid))
    ensures SetSlot(s, p, rid, slot).lengths == s.lengths && DropSlot(s, p, rid).lengths == s.lengths
    ensures Enqueue(s, p, rid).lengths == s.lengths
    ensures s.peers[p].waiting != [] ==> LimitsKept(s, Dequeue(s, p)) && Dequeue(s, p).lengths == s.lengths
  {
    hide LimitsKept;
    var peer := s.peers[p];
    ReplacedKept(s, p, peer.(running := peer.running[rid := slot]));
    ReplacedKept(s, p, peer.(running := peer.running - {rid}));
    ReplacedKept(s, p, peer.(waiting := peer.waiting + [rid]));
    if peer.waiting != [] {
      ReplacedKept(s, p, peer.(waiting := peer.waiting[1..]));
    }
  }

  lemma {:induction false} BroadcastKept(s: State, route: seq<PeerId>, rid: Rid)
    ensures Broadcast(s, route, rid).peers == s.peers && Broadcast(s, route, rid).lengths == s.lengths
  {
    if route != [] {
      BroadcastKept(s, route[..|route| - 1], rid);
    }
  }

  lemma CommitKept(s: State, route: seq<PeerId>, rid: Rid, done: bool)
    requires route != [] && route[0] in s.peers
    ensures LimitsKept(s, Commit(s, route, rid, done)) && Commit(s, route, rid, done).lengths == s.lengths
  {
    hide SetSlot, DropSlot, Broadcast;
    PeerKept(s, route[0], rid, Slot(Decode, true));
    BroadcastKept(DropSlot(s, route[0], rid), route[1..], rid);
  }

  lemma NetKept(s: State, s': State)
    requires s'.peers == s.peers
    ensures LimitsKept(s, s')
  {
  }

  /** No step changes a limit, and only an arrival brings a new length. */
  lemma PeersKept(s: State, a: Action)
    requires Enabled(s, a) && Apply(s, a).Ok?
    ensures LimitsKept(s, Apply(s, a).value)
    ensures Apply(s, a).value.lengths == if a.Arrive? then s.lengths[a.rid := a.length] else s.lengths
  {
    hide LimitsKept, SetSlot, DropSlot, Enqueue, Dequeue, Commit, NextPeer;
    var s' := Apply(s, a).value;
    match a
    case Arrive(rid, route, length) =>
      var known := Known(s, rid, route, length);
      NetKept(s, known);
      PeerKept(known, route[0], rid, Slot(Prefill, true));
      KeptTwice(s, known, s');
    case Admit(p, fits) =>
      var rid := s.peers[p].waiting[0];
      var taken := Dequeue(s, p);
      PeerKept(s, p, rid, Slot(Prefill, true));
      PeersStay(s, p);
      PeerKept(taken, p, rid, Slot(Prefill, true));
      if s' != taken {
        KeptTwice(s, taken, s');
      }
    case Process(p, rid, done) =>
      var slot := Slot(s.peers[p].running[rid].phase, false);
      var stopped := SetSlot(s, p, rid, slot);
      PeerKept(s, p, rid, slot);
      SlotsStay(s, p, rid, slot);
      if IsFirst(s.routes[rid], p) && IsLast(s.routes[rid], p) {
        CommitKept(stopped, s.routes[rid], rid, done);
      } else {
        NetKept(stopped, s');
      }
      KeptTwice(s, stopped, s');
    case Deliver(e, done) =>
      var got := Receive(s, e);
      ReceiveStays(s, e);
      NetKept(s, got);
      PeerKept(got, e.to, e.note.rid, Slot(Decode, true));
      if IsFirst(s.routes[e.note.rid], e.to) {
        CommitKept(got, s.routes[e.note.rid], e.note.rid, done);
      }
      if s' != got {
        KeptTwice(s, got, s');
      }
  }

  /** Between arrivals, every run is bounded by what is under way and by the tokens it commits. */
  lemma {:induction false} RunsAreBounded(s: State, actions: seq<Action>)
    requires Inv(s) && Ran(s, actions).Some? && Quiet(actions)
    ensures |actions| + Potential(Ran(s, actions).value) <= Potential(s) + Lap(s) * Tokens(s, actions)
    decreases |actions|
  {
    hide Inv, Enabled, Apply, Potential, StartsLap;
    if actions != [] {
      var a, rest := actions[0], actions[1..];
      assert !a.Arrive? && Quiet(rest);
      StepUses(s, a);
      PeersKept(s, a);
      var next := Apply(s, a).value;
      RunsAreBounded(next, rest);
      assert |s.peers| == |s.peers.Keys| && |next.peers| == |next.peers.Keys|;
      var t := Tokens(next, rest);
      assert Lap(s) * (t + 1) == Lap(s) * t + Lap(s);
    } else {
      assert Lap(s) * 0 == 0;
    }
  }

  // ----- nobody waits in a circle -----

  /** The route goes up in the order. */
  ghost predicate GoesUp(route: seq<PeerId>, rank: map<PeerId, nat>) {
    && (forall p :: p in route ==> p in rank)
    && forall i, j :: 0 <= i < j < |route| ==> rank[route[i]] < rank[route[j]]
  }

  /** The request's prompt fits the budget of its first peer. */
  predicate PromptFits(s: State, rid: Rid)
    requires rid in s.routes
  {
    && s.routes[rid] != [] && s.routes[rid][0] in s.peers
    && rid in s.lengths && s.lengths[rid] <= s.peers[s.routes[rid][0]].budget
  }

  /** A state of the ring in which nothing is held back for good: all routes follow one order of the peers,
      every peer has a slot and a token to spend, and every prompt fits its first peer. */
  ghost predicate Sound(s: State, rank: map<PeerId, nat>) {
    && Inv(s) && Accounted(s)
    && (forall rid :: rid in s.routes ==> GoesUp(s.routes[rid], rank) && PromptFits(s, rid))
    && (forall p :: p in s.peers ==> s.peers[p].slots >= 1 && s.peers[p].budget >= 1)
  }

  lemma SoundStays(s: State, a: Action, rank: map<PeerId, nat>)
    requires Sound(s, rank) && Enabled(s, a) && Internal(a)
    ensures Apply(s, a).Ok? && Sound(Apply(s, a).value, rank)
  {
    hide Inv, Accounted, Apply, GoesUp, Enabled;
    StepKeepsInv(s, a);
    StepAccounts(s, a);
    OwnRoute(s, a);
    PeersKept(s, a);
  }

  /** The step that is due where a copy is; the request ends with the next token. */
  function Due(rid: Rid, place: Place): Action
    requires place != Nowhere
  {
    match place
    case Waits(p) => Admit(p, true)
    case Ready(p) => Process(p, rid, true)
    case Flies(to, phase) => Deliver(Envelope(to, Forward(rid, phase)), true)
  }

  /** A packet can always be handled, and a ready request run if it fits the budget by itself. */
  lemma DueIsEnabled(s: State, rid: Rid, place: Place)
    requires Fine(s, rid, place) && rid in s.routes && PromptFits(s, rid)
    requires forall p :: p in s.peers ==> s.peers[p].budget >= 1
    requires place.Ready? || place.Flies?
    ensures Enabled(s, Due(rid, place))
  {
    PlaceIsCopy(s, rid, place);
  }

  ghost function WaitingPeers(s: State): set<PeerId> {
    set p | p in s.peers && s.peers[p].waiting != []
  }

  lemma {:induction false} Highest(peers: set<PeerId>, rank: map<PeerId, nat>) returns (p: PeerId)
    requires peers != {} && peers <= rank.Keys
    ensures p in peers && forall q :: q in peers ==> rank[q] <= rank[p]
  {
    var x :| x in peers;
    p := x;
    if peers != {x} {
      var y := Highest(peers - {x}, rank);
      if rank[x] < rank[y] {
        p := y;
      }
    }
  }

  /** Who waits somewhere waits on its route. */
  lemma WaitingIsRanked(s: State, rank: map<PeerId, nat>, p: PeerId)
    requires Sound(s, rank) && p in WaitingPeers(s)
    ensures p in rank
  {
    var rid := s.peers[p].waiting[0];
    PlaceOfAny(s, rid);
    var place := AliveHasPlace(s, rid);
    FineIsThere(s, rid, place);
    HeadIsQueued(s, p, place);
    assert GoesUp(s.routes[rid], rank);
  }

  /** A request that runs on `p` and waits elsewhere waits further up. */
  lemma WaitsFurtherUp(s: State, rank: map<PeerId, nat>, p: PeerId, q: PeerId, rid: Rid)
    requires Fine(s, rid, Waits(q)) && rid in s.routes && GoesUp(s.routes[rid], rank)
    requires p in s.peers && rid in s.peers[p].running && p in s.routes[rid]
    ensures q in rank && p in rank && rank[p] < rank[q]
  {
    var route := s.routes[rid];
    var i, j := IndexIn(route, p), IndexIn(route, q);
    assert p in Holders(s, rid) && route[i] == p && route[j] == q;
    assert i < j;
  }

  /** While any request is alive, some step can be taken: a message, a ready request, or an admission on the
      highest peer anyone waits on, whose slots cannot all be held by requests that wait. */
  lemma SomeoneCanMove(s: State, rank: map<PeerId, nat>, rid: Rid) returns (a: Action)
    requires Sound(s, rank) && Alive(s, rid)
    ensures Enabled(s, a) && Internal(a) && !StartsLap(s, a)
  {
    hide Inv, Fine, Alive, GoesUp, AccountedAt, PromptFits;
    PlaceOfAny(s, rid);
    var place := AliveHasPlace(s, rid);
    if !place.Waits? {
      DueIsEnabled(s, rid, place);
      return Due(rid, place);
    }
    var p := HighestWaiting(s, rank, rid, place.at);
    if |s.peers[p].running| < s.peers[p].slots {
      return Admit(p, true);
    }
    var r := SomeRunning(s.peers[p].running);
    assert AccountedAt(s, p, r);
    AccountedMeans(s, p, r);
    if Envelope(p, Over(r)) in s.net {
      return Deliver(Envelope(p, Over(r)), true);
    }
    PlaceOfAny(s, r);
    var other := AliveHasPlace(s, r);
    if other.Waits? {
      WaitsFurtherUp(s, rank, p, other.at, r);
      WaitingThere(s, r, other.at);
      assert false;
    }
    DueIsEnabled(s, r, other);
    a := Due(r, other);
  }

  lemma AccountedMeans(s: State, p: PeerId, rid: Rid)
    requires AccountedAt(s, p, rid)
    ensures rid in s.routes && p in s.routes[rid] && (Alive(s, rid) || Envelope(p, Over(rid)) in s.net)
  {
  }

  lemma WaitingThere(s: State, rid: Rid, q: PeerId)
    requires Fine(s, rid, Waits(q))
    ensures q in WaitingPeers(s)
  {
    PlaceIsCopy(s, rid, Waits(q));
  }

  lemma HighestWaiting(s: State, rank: map<PeerId, nat>, rid: Rid, q: PeerId) returns (p: PeerId)
    requires Sound(s, rank) && Fine(s, rid, Waits(q))
    ensures p in WaitingPeers(s) && p in rank && forall x :: x in WaitingPeers(s) && x in rank ==> rank[x] <= rank[p]
  {
    hide Sound, Fine;
    WaitingThere(s, rid, q);
    forall x | x in WaitingPeers(s) ensures x in rank {
      WaitingIsRanked(s, rank, x);
    }
    p := Highest(WaitingPeers(s), rank);
  }

  lemma SomeRunning(running: map<Rid, Slot>) returns (r: Rid)
    requires |running| >= 1
    ensures r in running
  {
    assert |running.Keys| >= 1;
    r :| r in running.Keys;
  }

  // ----- everyone is served -----

  ghost predicate AllInternal(actions: seq<Action>) {
    forall i :: 0 <= i < |actions| ==> Internal(actions[i])
  }

  /** Some step of the run commits the request's last token. */
  predicate Finishes(s: State, actions: seq<Action>, rid: Rid)
    decreases |actions|
  {
    && actions != [] && Enabled(s, actions[0]) && Apply(s, actions[0]).Ok?
    && ((!actions[0].Admit? && Ends(s, actions[0], rid)) || Finishes(Apply(s, actions[0]).value, actions[1..], rid))
  }

  /** Without a refusal a request stays alive until its last token is committed. */
  lemma {:induction false} AliveUntilFinished(s: State, actions: seq<Action>, rid: Rid)
    requires Inv(s) && Ran(s, actions).Some? && AllInternal(actions) && Alive(s, rid)
    ensures Alive(Ran(s, actions).value, rid) || Finishes(s, actions, rid)
    decreases |actions|
  {
    hide Inv, Fine, Alive, Apply, Enabled, Ends;
    if actions != [] {
      var a, rest := actions[0], actions[1..];
      assert Internal(a) && AllInternal(rest);
      StepKeepsInv(s, a);
      var next := Apply(s, a).value;
      PlaceOfAny(s, rid);
      var place := AliveHasPlace(s, rid);
      var place' := StepMoves(s, a, rid, place);
      PlaceOfAny(next, rid);
      var now := AliveHasPlace(next, rid);
      PlaceIsUnique(next, rid, now, place');
      AdmitEndsNothing(s, a, rid);
      if place' != Nowhere {
        AliveUntilFinished(next, rest, rid);
      }
    }
  }

  lemma AdmitEndsNothing(s: State, a: Action, rid: Rid)
    requires Enabled(s, a) && Internal(a)
    ensures a.Admit? ==> !Ends(s, a, rid)
  {
  }

  lemma {:induction false} SoundRun(s: State, actions: seq<Action>, rank: map<PeerId, nat>)
    requires Sound(s, rank) && Ran(s, actions).Some? && AllInternal(actions)
    ensures Sound(Ran(s, actions).value, rank)
    decreases |actions|
  {
    hide Sound, Apply, Enabled;
    if actions != [] {
      assert Internal(actions[0]);
      SoundStays(s, actions[0], rank);
      SoundRun(Apply(s, actions[0]).value, actions[1..], rank);
    }
  }

  /** The ring has nothing left to do on its own. */
  ghost predicate Idle(s: State) {
    forall a :: Enabled(s, a) ==> !Internal(a)
  }

  /** From a sound state, whatever the order of the steps: a run is bounded by what is under way and the tokens
      it commits, and once the ring is idle, every request that was alive has had its last token committed. */
  lemma IdleMeansServed(s: State, actions: seq<Action>, rank: map<PeerId, nat>, rid: Rid)
    requires Sound(s, rank) && Ran(s, actions).Some? && AllInternal(actions) && Alive(s, rid)
    ensures |actions| <= Potential(s) + Lap(s) * Tokens(s, actions)
    ensures Idle(Ran(s, actions).value) ==> Finishes(s, actions, rid)
  {
    hide Alive, Inv, Accounted, Lap, Tokens, Potential, Ran, Finishes, Enabled, Internal;
    assert Quiet(actions) by { InternalIsQuiet(actions); }
    RunsAreBounded(s, actions);
    SoundRun(s, actions, rank);
    AliveUntilFinished(s, actions, rid);
    var end := Ran(s, actions).value;
    if Idle(end) && Alive(end, rid) {
      var a := SomeoneCanMove(end, rank, rid);
    }
  }

  lemma InternalIsQuiet(actions: seq<Action>)
    requires AllInternal(actions)
    ensures Quiet(actions)
  {
    forall i | 0 <= i < |actions| ensures !actions[i].Arrive? {
      assert Internal(actions[i]);
    }
  }

  /** And there is such a run: with every next token the last, the ring comes to rest. */
  lemma {:induction false} ComesToRest(s: State, rank: map<PeerId, nat>) returns (actions: seq<Action>, end: State)
    requires Sound(s, rank)
    ensures Ran(s, actions) == Some(end) && AllInternal(actions) && forall rid :: !Alive(end, rid)
    decreases Potential(s)
  {
    hide Sound, Alive, Apply, Enabled, Potential, Ran, StartsLap, Internal;
    if rid :| Alive(s, rid) {
      var a := SomeoneCanMove(s, rank, rid);
      assert Inv(s) by { SoundInv(s, rank); }
      assert !a.Arrive? by { InternalIsQuiet([a]); assert [a][0] == a; }
      StepUses(s, a);
      SoundStays(s, a, rank);
      var rest;
      rest, end := ComesToRest(Apply(s, a).value, rank);
      actions := [a] + rest;
      assert actions[0] == a && actions[1..] == rest;
      RanOne(s, actions);
    } else {
      actions, end := [], s;
      RanNone(s);
    }
  }

  /** Over every run without a refusal: whichever internal steps follow, they are bounded, and once the ring is
      idle every request that arrived has had its last token committed, before or after. */
  lemma EveryoneIsServed(trace: seq<State>, actions: seq<Action>, k: nat, rank: map<PeerId, nat>, more: seq<Action>, rid: Rid)
    requires Run(trace, actions) && k < |trace| && forall i :: 0 <= i < k ==> !Refuses(actions[i])
    requires forall r :: r in trace[k].routes ==> GoesUp(trace[k].routes[r], rank) && PromptFits(trace[k], r)
    requires forall p :: p in trace[k].peers ==> trace[k].peers[p].slots >= 1 && trace[k].peers[p].budget >= 1
    requires Ran(trace[k], more).Some? && AllInternal(more) && rid in trace[k].routes
    ensures |more| <= Potential(trace[k]) + Lap(trace[k]) * Tokens(trace[k], more)
    ensures Idle(Ran(trace[k], more).value) ==> !NotEnded(trace, actions, k, rid) || Finishes(trace[k], more, rid)
  {
    hide Inv, Alive, GoesUp, PromptFits, Accounted, Potential, Lap, Tokens, Ran, Finishes, Idle, NotEnded, Run, Fine;
    RunAccounts(trace, actions, k);
    RunKeepsInv(trace, actions, k);
    assert Sound(trace[k], rank);
    var place := PlaceInRun(trace, actions, k, rid);
    if place != Nowhere {
      PlaceIsCopy(trace[k], rid, place);
      assert Alive(trace[k], rid) by { CopyIsAlive(trace[k], rid, place); }
      IdleMeansServed(trace[k], more, rank, rid);
    } else {
      SoundInv(trace[k], rank);
      assert Quiet(more) by { InternalIsQuiet(more); }
      RunsAreBounded(trace[k], more);
    }
  }

  lemma CopyIsAlive(s: State, rid: Rid, place: Place)
    requires CopyAt(s, rid, place)
    ensures Alive(s, rid)
  {
  }

  lemma {:induction false} RunAccounts(trace: seq<State>, actions: seq<Action>, k: nat)
    requires Run(trace, actions) && k < |trace| && forall i :: 0 <= i < k ==> !Refuses(actions[i])
    ensures Accounted(trace[k])
  {
    hide Inv, Enabled, Apply, Accounted;
    if k == 0 {
      NobodyRuns(trace[0]);
    } else {
      RunAccounts(trace, actions, k - 1);
      RunKeepsInv(trace, actions, k - 1);
      assert Enabled(trace[k - 1], actions[k - 1]) && Apply(trace[k - 1], actions[k - 1]) == Ok(trace[k - 1 + 1]);
      StepAccounts(trace[k - 1], actions[k - 1]);
    }
  }

  lemma NobodyRuns(s: State)
    requires Init(s)
    ensures Accounted(s)
  {
  }

  // ----- a prompt over the budget -----

  /** Still in prefill on its first peer, whose budget its prompt exceeds. */
  ghost predicate Starving(s: State, rid: Rid) {
    && rid in s.routes && s.routes[rid] != [] && s.routes[rid][0] in s.peers && rid in s.lengths && !PromptFits(s, rid)
    && var p := s.routes[rid][0];
       Fine(s, rid, Waits(p))
       || (Fine(s, rid, Ready(p)) && rid in s.peers[p].running && s.peers[p].running[rid].phase == Prefill)
  }

  /** The only step about such a request is its admission, after which it is ready and cannot run. */
  lemma StillStarving(s: State, a: Action, rid: Rid)
    requires Inv(s) && Starving(s, rid) && Enabled(s, a) && !Refuses(a)
    ensures Apply(s, a).Ok? && Starving(Apply(s, a).value, rid)
  {
    hide Inv, Fine, Untouched, Apply, NextPlace;
    StepKeepsInv(s, a);
    OwnRoute(s, a);
    PeersKept(s, a);
    var p := s.routes[rid][0];
    var s' := Apply(s, a).value;
    var place := if Fine(s, rid, Waits(p)) then Waits(p) else Ready(p);
    if About(s, a) == rid {
      assert !a.Arrive?;
      DuePlace(s, a, place);
      AdmittedIsReady(s, a, p, place);
      OwnStep(s, a, place);
    } else {
      OthersUntouched(s, a, rid);
      UntouchedStaysFine(s, s', rid, place);
      SameSlot(s, s', rid, p);
    }
  }

  lemma SameSlot(s: State, s': State, rid: Rid, p: PeerId)
    requires Untouched(s, s', rid) && p in s.peers
    ensures p in s'.peers && (rid in s'.peers[p].running <==> rid in s.peers[p].running)
    ensures rid in s.peers[p].running ==> s'.peers[p].running[rid] == s.peers[p].running[rid]
  {
    assert PeerAgrees(s.peers[p], s'.peers[p], rid);
  }

  lemma AdmittedIsReady(s: State, a: Action, p: PeerId, place: Place)
    requires Enabled(s, a) && !a.Arrive? && !Refuses(a) && About(s, a) in s.routes && Fine(s, About(s, a), place)
    requires var rid := About(s, a);
             && s.routes[rid] != [] && s.routes[rid][0] == p && p in s.peers && rid in s.lengths && !PromptFits(s, rid)
             && (place == Waits(p)
                 || (place == Ready(p) && rid in s.peers[p].running && s.peers[p].running[rid].phase == Prefill))
    ensures place == Waits(p) && a == Admit(p, true) && Apply(s, a).Ok? && NextPlace(s, a) == Ready(p)
    ensures var s' := Apply(s, a).value; var rid := About(s, a);
            p in s'.peers && rid in s'.peers[p].running && s'.peers[p].running[rid].phase == Prefill
  {
    DuePlace(s, a, place);
    if a.Admit? {
      FineIsThere(s, About(s, a), place);
      NotHeld(s, About(s, a), s.routes[About(s, a)], p);
    }
  }

  /** Whatever else happens, it never ends. */
  lemma {:induction false} LongPromptStarves(s: State, actions: seq<Action>, rid: Rid)
    requires Inv(s) && Starving(s, rid) && Ran(s, actions).Some? && forall i :: 0 <= i < |actions| ==> !Refuses(actions[i])
    ensures Starving(Ran(s, actions).value, rid) && !Finishes(s, actions, rid)
    decreases |actions|
  {
    hide Inv, Starving, Apply, Enabled, Ends;
    if actions != [] {
      var a, rest := actions[0], actions[1..];
      StepKeepsInv(s, a);
      StillStarving(s, a, rid);
      var next := Apply(s, a).value;
      assert forall i :: 0 <= i < |rest| ==> rest[i] == actions[i + 1];
      LongPromptStarves(next, rest, rid);
      StarvingDoesNotEnd(s, a, rid);
    }
  }

  lemma StarvingDoesNotEnd(s: State, a: Action, rid: Rid)
    requires Inv(s) && Starving(s, rid) && Enabled(s, a) && !Refuses(a)
    ensures !Ends(s, a, rid)
  {
    hide Inv, Fine;
    var p := s.routes[rid][0];
    var place := if Fine(s, rid, Waits(p)) then Waits(p) else Ready(p);
    if About(s, a) == rid && !a.Arrive? {
      AdmittedIsReady(s, a, p, place);
    }
  }

  /** A request in prefill on its first peer can be served exactly when its prompt fits that peer's budget. */
  lemma ServedExactlyIfItFits(s: State, rank: map<PeerId, nat>, rid: Rid)
    requires Inv(s) && Accounted(s) && rid in s.routes && s.routes[rid] != [] && s.routes[rid][0] in s.peers && rid in s.lengths
    requires forall r :: r in s.routes ==> GoesUp(s.routes[r], rank) && (r != rid ==> PromptFits(s, r))
    requires forall p :: p in s.peers ==> s.peers[p].slots >= 1 && s.peers[p].budget >= 1
    requires var p := s.routes[rid][0];
             Fine(s, rid, Waits(p))
             || (Fine(s, rid, Ready(p)) && rid in s.peers[p].running && s.peers[p].running[rid].phase == Prefill)
    ensures (exists actions :: Ran(s, actions).Some? && AllInternal(actions) && Finishes(s, actions, rid)) <==> PromptFits(s, rid)
  {
    hide Inv, Accounted, GoesUp, Ran, Finishes, Alive, Fine;
    if PromptFits(s, rid) {
      assert Sound(s, rank);
      var actions, end := ComesToRest(s, rank);
      var p := s.routes[rid][0];
      var place := if Fine(s, rid, Waits(p)) then Waits(p) else Ready(p);
      PlaceIsCopy(s, rid, place);
      CopyIsAlive(s, rid, place);
      AliveUntilFinished(s, actions, rid);
    } else {
      assert Starving(s, rid);
      forall actions | Ran(s, actions).Some? && AllInternal(actions) ensures !Finishes(s, actions, rid) {
        assert forall i :: 0 <= i < |actions| ==> Internal(actions[i]);
        LongPromptStarves(s, actions, rid);
      }
    }
  }

  lemma SoundInv(s: State, rank: map<PeerId, nat>)
    requires Sound(s, rank)
    ensures Inv(s)
  {
  }

  // ----- a refusal further up -----

  /** No copy is left, nothing was announced, and the peer still runs it. */
  ghost predicate Stranded(s: State, p: PeerId, rid: Rid) {
    rid in s.routes && Fine(s, rid, Nowhere) && !OverSent(s, rid) && p in s.peers && rid in s.peers[p].running
  }

  /** A refusal strands the request on the peers that admitted it before. */
  lemma RefusalStrands(s: State, q: PeerId, p: PeerId)
    requires Inv(s) && Enabled(s, Admit(q, false)) && p in s.peers && s.peers[q].waiting[0] in s.peers[p].running
    ensures Apply(s, Admit(q, false)).Ok? && Stranded(Apply(s, Admit(q, false)).value, p, s.peers[q].waiting[0])
  {
    hide Inv;
    var rid := s.peers[q].waiting[0];
    PlaceOfAny(s, rid);
    var place := AliveHasPlace(s, rid);
    AdmitKeeps(s, q, false, place);
    NotHeld(s, rid, s.routes[rid], q);
    SameNews(s, Apply(s, Admit(q, false)).value, rid);
  }

  /** And there it stays: nothing in the ring gives its slot back. */
  lemma {:induction false} StrandedForGood(s: State, actions: seq<Action>, p: PeerId, rid: Rid)
    requires Inv(s) && Stranded(s, p, rid) && Ran(s, actions).Some?
    ensures Stranded(Ran(s, actions).value, p, rid)
    decreases |actions|
  {
    hide Inv, Stranded, Apply, Enabled;
    if actions != [] {
      StepKeepsInv(s, actions[0]);
      StillStranded(s, actions[0], p, rid);
      StrandedForGood(Apply(s, actions[0]).value, actions[1..], p, rid);
    }
  }

  lemma StillStranded(s: State, a: Action, p: PeerId, rid: Rid)
    requires Inv(s) && Stranded(s, p, rid) && Enabled(s, a) && Apply(s, a).Ok?
    ensures Stranded(Apply(s, a).value, p, rid)
  {
    hide Inv, Fine, Untouched, Apply, OverSent;
    if About(s, a) == rid {
      assert !a.Arrive?;
      DuePlace(s, a, Nowhere);
      NewsIsOut(s, a.envelope);
      assert false;
    }
    var s' := Apply(s, a).value;
    OthersUntouched(s, a, rid);
    UntouchedStaysFine(s, s', rid, Nowhere);
    UntouchedStaysSilent(s, s', rid);
    SameSlot(s, s', rid, p);
  }

  lemma UntouchedStaysSilent(s: State, s': State, rid: Rid)
    requires Untouched(s, s', rid)
    ensures (rid in s'.routes <==> rid in s.routes) && (OverSent(s', rid) <==> OverSent(s, rid))
  {
    UntouchedNews(s, s', rid);
  }

  // ----- without an order of the peers -----

  function OneSlot(waiting: seq<Rid>, running: map<Rid, Slot>): Peer {
    Peer(waiting, running, 1, 1)
  }

  function Two(a: Peer, b: Peer, net: multiset<Envelope>, known: bool): State {
    State(map["A" := a, "B" := b], net,
          if known then map["x" := ["A", "B"], "y" := ["B", "A"]] else map["x" := ["A", "B"]],
          if known then map["x" := 1, "y" := 1] else map["x" := 1])
  }

  function Empty(): State {
    State(map["A" := OneSlot([], map[]), "B" := OneSlot([], map[])], multiset{}, map[], map[])
  }

  /** Each request runs on one peer and waits on the other. */
  function Stuck(): State {
    Two(OneSlot(["y"], map["x" := Slot(Prefill, false)]), OneSlot(["x"], map["y" := Slot(Prefill, false)]), multiset{}, true)
  }

  function CircleActions(): seq<Action> {
    [Arrive("x", ["A", "B"], 1), Arrive("y", ["B", "A"], 1), Admit("A", true), Admit("B", true),
     Process("A", "x", false), Process("B", "y", false),
     Deliver(Envelope("B", Forward("x", Prefill)), false), Deliver(Envelope("A", Forward("y", Prefill)), false)]
  }

  lemma Names()
    ensures "A" != "B" && "x" != "y"
    ensures NextPeer(["A", "B"], "A") == "B" && NextPeer(["B", "A"], "B") == "A"
    ensures !IsLast(["A", "B"], "A") && !IsLast(["B", "A"], "B")
  {
    assert ["A", "B"][0] == "A" && ["B", "A"][0] == "B";
    assert IndexIn(["A", "B"], "A") == 0 && IndexIn(["B", "A"], "B") == 0;
  }

  lemma TwoChanged(a: Peer, b: Peer, peer: Peer)
    ensures map["A" := a, "B" := b]["A" := peer] == map["A" := peer, "B" := b]
    ensures map["A" := a, "B" := b]["B" := peer] == map["A" := a, "B" := peer]
  {
    Names();
  }

  /** One step of the run, by its new peers and messages. */
  predicate Does(s: State, a: Action, s': State) {
    Enabled(s, a) && Apply(s, a) == Ok(s')
  }

  lemma FirstArrives()
    ensures Does(Empty(), CircleActions()[0], Two(OneSlot(["x"], map[]), OneSlot([], map[]), multiset{}, false))
  {
    Names();
    TwoChanged(OneSlot([], map[]), OneSlot([], map[]), OneSlot(["x"], map[]));
    var known := Known(Empty(), "x", ["A", "B"], 1);
    assert known.routes == map["x" := ["A", "B"]] && known.lengths == map["x" := 1];
    assert known.peers["A"].(waiting := known.peers["A"].waiting + ["x"]) == OneSlot(["x"], map[]);
  }

  lemma SecondArrives()
    ensures Does(Two(OneSlot(["x"], map[]), OneSlot([], map[]), multiset{}, false), CircleActions()[1],
                 Two(OneSlot(["x"], map[]), OneSlot(["y"], map[]), multiset{}, true))
  {
    Names();
    var s := Two(OneSlot(["x"], map[]), OneSlot([], map[]), multiset{}, false);
    TwoChanged(OneSlot(["x"], map[]), OneSlot([], map[]), OneSlot(["y"], map[]));
    var known := Known(s, "y", ["B", "A"], 1);
    assert known.routes == map["x" := ["A", "B"], "y" := ["B", "A"]] && known.lengths == map["x" := 1, "y" := 1];
    assert known.peers["B"].(waiting := known.peers["B"].waiting + ["y"]) == OneSlot(["y"], map[]);
  }

  lemma FirstAdmits()
    ensures Does(Two(OneSlot(["x"], map[]), OneSlot(["y"], map[]), multiset{}, true), Admit("A", true),
                 Two(OneSlot([], map["x" := Slot(Prefill, true)]), OneSlot(["y"], map[]), multiset{}, true))
  {
    Names();
    TwoChanged(OneSlot(["x"], map[]), OneSlot(["y"], map[]), OneSlot([], map[]));
    TwoChanged(OneSlot([], map[]), OneSlot(["y"], map[]), OneSlot([], map["x" := Slot(Prefill, true)]));
    assert ["x"][1..] == [];
    var none: map<Rid, Slot> := map[];
    assert |none| == 0 && none["x" := Slot(Prefill, true)] == map["x" := Slot(Prefill, true)];
  }

  lemma SecondAdmits(a: Peer)
    ensures Does(Two(a, OneSlot(["y"], map[]), multiset{}, true), Admit("B", true),
                 Two(a, OneSlot([], map["y" := Slot(Prefill, true)]), multiset{}, true))
  {
    Names();
    TwoChanged(a, OneSlot(["y"], map[]), OneSlot([], map[]));
    TwoChanged(a, OneSlot([], map[]), OneSlot([], map["y" := Slot(Prefill, true)]));
    assert ["y"][1..] == [];
    var none: map<Rid, Slot> := map[];
    assert |none| == 0 && none["y" := Slot(Prefill, true)] == map["y" := Slot(Prefill, true)];
  }

  lemma FirstProcesses(b: Peer)
    ensures Does(Two(OneSlot([], map["x" := Slot(Prefill, true)]), b, multiset{}, true), Process("A", "x", false),
                 Two(OneSlot([], map["x" := Slot(Prefill, false)]), b, multiset{Envelope("B", Forward("x", Prefill))}, true))
  {
    Names();
    TwoChanged(OneSlot([], map["x" := Slot(Prefill, true)]), b, OneSlot([], map["x" := Slot(Prefill, false)]));
    assert map["x" := Slot(Prefill, true)]["x" := Slot(Prefill, false)] == map["x" := Slot(Prefill, false)];
    var none: multiset<Envelope> := multiset{};
    assert none + multiset{Envelope("B", Forward("x", Prefill))} == multiset{Envelope("B", Forward("x", Prefill))};
  }

  lemma SecondProcesses(a: Peer, net: multiset<Envelope>)
    ensures Does(Two(a, OneSlot([], map["y" := Slot(Prefill, true)]), net, true), Process("B", "y", false),
                 Two(a, OneSlot([], map["y" := Slot(Prefill, false)]), net + multiset{Envelope("A", Forward("y", Prefill))}, true))
  {
    Names();
    TwoChanged(a, OneSlot([], map["y" := Slot(Prefill, true)]), OneSlot([], map["y" := Slot(Prefill, false)]));
    assert map["y" := Slot(Prefill, true)]["y" := Slot(Prefill, false)] == map["y" := Slot(Prefill, false)];
  }

  lemma SecondHears(a: Peer, running: map<Rid, Slot>, net: multiset<Envelope>)
    ensures Does(Two(a, OneSlot([], running), multiset{Envelope("B", Forward("x", Prefill))} + net, true),
                 Deliver(Envelope("B", Forward("x", Prefill)), false), Two(a, OneSlot(["x"], running), net, true))
  {
    Names();
    TwoChanged(a, OneSlot([], running), OneSlot(["x"], running));
    assert multiset{Envelope("B", Forward("x", Prefill))} + net - multiset{Envelope("B", Forward("x", Prefill))} == net;
    assert ["A", "B"][1] == "B" && OneSlot([], running).waiting + ["x"] == ["x"];
  }

  lemma FirstHears(running: map<Rid, Slot>, b: Peer)
    ensures Does(Two(OneSlot([], running), b, multiset{Envelope("A", Forward("y", Prefill))}, true),
                 Deliver(Envelope("A", Forward("y", Prefill)), false), Two(OneSlot(["y"], running), b, multiset{}, true))
  {
    Names();
    TwoChanged(OneSlot([], running), b, OneSlot(["y"], running));
    assert ["B", "A"][1] == "A" && OneSlot([], running).waiting + ["y"] == ["y"];
  }

  lemma RanStep(s: State, actions: seq<Action>, k: nat, s': State)
    requires k < |actions| && Does(s, actions[k], s')
    ensures Ran(s, actions[k..]) == Ran(s', actions[k + 1..])
  {
    assert actions[k..][0] == actions[k] && actions[k..][1..] == actions[k + 1..];
    RanOne(s, actions[k..]);
  }

  /** Both requests are admitted on their first peers. */
  lemma BothAdmitted()
    ensures var actions := CircleActions();
            Ran(Empty(), actions) ==
            Ran(Two(OneSlot([], map["x" := Slot(Prefill, true)]), OneSlot([], map["y" := Slot(Prefill, true)]), multiset{}, true),
                actions[4..])
  {
    hide Ran, Does;
    var actions := CircleActions();
    var x, y := map["x" := Slot(Prefill, true)], map["y" := Slot(Prefill, true)];
    FirstArrives();
    SecondArrives();
    FirstAdmits();
    SecondAdmits(OneSlot([], x));
    assert actions[0..] == actions;
    RanStep(Empty(), actions, 0, Two(OneSlot(["x"], map[]), OneSlot([], map[]), multiset{}, false));
    RanStep(Two(OneSlot(["x"], map[]), OneSlot([], map[]), multiset{}, false), actions, 1,
            Two(OneSlot(["x"], map[]), OneSlot(["y"], map[]), multiset{}, true));
    RanStep(Two(OneSlot(["x"], map[]), OneSlot(["y"], map[]), multiset{}, true), actions, 2,
            Two(OneSlot([], x), OneSlot(["y"], map[]), multiset{}, true));
    RanStep(Two(OneSlot([], x), OneSlot(["y"], map[]), multiset{}, true), actions, 3,
            Two(OneSlot([], x), OneSlot([], y), multiset{}, true));
  }

  lemma CircleRuns()
    ensures Ran(Empty(), CircleActions()) == Some(Stuck())
  {
    hide Ran, Does;
    BothAdmitted();
    var actions := CircleActions();
    var x, y := map["x" := Slot(Prefill, true)], map["y" := Slot(Prefill, true)];
    var x', y' := map["x" := Slot(Prefill, false)], map["y" := Slot(Prefill, false)];
    var toB, toA := multiset{Envelope("B", Forward("x", Prefill))}, multiset{Envelope("A", Forward("y", Prefill))};
    FirstProcesses(OneSlot([], y));
    SecondProcesses(OneSlot([], x'), toB);
    SecondHears(OneSlot([], x'), y', toA);
    FirstHears(x', OneSlot(["x"], y'));
    assert actions[8..] == [];
    RanStep(Two(OneSlot([], x), OneSlot([], y), multiset{}, true), actions, 4, Two(OneSlot([], x'), OneSlot([], y), toB, true));
    RanStep(Two(OneSlot([], x'), OneSlot([], y), toB, true), actions, 5,
            Two(OneSlot([], x'), OneSlot([], y'), toB + toA, true));
    RanStep(Two(OneSlot([], x'), OneSlot([], y'), toB + toA, true), actions, 6,
            Two(OneSlot([], x'), OneSlot(["x"], y'), toA, true));
    RanStep(Two(OneSlot([], x'), OneSlot(["x"], y'), toA, true), actions, 7, Stuck());
    RanNone(Stuck());
  }

  /** The order is needed: two requests that pass two one-slot peers in opposite directions stop each other for
      good, although both prompts fit. */
  lemma OppositeRoutesBlock()
    ensures Init(Empty()) && Ran(Empty(), CircleActions()) == Some(Stuck())
    ensures (forall rid :: rid in Stuck().routes ==> PromptFits(Stuck(), rid))
    ensures Idle(Stuck()) && Alive(Stuck(), "x") && Alive(Stuck(), "y")
  {
    CircleRuns();
    hide Ran, CircleActions;
    Names();
    StuckIsIdle();
    assert CopyAt(Stuck(), "x", Waits("B")) && CopyAt(Stuck(), "y", Waits("A"));
  }

  lemma StuckIsIdle()
    ensures Idle(Stuck())
  {
    Names();
    var s := Stuck();
    assert |s.peers["A"].running| == 1 && |s.peers["B"].running| == 1;
    forall a | Enabled(s, a) ensures !Internal(a) {
      assert s.peers.Keys == {"A", "B"};
    }
  }
}
