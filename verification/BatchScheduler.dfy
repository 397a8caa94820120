/** The continuous-batching scheduler of one peer: admission into the running set, and forming a batch. */
module BatchScheduler {
  import opened Outcomes
  import opened Requests
  import opened PagedCache

  /** A request as the scheduler sees it.  The first peer's requests know their prompt length; packets from
      other peers carry a position instead, and their prompt length is 0. */
  class Work {
    const id: Rid
    const promptLen: nat
    const totalLength: nat
    var status: Status
    var ready: bool

    constructor (id: Rid, promptLen: nat, totalLength: nat, status: Status)
      ensures this.id == id && this.promptLen == promptLen && this.totalLength == totalLength
      ensures this.status == status && !ready
    {
      this.id, this.promptLen, this.totalLength, this.status, ready := id, promptLen, totalLength, status, false;
    }

    /** What the batch budget is charged. */
    function Cost(): nat
      reads `status
    {
      if status == Prefilling then promptLen else 1
    }

    /** How many tokens the forward pass processes. */
    function RealTokens(): nat
      reads `status
    {
      if status == Prefilling then totalLength else 1
    }

    predicate Waiting()
      reads `status, `ready
    {
      ready && !status.Finished()
    }
  }

  /** What a batch is charged. */
  function Charged(batch: seq<Work>): nat
    reads (set w | w in batch)`status
    decreases |batch|
  {
    if batch == [] then 0 else Charged(batch[..|batch| - 1]) + batch[|batch| - 1].Cost()
  }

  /** How many tokens a batch really has. */
  function Real(batch: seq<Work>): nat
    reads (set w | w in batch)`status
    decreases |batch|
  {
    if batch == [] then 0 else Real(batch[..|batch| - 1]) + batch[|batch| - 1].RealTokens()
  }

  /** Prefill tokens the budget does not see. */
  function Hidden(batch: seq<Work>): int
    reads (set w | w in batch)`status
    decreases |batch|
  {
    if batch == [] then 0
    else
      var w := batch[|batch| - 1];
      Hidden(batch[..|batch| - 1]) + if w.status == Prefilling then w.totalLength - w.promptLen else 0
  }

  /** The budget misses exactly the tokens a packet's prompt length leaves out. */
  lemma {:induction false} BudgetMissesHiddenTokens(batch: seq<Work>)
    ensures Real(batch) == Charged(batch) + Hidden(batch)
    decreases |batch|
  {
    if batch != [] {
      BudgetMissesHiddenTokens(batch[..|batch| - 1]);
    }
  }

  /** The budget sees every token exactly when every prefill is charged for its whole length. */
  lemma {:induction false} NothingMissed(batch: seq<Work>)
    requires forall w :: w in batch && w.status == Prefilling ==> w.promptLen <= w.totalLength
    ensures Hidden(batch) >= 0
    ensures Real(batch) == Charged(batch) <==>
            forall w :: w in batch && w.status == Prefilling ==> w.promptLen == w.totalLength
    decreases |batch|
  {
    BudgetMissesHiddenTokens(batch);
    if batch != [] {
      var rest, w := batch[..|batch| - 1], batch[|batch| - 1];
      NothingMissed(rest);
      BudgetMissesHiddenTokens(rest);
      assert forall v :: v in batch <==> v in rest || v == w;
    }
  }

  /** What a peer other than the first makes of a packet: there is no prompt length in it. */
  predicate MadeOf(w: Work, p: Packet)
    reads w`status
  {
    w.id == p.id && w.promptLen == 0 && w.totalLength == p.position && w.status == p.status
  }

  method FromPacket(p: Packet) returns (w: Work)
    requires p.position >= 0
    ensures fresh(w) && MadeOf(w, p) && !w.ready
  {
    w := new Work(p.id, 0, p.position, p.status);
  }

  /** On the other peers the budget sees every token of a batch exactly when there is no prefill in it. */
  lemma LaterPeersMissEveryPrefill(batch: seq<Work>, packets: seq<Packet>)
    requires |batch| == |packets|
    requires forall i :: 0 <= i < |batch| ==> MadeOf(batch[i], packets[i]) && packets[i].position > 0
    ensures Real(batch) == Charged(batch) <==> forall i :: 0 <= i < |packets| ==> packets[i].status != Prefilling
  {
    NothingMissed(batch);
    assert forall i :: 0 <= i < |batch| ==> batch[i] in batch;
  }

  /** Two prompts of 4096 tokens, sent on by the first peer: the next peer charges them nothing, so they fit
      any budget. */
  lemma LaterPeersOverrun(x: seq<Token>, y: seq<Token>, h: Tensor, routing: seq<string>, a: Work, b: Work)
    requires |x| == 4096 && |y| == 4096
    requires MadeOf(a, Received(FromInitial("x", x, [], Prefilling, Some(h), routing)))
    requires MadeOf(b, Received(FromInitial("y", y, [], Prefilling, Some(h), routing)))
    ensures Charged([a, b]) == 0 && Real([a, b]) == 8192
  {
    assert [a, b][..1] == [a] && [a][..0] == [];
    assert Charged([a]) == 0 && Real([a]) == 4096;
  }

  ghost predicate DistinctIds(list: seq<Work>) {
    forall i, j :: 0 <= i < j < |list| ==> list[i].id != list[j].id
  }

  /** The ready requests of that status, in order. */
  function ReadyIn(list: seq<Work>, status: Status): (found: seq<Work>)
    reads (set w | w in list)`status, (set w | w in list)`ready
    ensures forall w :: w in found ==> w in list
    decreases |list|
  {
    if list == [] then []
    else
      var w := list[|list| - 1];
      ReadyIn(list[..|list| - 1], status) + if w.ready && w.status == status then [w] else []
  }

  /** The batch filled up from the list, in order, with whatever still fits. */
  function Packed(list: seq<Work>, batch: seq<Work>, micro: nat, budget: int): (packed: seq<Work>)
    reads (set w | w in list)`status, (set w | w in batch)`status
    ensures forall w :: w in packed ==> w in list || w in batch
    decreases |list|
  {
    if list == [] then batch
    else
      var w := list[|list| - 1];
      var packed := Packed(list[..|list| - 1], batch, micro, budget);
      assert forall v :: v in packed ==> v in list + batch;
      if |packed| >= micro || w.Cost() + Charged(packed) > budget then packed else packed + [w]
  }

  /** The candidates of both kinds. */
  ghost predicate AreReady(running: seq<Work>, prefills: seq<Work>, decodes: seq<Work>)
    reads (set w | w in running)`status, (set w | w in running)`ready
  {
    prefills == ReadyIn(running, Prefilling) && decodes == ReadyIn(running, Decoding)
  }

  /** `packed` is the filled-up batch; a caller that packs twice frames this instead of the recursion. */
  ghost predicate IsPacked(list: seq<Work>, batch: seq<Work>, micro: nat, budget: int, packed: seq<Work>)
    reads (set w | w in list)`status, (set w | w in batch)`status
  {
    packed == Packed(list, batch, micro, budget)
  }

  /** The batch is the ready prefills, as far as they fit, then the ready decodes, as far as they fit. */
  ghost predicate PrefillsThenDecodes(running: seq<Work>, micro: nat, budget: int, batch: seq<Work>)
    reads (set w | w in running)`status, (set w | w in running)`ready
  {
    var first := Packed(ReadyIn(running, Prefilling), [], micro, budget);
    batch == Packed(ReadyIn(running, Decoding), first, micro, budget)
  }

  /** A full batch takes no more. */
  lemma {:induction false} FullStaysPacked(list: seq<Work>, i: nat, batch: seq<Work>, micro: nat, budget: int)
    requires i <= |list| && |Packed(list[..i], batch, micro, budget)| >= micro
    ensures Packed(list, batch, micro, budget) == Packed(list[..i], batch, micro, budget)
    decreases |list|
  {
    if i == |list| {
      assert list[..i] == list;
    } else {
      assert list[..|list| - 1][..i] == list[..i];
      FullStaysPacked(list[..|list| - 1], i, batch, micro, budget);
    }
  }

  /** The filled-up batch is within both limits, and nothing left out would still fit. */
  lemma {:induction false} PackedIsMaximal(list: seq<Work>, batch: seq<Work>, micro: nat, budget: int)
    requires DistinctIds(list) && (forall v, w :: v in list && w in batch ==> v.id != w.id)
    requires DistinctIds(batch) && |batch| <= micro && Charged(batch) <= Max(0, budget)
    ensures var packed := Packed(list, batch, micro, budget);
      && batch <= packed && DistinctIds(packed) && |packed| <= micro && Charged(batch) <= Charged(packed) <= Max(0, budget)
      && forall w :: w in list ==> w in packed || |packed| >= micro || w.Cost() + Charged(packed) > budget
    decreases |list|
  {
    hide DistinctIds, Charged;
    if list != [] {
      var rest, w := list[..|list| - 1], list[|list| - 1];
      Apart(list, |list| - 1);
      PackedIsMaximal(rest, batch, micro, budget);
      OneMore(Packed(rest, batch, micro, budget), w);
      assert forall v :: v in list ==> v in rest || v == w;
    }
  }

  // ----- who is in the batch, by positions -----

  /** The one stands before the other in the list. */
  ghost predicate Before(list: seq<Work>, x: Work, y: Work) {
    exists p, q :: 0 <= p < q < |list| && list[p] == x && list[q] == y
  }

  ghost predicate InListOrder(list: seq<Work>, part: seq<Work>) {
    forall i, j :: 0 <= i < j < |part| ==> Before(list, part[i], part[j])
  }

  lemma BeforeLast(list: seq<Work>, x: Work, y: Work)
    requires list != []
    ensures Before(list[..|list| - 1], x, y) ==> Before(list, x, y)
    ensures x in list[..|list| - 1] ==> Before(list, x, list[|list| - 1])
  {
    var rest := list[..|list| - 1];
    if x in rest {
      var p :| 0 <= p < |rest| && rest[p] == x;
      assert list[p] == x;
    }
    if Before(rest, x, y) {
      var p, q :| 0 <= p < q < |rest| && rest[p] == x && rest[q] == y;
      assert list[p] == x && list[q] == y;
    }
  }

  /** The ready requests of a status are listed in the order of the list. */
  lemma {:induction false} ReadyInOrder(list: seq<Work>, status: Status)
    ensures InListOrder(list, ReadyIn(list, status))
    decreases |list|
  {
    if list != [] {
      var rest, w := list[..|list| - 1], list[|list| - 1];
      var ready := ReadyIn(rest, status);
      ReadyInOrder(rest, status);
      OneMoreInOrder(list, ready, w);
      assert ReadyIn(list, status) == ready + if w.ready && w.status == status then [w] else [];
      assert ready + [] == ready;
    }
  }

  /** The request stands behind the first `b` of what was added from position `from` on and before the others,
      and did not fit after those `b`. */
  ghost predicate DidNotFit(list: seq<Work>, from: nat, packed: seq<Work>, w: Work, micro: nat, budget: int, b: nat)
    requires from <= b <= |packed|
    reads w`status, (set v | v in packed)`status
  {
    && (forall i :: from <= i < b ==> Before(list, packed[i], w))
    && (forall i :: b <= i < |packed| ==> Before(list, w, packed[i]))
    && (b >= micro || w.Cost() + Charged(packed[..b]) > budget)
  }

  ghost predicate PassedOver(list: seq<Work>, from: nat, packed: seq<Work>, w: Work, micro: nat, budget: int)
    reads w`status, (set v | v in packed)`status
  {
    exists b :: from <= b <= |packed| && DidNotFit(list, from, packed, w, micro, budget, b)
  }

  /** What was added from position `from` on is in the list, and fitted when it was added. */
  ghost predicate Fitted(list: seq<Work>, from: nat, packed: seq<Work>, micro: nat, budget: int)
    reads (set w | w in packed)`status
  {
    forall i :: from <= i < |packed| ==> FittedAt(list, packed, i, micro, budget)
  }

  ghost predicate FittedAt(list: seq<Work>, packed: seq<Work>, i: nat, micro: nat, budget: int)
    requires i < |packed|
    reads (set w | w in packed)`status
  {
    packed[i] in list && i < micro && Charged(packed[..i + 1]) <= budget
  }

  /** What was added stands in list order and fitted when it was added, and what was passed over did not. */
  ghost predicate PackedWell(list: seq<Work>, batch: seq<Work>, micro: nat, budget: int, packed: seq<Work>)
    reads (set w | w in list)`status, (set w | w in packed)`status
  {
    && batch <= packed && InListOrder(list, packed[|batch|..])
    && Fitted(list, |batch|, packed, micro, budget)
    && (forall w :: w in list && w !in packed ==> PassedOver(list, |batch|, packed, w, micro, budget))
  }

  lemma {:induction false} PackedInOrder(list: seq<Work>, batch: seq<Work>, micro: nat, budget: int)
    requires DistinctIds(list)
    ensures PackedWell(list, batch, micro, budget, Packed(list, batch, micro, budget))
    decreases |list|
  {
    hide PackedWell, DistinctIds;
    if list == [] {
      NothingAdded(batch, micro, budget);
    } else {
      Apart(list, |list| - 1);
      PackedInOrder(list[..|list| - 1], batch, micro, budget);
      PackedStep(list, batch, micro, budget);
      OneMorePacked(list, batch, micro, budget, Packed(list[..|list| - 1], batch, micro, budget));
    }
  }

  lemma NothingAdded(batch: seq<Work>, micro: nat, budget: int)
    ensures PackedWell([], batch, micro, budget, batch)
  {
  }

  lemma OneMorePacked(list: seq<Work>, batch: seq<Work>, micro: nat, budget: int, before: seq<Work>)
    requires list != [] && PackedWell(list[..|list| - 1], batch, micro, budget, before)
    ensures var w := list[|list| - 1];
            PackedWell(list, batch, micro, budget,
                       if |before| >= micro || w.Cost() + Charged(before) > budget then before else before + [w])
  {
    hide PackedWell;
    var w := list[|list| - 1];
    if |before| >= micro || w.Cost() + Charged(before) > budget {
      LastLeftOut(list, batch, micro, budget, before);
    } else {
      LastAdded(list, batch, micro, budget, before);
    }
  }

  lemma LastLeftOut(list: seq<Work>, batch: seq<Work>, micro: nat, budget: int, before: seq<Work>)
    requires list != [] && PackedWell(list[..|list| - 1], batch, micro, budget, before)
    requires |before| >= micro || list[|list| - 1].Cost() + Charged(before) > budget
    ensures PackedWell(list, batch, micro, budget, before)
  {
    hide Before, PassedOver, Charged, InListOrder;
    InTheList(list[..|list| - 1], |batch|, before, micro, budget);
    OneMoreInOrder(list, before[|batch|..], list[|list| - 1]);
    forall i | |batch| <= i < |before| ensures FittedAt(list, before, i, micro, budget) {
      assert FittedAt(list[..|list| - 1], before, i, micro, budget);
    }
    forall v | v in list && v !in before ensures PassedOver(list, |batch|, before, v, micro, budget) {
      if v in list[..|list| - 1] {
        StillPassedOver(list, |batch|, before, before, v, micro, budget);
      } else {
        LastPassedOver(list, |batch|, before, micro, budget);
      }
    }
  }

  lemma LastAdded(list: seq<Work>, batch: seq<Work>, micro: nat, budget: int, before: seq<Work>)
    requires list != [] && PackedWell(list[..|list| - 1], batch, micro, budget, before)
    requires |before| < micro && list[|list| - 1].Cost() + Charged(before) <= budget
    ensures PackedWell(list, batch, micro, budget, before + [list[|list| - 1]])
  {
    hide Before, PassedOver, Charged, InListOrder, Fitted;
    var w := list[|list| - 1];
    var packed := before + [w];
    InTheList(list[..|list| - 1], |batch|, before, micro, budget);
    OneMoreInOrder(list, before[|batch|..], w);
    assert packed[|batch|..] == before[|batch|..] + [w];
    OneMoreFitted(list, |batch|, before, packed, micro, budget);
    forall v | v in list && v !in packed ensures PassedOver(list, |batch|, packed, v, micro, budget) {
      assert v in list[..|list| - 1] && v !in before;
      StillPassedOver(list, |batch|, before, packed, v, micro, budget);
    }
    assert batch <= packed;
  }

  lemma InTheList(list: seq<Work>, from: nat, packed: seq<Work>, micro: nat, budget: int)
    requires Fitted(list, from, packed, micro, budget)
    ensures forall i :: from <= i < |packed| ==> packed[i] in list
  {
    forall i | from <= i < |packed| ensures packed[i] in list {
      assert FittedAt(list, packed, i, micro, budget);
    }
  }

  lemma OneMoreFitted(list: seq<Work>, from: nat, before: seq<Work>, packed: seq<Work>, micro: nat, budget: int)
    requires list != [] && Fitted(list[..|list| - 1], from, before, micro, budget)
    requires |before| < micro && list[|list| - 1].Cost() + Charged(before) <= budget
    requires packed == before + [list[|list| - 1]]
    ensures Fitted(list, from, packed, micro, budget)
  {
    hide Charged;
    OneMore(before, list[|list| - 1]);
    forall i | from <= i < |packed| ensures FittedAt(list, packed, i, micro, budget) {
      assert i < |before| ==> FittedAt(list[..|list| - 1], before, i, micro, budget);
      assert packed[..i + 1] == if i < |before| then before[..i + 1] else packed;
      assert i < |before| ==> packed[i] in list[..|list| - 1];
    }
  }

  lemma PackedStep(list: seq<Work>, batch: seq<Work>, micro: nat, budget: int)
    requires list != []
    ensures var w, before := list[|list| - 1], Packed(list[..|list| - 1], batch, micro, budget);
            Packed(list, batch, micro, budget) ==
              if |before| >= micro || w.Cost() + Charged(before) > budget then before else before + [w]
  {
  }

  lemma OneMoreInOrder(list: seq<Work>, part: seq<Work>, w: Work)
    requires list != [] && w == list[|list| - 1] && InListOrder(list[..|list| - 1], part)
    requires forall i :: 0 <= i < |part| ==> part[i] in list[..|list| - 1]
    ensures InListOrder(list, part) && InListOrder(list, part + [w])
  {
    hide Before;
    forall x, y ensures Before(list[..|list| - 1], x, y) ==> Before(list, x, y) {
      BeforeLast(list, x, y);
    }
    forall i | 0 <= i < |part| ensures Before(list, part[i], w) {
      BeforeLast(list, part[i], w);
    }
  }

  lemma StillPassedOver(list: seq<Work>, from: nat, before: seq<Work>, packed: seq<Work>, v: Work, micro: nat, budget: int)
    requires list != [] && v in list[..|list| - 1] && PassedOver(list[..|list| - 1], from, before, v, micro, budget)
    requires packed == before || packed == before + [list[|list| - 1]]
    ensures PassedOver(list, from, packed, v, micro, budget)
  {
    hide Before;
    var b :| from <= b <= |before| && DidNotFit(list[..|list| - 1], from, before, v, micro, budget, b);
    forall x, y ensures Before(list[..|list| - 1], x, y) ==> Before(list, x, y) {
      BeforeLast(list, x, y);
    }
    BeforeLast(list, v, v);
    assert packed[..b] == before[..b];
    assert DidNotFit(list, from, packed, v, micro, budget, b);
  }

  lemma LastPassedOver(list: seq<Work>, from: nat, before: seq<Work>, micro: nat, budget: int)
    requires list != [] && from <= |before| && forall i :: from <= i < |before| ==> before[i] in list[..|list| - 1]
    requires |before| >= micro || list[|list| - 1].Cost() + Charged(before) > budget
    ensures PassedOver(list, from, before, list[|list| - 1], micro, budget)
  {
    hide Before;
    forall i | from <= i < |before| ensures Before(list, before[i], list[|list| - 1]) {
      BeforeLast(list, before[i], before[i]);
    }
    assert before[..|before|] == before;
    assert DidNotFit(list, from, before, list[|list| - 1], micro, budget, |before|);
  }

  /** Prefills come before decodes, and among themselves in running order. */
  ghost predicate Ahead(running: seq<Work>, x: Work, y: Work)
    reads x`status, y`status
  {
    (x.status == Prefilling && y.status == Decoding) || (x.status == y.status && Before(running, x, y))
  }

  /** After the first `b` of the batch, which are ahead of it as it is ahead of the others, it did not fit. */
  ghost predicate LeftOut(running: seq<Work>, batch: seq<Work>, w: Work, micro: nat, budget: int, b: nat)
    requires b <= |batch|
    reads w`status, (set v | v in batch)`status
  {
    && (forall i :: 0 <= i < b ==> Ahead(running, batch[i], w))
    && (forall i :: b <= i < |batch| ==> Ahead(running, w, batch[i]))
    && (b >= micro || w.Cost() + Charged(batch[..b]) > budget)
  }

  /** The batch takes, in that order, every ready request that fits after those taken before it. */
  ghost predicate Greedy(running: seq<Work>, micro: nat, budget: int, batch: seq<Work>)
    reads (set w | w in running)`status, (set w | w in running)`ready, (set w | w in batch)`status, (set w | w in batch)`ready
  {
    && (forall i, j :: 0 <= i < j < |batch| ==> Ahead(running, batch[i], batch[j]))
    && Fitted(running, 0, batch, micro, budget) && (forall i :: 0 <= i < |batch| ==> batch[i].Waiting())
    && (forall w :: w in running && w.Waiting() && w !in batch ==>
          exists b :: 0 <= b <= |batch| && LeftOut(running, batch, w, micro, budget, b))
  }

  lemma PartInOrder(list: seq<Work>, part: seq<Work>, x: Work, y: Work)
    requires InListOrder(list, part) && Before(part, x, y)
    ensures Before(list, x, y)
  {
  }

  lemma PackedAhead(running: seq<Work>, part: seq<Work>, added: seq<Work>, status: Status, i: nat, j: nat)
    requires InListOrder(running, part) && InListOrder(part, added) && i < j < |added|
    requires added[i].status == status && added[j].status == status
    ensures Ahead(running, added[i], added[j])
  {
    hide Before;
    PartInOrder(running, part, added[i], added[j]);
  }

  /** Whatever is passed over within its kind is left out of the whole batch. */
  lemma PassedIsLeftOut(running: seq<Work>, part: seq<Work>, from: nat, packed: seq<Work>, batch: seq<Work>, w: Work,
                        micro: nat, budget: int)
    requires InListOrder(running, part) && from <= |packed| && packed <= batch && PassedOver(part, from, packed, w, micro, budget)
    requires forall i :: from <= i < |packed| ==> packed[i].status == w.status
    requires forall i :: 0 <= i < from ==> batch[i].status == Prefilling && w.status == Decoding
    requires forall i :: |packed| <= i < |batch| ==> batch[i].status == Decoding && w.status == Prefilling
    ensures exists b :: 0 <= b <= |batch| && LeftOut(running, batch, w, micro, budget, b)
  {
    hide Before;
    var b :| from <= b <= |packed| && DidNotFit(part, from, packed, w, micro, budget, b);
    assert packed[..b] == batch[..b];
    forall i | from <= i < b ensures Before(running, packed[i], w) {
      PartInOrder(running, part, packed[i], w);
    }
    forall i | b <= i < |packed| ensures Before(running, w, packed[i]) {
      PartInOrder(running, part, w, packed[i]);
    }
    assert LeftOut(running, batch, w, micro, budget, b);
  }

  /** The batch of the scheduler is that one. */
  lemma BatchIsGreedy(running: seq<Work>, batch: seq<Work>, micro: nat, budget: int)
    requires PrefillsThenDecodes(running, micro, budget, batch) && DistinctIds(running)
    ensures Greedy(running, micro, budget, batch)
  {
    hide Packed, ReadyIn, DistinctIds, InListOrder, PassedOver, LeftOut, PackedWell, Fitted, Ahead;
    var prefills, decodes := ReadyIn(running, Prefilling), ReadyIn(running, Decoding);
    var first := Packed(prefills, [], micro, budget);
    ReadyInKeeps(running, Prefilling);
    ReadyInKeeps(running, Decoding);
    ReadyInOrder(running, Prefilling);
    ReadyInOrder(running, Decoding);
    PackedInOrder(prefills, [], micro, budget);
    PackedInOrder(decodes, first, micro, budget);
    ChosenInTurn(running, prefills, decodes, first, batch, micro, budget);
    ChosenAhead(running, prefills, decodes, first, batch, micro, budget);
    forall w | w in running && w.Waiting() && w !in batch
      ensures exists b :: 0 <= b <= |batch| && LeftOut(running, batch, w, micro, budget, b)
    {
      NotChosen(running, prefills, decodes, first, batch, w, micro, budget);
    }
  }

  /** The ready prefills and decodes of the running requests, and the batch packed with them. */
  ghost predicate Chosen(running: seq<Work>, prefills: seq<Work>, decodes: seq<Work>, first: seq<Work>, batch: seq<Work>,
                         micro: nat, budget: int)
    reads (set w | w in prefills)`status, (set w | w in prefills)`ready, (set w | w in first)`status
    reads (set w | w in decodes)`status, (set w | w in decodes)`ready, (set w | w in batch)`status
  {
    && InListOrder(running, prefills) && InListOrder(running, decodes)
    && (forall w :: w in prefills ==> w in running && w.ready && w.status == Prefilling)
    && (forall w :: w in decodes ==> w in running && w.ready && w.status == Decoding)
    && PackedWell(prefills, [], micro, budget, first) && PackedWell(decodes, first, micro, budget, batch)
  }

  lemma ChosenInTurn(running: seq<Work>, prefills: seq<Work>, decodes: seq<Work>, first: seq<Work>, batch: seq<Work>,
                     micro: nat, budget: int)
    requires Chosen(running, prefills, decodes, first, batch, micro, budget)
    ensures Fitted(running, 0, batch, micro, budget) && forall i :: 0 <= i < |batch| ==> batch[i].Waiting()
    ensures first <= batch && (forall i :: 0 <= i < |first| ==> batch[i] in prefills)
    ensures forall i :: |first| <= i < |batch| ==> batch[i] in decodes
  {
    hide PassedOver, InListOrder, Charged;
    InTheList(prefills, 0, first, micro, budget);
    InTheList(decodes, |first|, batch, micro, budget);
    forall i | 0 <= i < |batch|
      ensures FittedAt(running, batch, i, micro, budget) && batch[i].Waiting()
      ensures batch[i] in if i < |first| then prefills else decodes
    {
      if i < |first| {
        assert FittedAt(prefills, first, i, micro, budget);
        assert batch[..i + 1] == first[..i + 1] && first[i] in prefills;
      } else {
        assert FittedAt(decodes, batch, i, micro, budget);
      }
    }
  }

  lemma ChosenAhead(running: seq<Work>, prefills: seq<Work>, decodes: seq<Work>, first: seq<Work>, batch: seq<Work>,
                    micro: nat, budget: int)
    requires Chosen(running, prefills, decodes, first, batch, micro, budget)
    ensures forall i, j :: 0 <= i < j < |batch| ==> Ahead(running, batch[i], batch[j])
  {
    ChosenInTurn(running, prefills, decodes, first, batch, micro, budget);
    hide PassedOver, InListOrder, Fitted, Before;
    assert first[0..] == first;
    assert forall i :: 0 <= i < |first| ==> first[i] == batch[i];
    forall i, j | 0 <= i < j < |batch| ensures Ahead(running, batch[i], batch[j]) {
      if j < |first| {
        PackedAhead(running, prefills, first, Prefilling, i, j);
      } else if |first| <= i {
        PackedAhead(running, decodes, batch[|first|..], Decoding, i - |first|, j - |first|);
      }
    }
  }

  lemma NotChosen(running: seq<Work>, prefills: seq<Work>, decodes: seq<Work>, first: seq<Work>, batch: seq<Work>, w: Work,
                  micro: nat, budget: int)
    requires Chosen(running, prefills, decodes, first, batch, micro, budget) && w !in batch
    requires (w.status == Prefilling && w in prefills) || (w.status == Decoding && w in decodes)
    ensures exists b :: 0 <= b <= |batch| && LeftOut(running, batch, w, micro, budget, b)
  {
    ChosenInTurn(running, prefills, decodes, first, batch, micro, budget);
    hide PassedOver, InListOrder, Fitted, LeftOut;
    assert forall i :: 0 <= i < |first| ==> first[i] == batch[i] && first[i] in batch;
    if w.status == Prefilling {
      PassedIsLeftOut(running, prefills, 0, first, batch, w, micro, budget);
    } else {
      PassedIsLeftOut(running, decodes, |first|, batch, batch, w, micro, budget);
    }
  }

  lemma {:induction false} ChargedGrows(batch: seq<Work>, i: nat)
    requires i <= |batch|
    ensures Charged(batch[..i]) <= Charged(batch)
  {
    if i == |batch| {
      assert batch[..i] == batch;
    } else {
      assert batch[..|batch| - 1][..i] == batch[..i];
      ChargedGrows(batch[..|batch| - 1], i);
    }
  }

  lemma NotBoth(running: seq<Work>, x: Work, y: Work)
    requires DistinctIds(running) && Ahead(running, x, y)
    ensures !Ahead(running, y, x)
  {
  }

  /** Nobody is overtaken by a request that is behind it and costs as much or more. */
  lemma NobodyIsOvertaken(running: seq<Work>, batch: seq<Work>, micro: nat, budget: int, x: Work, y: Work)
    requires DistinctIds(running) && Greedy(running, micro, budget, batch)
    requires x in running && x.Waiting() && Ahead(running, x, y) && x.Cost() <= y.Cost() && y in batch
    ensures x in batch
  {
    hide Ahead, DistinctIds, Charged;
    if x !in batch {
      var b :| 0 <= b <= |batch| && LeftOut(running, batch, x, micro, budget, b);
      var i :| 0 <= i < |batch| && batch[i] == y;
      assert FittedAt(running, batch, i, micro, budget);
      NotBoth(running, x, y);
      ChargedAfter(batch, b, i);
    }
  }

  /** There is one such batch: it is determined by the running requests, their order and the limits. */
  lemma {:induction false} GreedyIsUnique(running: seq<Work>, micro: nat, budget: int, a: seq<Work>, b: seq<Work>, i: nat)
    requires DistinctIds(running) && Greedy(running, micro, budget, a) && Greedy(running, micro, budget, b)
    requires i <= |a| && i <= |b| && a[..i] == b[..i]
    ensures a == b
    decreases |a| - i
  {
    hide DistinctIds, Greedy, Ahead;
    if i < |a| {
      NoneAheadOfNext(running, micro, budget, a, b, i);
      NoneAheadOfNext(running, micro, budget, b, a, i);
      OneIsAhead(running, micro, budget, a, b, i);
      assert a[..i + 1] == a[..i] + [a[i]] && b[..i + 1] == b[..i] + [b[i]];
      GreedyIsUnique(running, micro, budget, a, b, i + 1);
    } else {
      if i < |b| {
        NoneAheadOfNext(running, micro, budget, b, a, i);
      }
      assert a[..i] == a && b[..i] == b;
    }
  }

  lemma OneIsAhead(running: seq<Work>, micro: nat, budget: int, a: seq<Work>, b: seq<Work>, i: nat)
    requires Greedy(running, micro, budget, a) && Greedy(running, micro, budget, b) && i < |a| && i < |b|
    ensures a[i] == b[i] || Ahead(running, a[i], b[i]) || Ahead(running, b[i], a[i])
  {
    assert FittedAt(running, a, i, micro, budget) && FittedAt(running, b, i, micro, budget);
    var p :| 0 <= p < |running| && running[p] == a[i];
    var q :| 0 <= q < |running| && running[q] == b[i];
  }

  /** After the same beginning the one batch does not end before the other, nor go on with a later request. */
  lemma NoneAheadOfNext(running: seq<Work>, micro: nat, budget: int, a: seq<Work>, b: seq<Work>, i: nat)
    requires DistinctIds(running) && Greedy(running, micro, budget, a) && Greedy(running, micro, budget, b)
    requires i < |a| && i <= |b| && a[..i] == b[..i]
    ensures i < |b| && !Ahead(running, a[i], b[i])
  {
    hide DistinctIds, Ahead, Charged;
    var x := a[i];
    OneMore(a[..i], x);
    assert FittedAt(running, a, i, micro, budget) && a[..i + 1] == a[..i] + [x];
    assert forall j :: 0 <= j < i ==> b[j] == a[..i][j] && Ahead(running, b[j], x);
    if i == |b| || Ahead(running, x, b[i]) {
      NotThere(running, micro, budget, b, x, i);
      var c :| 0 <= c <= |b| && LeftOut(running, b, x, micro, budget, c);
      LeftOutThere(running, b, x, micro, budget, c, i);
      assert false;
    }
  }

  lemma LeftOutThere(running: seq<Work>, b: seq<Work>, x: Work, micro: nat, budget: int, c: nat, i: nat)
    requires DistinctIds(running) && c <= |b| && LeftOut(running, b, x, micro, budget, c) && i <= |b|
    requires forall j :: 0 <= j < i ==> Ahead(running, b[j], x)
    requires i < |b| ==> Ahead(running, x, b[i])
    ensures c == i && (i >= micro || x.Cost() + Charged(b[..i]) > budget)
  {
    hide DistinctIds, Ahead, Charged;
    if c < i {
      NotBoth(running, b[c], x);
    } else if c > i {
      NotBoth(running, x, b[i]);
    }
  }

  lemma AheadOneWay(running: seq<Work>)
    requires DistinctIds(running)
    ensures forall x, y :: Ahead(running, x, y) ==> !Ahead(running, y, x)
  {
    forall x, y | Ahead(running, x, y) ensures !Ahead(running, y, x) {
      NotBoth(running, x, y);
    }
  }

  lemma NotThere(running: seq<Work>, micro: nat, budget: int, b: seq<Work>, x: Work, i: nat)
    requires DistinctIds(running) && Greedy(running, micro, budget, b) && i <= |b|
    requires forall j :: 0 <= j < i ==> Ahead(running, b[j], x)
    requires i < |b| ==> Ahead(running, x, b[i])
    ensures x !in b
  {
    hide DistinctIds, Ahead, Charged;
    AheadOneWay(running);
    forall j | 0 <= j < |b| ensures b[j] != x {
      if j > i {
        assert Ahead(running, b[i], b[j]);
      }
    }
  }

  lemma ChargedAfter(batch: seq<Work>, b: nat, i: nat)
    requires b <= |batch| && i < |batch|
    ensures b <= i ==> Charged(batch[..b]) + batch[i].Cost() <= Charged(batch[..i + 1])
  {
    assert batch[..i + 1][..i] == batch[..i];
    if b <= i {
      assert batch[..i][..b] == batch[..b];
      ChargedGrows(batch[..i], b);
    }
  }

  /** In running order, the first ready prefill not passed over for its length is served; one that is over the
      budget by itself never is. */
  ghost predicate PrefillsServed(running: seq<Work>, budget: int, batch: seq<Work>)
    reads (set w | w in running)`status, (set w | w in running)`ready
  {
    && (forall w :: w in running && w.ready && w.status == Prefilling && w.promptLen > budget ==> w !in batch)
    && forall p :: 0 <= p < |running| && running[p].ready && running[p].status == Prefilling && NoneFitsBefore(running, p, budget) ==>
         (running[p] in batch <==> running[p].promptLen <= budget)
  }

  /** Every ready prefill before the position is over the budget by itself. */
  ghost predicate NoneFitsBefore(running: seq<Work>, p: nat, budget: int)
    requires p <= |running|
    reads (set w | w in running)`status, (set w | w in running)`ready
  {
    forall q :: 0 <= q < p && running[q].ready && running[q].status == Prefilling ==> running[q].promptLen > budget
  }

  lemma PrefillsAreServed(running: seq<Work>, batch: seq<Work>, micro: nat, budget: int)
    requires Greedy(running, micro, budget, batch) && micro >= 1 && DistinctIds(running)
    ensures PrefillsServed(running, budget, batch)
  {
    hide DistinctIds;
    InBatchFits(running, batch, micro, budget);
    forall p | 0 <= p < |running| && running[p].ready && running[p].status == Prefilling && NoneFitsBefore(running, p, budget)
      ensures running[p] in batch <==> running[p].promptLen <= budget
    {
      var w := running[p];
      if w !in batch {
        var b :| 0 <= b <= |batch| && LeftOut(running, batch, w, micro, budget, b);
        if b > 0 {
          assert FittedAt(running, batch, 0, micro, budget) && batch[0] in batch;
          BeforePosition(running, batch[0], p);
        }
        assert batch[..0] == [];
      }
    }
  }

  /** Whoever is in the batch fits by itself. */
  lemma InBatchFits(running: seq<Work>, batch: seq<Work>, micro: nat, budget: int)
    requires Greedy(running, micro, budget, batch)
    ensures forall w :: w in batch ==> w.Cost() <= budget
  {
    forall w | w in batch ensures w.Cost() <= budget {
      var i :| 0 <= i < |batch| && batch[i] == w;
      assert FittedAt(running, batch, i, micro, budget) && batch[..i + 1][..i] == batch[..i];
    }
  }

  lemma BeforePosition(running: seq<Work>, x: Work, p: nat)
    requires DistinctIds(running) && p < |running| && Before(running, x, running[p])
    ensures exists q :: 0 <= q < p && running[q] == x
  {
  }

  /** Every ready request is over the budget by itself. */
  ghost predicate NoneFitsAlone(running: seq<Work>, budget: int)
    reads (set w | w in running)`status, (set w | w in running)`ready
  {
    forall w :: w in running && w.Waiting() ==> w.Cost() > budget
  }

  /** A batch is empty exactly when no ready request fits by itself. */
  lemma EmptyMeansNoneFits(running: seq<Work>, batch: seq<Work>, micro: nat, budget: int)
    requires Greedy(running, micro, budget, batch) && micro >= 1
    ensures batch == [] <==> NoneFitsAlone(running, budget)
  {
    InBatchFits(running, batch, micro, budget);
    if batch == [] {
      forall w | w in running && w.Waiting() ensures w.Cost() > budget {
        var b :| 0 <= b <= |batch| && LeftOut(running, batch, w, micro, budget, b);
        assert batch[..0] == [];
      }
    } else {
      assert FittedAt(running, batch, 0, micro, budget) && batch[0] in batch;
    }
  }

  /** Admitted from the head of the queue: the kept positions go up. */
  ghost predicate Taken(queue: seq<Work>, k: nat, admitted: seq<Work>, from: seq<nat>)
    requires k <= |queue|
  {
    && |from| == |admitted|
    && (forall i :: 0 <= i < |from| ==> from[i] < k && admitted[i] == queue[from[i]])
    && (forall i, j :: 0 <= i < j < |from| ==> from[i] < from[j])
  }

  /** The running set after the first `k` of the queue were looked at: the old ones, then the admitted, in
      queue order.  Whoever was looked at is running, or was refused. */
  ghost predicate Admitted(queue: seq<Work>, k: nat, started: seq<Work>, running: seq<Work>, from: seq<nat>, refused: set<nat>) {
    && k <= |queue| && started <= running && Taken(queue, k, running[|started|..], from)
    && (forall i :: 0 <= i < k ==> First(running, queue[i].id) < |running| || i in refused)
  }

  lemma AdmittedNone(queue: seq<Work>, started: seq<Work>)
    ensures Admitted(queue, 0, started, started, [], {})
  {
    assert started[|started|..] == [];
  }

  lemma AdmittedWithout(queue: seq<Work>, k: nat, started: seq<Work>, running: seq<Work>, from: seq<nat>, refused: set<nat>)
    requires k < |queue| && Admitted(queue, k, started, running, from, refused)
    ensures First(running, queue[k].id) < |running| ==> Admitted(queue, k + 1, started, running, from, refused)
    ensures Admitted(queue, k + 1, started, running, from, refused + {k})
  {
  }

  lemma AdmittedOneMore(queue: seq<Work>, k: nat, started: seq<Work>, running: seq<Work>, from: seq<nat>, refused: set<nat>)
    requires k < |queue| && Admitted(queue, k, started, running, from, refused)
    requires First(running, queue[k].id) == |running|
    ensures Admitted(queue, k + 1, started, running + [queue[k]], from + [k], refused)
    ensures DistinctIds(running) ==> DistinctIds(running + [queue[k]])
  {
    hide First;
    assert (running + [queue[k]])[|started|..] == running[|started|..] + [queue[k]];
    forall i | 0 <= i < k + 1 && (i < k ==> First(running, queue[i].id) < |running|)
      ensures First(running + [queue[k]], queue[i].id) < |running| + 1
    {
      FirstInLonger(running, queue[k], queue[i].id);
    }
    assert forall i :: 0 <= i < |running| ==> running[i] in running;
  }

  class Scheduler {
    const maxBatchSize: nat
    const maxTokens: int
    const microBatchSize: nat
    const cache: Option<CacheManager>
    var waiting: seq<Work>
    var running: seq<Work>

    ghost function CacheObjects(): set<object> {
      if cache.Some? then {cache.value, cache.value.allocator, cache.value.slotAllocator} else {}
    }

    /** The cache is in order, nothing in it is lost, and the listed requests hold theirs. */
    ghost predicate Cached(list: seq<Work>)
      reads CacheObjects()
    {
      cache.Some? ==>
        && cache.value.Valid() && cache.value.NothingLost()
        && (cache.value.needsBlocks || cache.value.needsSlots ==>
              forall w :: w in list ==> cache.value.HasRequest(w.id))
    }

    /** Running requests have distinct ids, are no more than allowed, and hold their cache. */
    ghost predicate Valid()
      reads `running, CacheObjects()
    {
      |running| <= maxBatchSize && microBatchSize >= 1 && DistinctIds(running) && Cached(running)
    }

    constructor (maxBatchSize: nat, maxTokens: int, ratio: nat, cache: Option<CacheManager>)
      requires ratio > 0 && (cache.Some? ==> cache.value.Valid() && cache.value.NothingLost())
      ensures Valid() && waiting == [] && running == []
      ensures this.maxBatchSize == maxBatchSize && this.maxTokens == maxTokens && this.cache == cache
      ensures microBatchSize >= 1 && (microBatchSize == 1 || microBatchSize * ratio <= maxBatchSize)
      ensures maxBatchSize < (microBatchSize + 1) * ratio
    {
      this.maxBatchSize, this.maxTokens, this.cache := maxBatchSize, maxTokens, cache;
      microBatchSize := if maxBatchSize / ratio < 1 then 1 else maxBatchSize / ratio;
      waiting, running := [], [];
    }

    /** Position of the running request with the id, or the number of running requests. */
    function IndexOf(id: Rid): (k: nat)
      reads `running
      ensures k <= |running| && (k < |running| ==> running[k].id == id)
      ensures k == |running| ==> forall w :: w in running ==> w.id != id
    {
      First(running, id)
    }

    lemma CachedStays(list: seq<Work>, other: seq<Work>)
      requires Cached(list) && SameIds(list, other)
      ensures Cached(other)
    {
      if cache.Some? && (cache.value.needsBlocks || cache.value.needsSlots) {
        forall i | 0 <= i < |other| ensures cache.value.HasRequest(other[i].id) {
          var k :| 0 <= k < |list| && list[k].id == other[i].id;
        }
      }
    }

    /** A prefill waits for admission; a decode replaces the running request and goes last. */
    method Enqueue(work: Work) returns (r: Result<()>)
      requires Valid()
      modifies `waiting, `running, work`ready
      ensures Valid()
      ensures old(work.status.Finished()) ==> r == Ok(()) && waiting == old(waiting) && running == old(running) && work.ready == old(work.ready)
      ensures work.status == Prefilling ==> r == Ok(()) && waiting == old(waiting) + [work] && running == old(running) && work.ready
      ensures work.status == Decoding ==> waiting == old(waiting) && work.ready
      ensures work.status == Decoding ==> (r.Raise? <==> forall w :: w in old(running) ==> w.id != work.id)
      ensures r.Raise? ==> running == old(running)
      ensures work.status == Decoding && r.Ok? ==>
                exists k :: 0 <= k < |old(running)| && old(running)[k].id == work.id
                            && running == old(running)[..k] + old(running)[k + 1..] + [work]
    {
      hide DistinctIds, SameIds;
      r := Ok(());
      if work.status.Finished() {
        return;
      }
      work.ready := true;
      if work.status == Decoding {
        var k := First(running, work.id);
        FirstIsThere(running, work.id);
        if k == |running| {
          return Raise(UnknownRequest);
        }
        MovedLast(running, k, work);
        CachedStays(running, running[..k] + running[k + 1..] + [work]);
        running := running[..k] + running[k + 1..] + [work];
        return;
      }
      waiting := waiting + [work];
    }

    /** A finished or cancelled request leaves the running set. */
    method Evict(id: Rid) returns (r: Result<()>)
      requires Valid()
      modifies `running
      ensures Valid()
      ensures r.Raise? <==> forall w :: w in old(running) ==> w.id != id
      ensures r.Raise? ==> running == old(running)
      ensures r.Ok? ==>
                exists k :: 0 <= k < |old(running)| && old(running)[k].id == id
                            && running == old(running)[..k] + old(running)[k + 1..]
    {
      var k := IndexOf(id);
      if k == |running| {
        return Raise(UnknownRequest);
      }
      running := running[..k] + running[k + 1..];
      r := Ok(());
    }

    /** Gives back the cache of a request and takes it out of the running set, if it is there. */
    method ReleaseAndEvict(id: Rid)
      requires Valid()
      modifies `running, CacheObjects()
      ensures Valid() && running == Without(old(running), id) && forall w :: w in running ==> w.id != id
      ensures running == old(running) || exists k :: 0 <= k < |old(running)| && old(running)[k].id == id
                                                      && running == old(running)[..k] + old(running)[k + 1..]
      ensures cache.Some? ==> !cache.value.HasRequest(id)
    {
      hide DistinctIds, First;
      WithoutOthers(running, id);
      if cache.Some? {
        cache.value.FreeRequest(id);
      }
      var k := IndexOf(id);
      if k < |running| {
        running := running[..k] + running[k + 1..];
      }
    }

    /** The cache has no room for that many tokens. */
    ghost predicate NoRoom(tokens: nat)
      reads CacheObjects()
    {
      cache.Some? && cache.value.blockSize > 0 && !cache.value.CanAllocate(tokens)
    }

    /** Cache for a request, unless it already has some: false when there is not enough. */
    method Reserve(work: Work) returns (ok: bool)
      requires Cached(running)
      modifies CacheObjects()
      ensures Cached(running) && (ok ==> Cached(running + [work])) && (!ok ==> NoRoom(work.totalLength))
      ensures forall t: nat :: old(NoRoom(t)) ==> NoRoom(t)
    {
      ok := true;
      if cache.Some? && !cache.value.HasRequest(work.id) {
        ok := cache.value.AllocateRequest(work.id, work.totalLength);
      }
    }

    /** Admits from the head of the queue while there is room.  A request that is already running, or
        whose cache does not fit, is dropped. */
    method AdmitRequests() returns (ghost k: nat, ghost from: seq<nat>, ghost refused: set<nat>)
      requires Valid()
      modifies `waiting, `running, CacheObjects()
      ensures Valid() && k <= |old(waiting)| && waiting == old(waiting)[k..]
      ensures Admitted(old(waiting), k, old(running), running, from, refused)
      ensures forall i :: i in refused ==> i < k && NoRoom(old(waiting)[i].totalLength)
      ensures waiting == [] || |running| == maxBatchSize
    {
      hide Scheduler.Cached, Scheduler.NoRoom, Admitted, First, DistinctIds;
      k, from, refused := 0, [], {};
      ghost var queue, started := waiting, running;
      AdmittedNone(queue, started);
      assert queue[0..] == queue;
      while |waiting| > 0 && |running| < maxBatchSize
        invariant Valid() && k <= |queue| && waiting == queue[k..]
        invariant Admitted(queue, k, started, running, from, refused)
        invariant forall i :: i in refused ==> i < k && NoRoom(queue[i].totalLength)
        decreases |waiting|
      {
        var work := waiting[0];
        waiting := waiting[1..];
        k := k + 1;
        if IndexOf(work.id) < |running| {
          AdmittedWithout(queue, k - 1, started, running, from, refused);
          continue;
        }
        var ok := Reserve(work);
        if !ok {
          AdmittedWithout(queue, k - 1, started, running, from, refused);
          refused := refused + {k - 1};
          continue;
        }
        AdmittedOneMore(queue, k - 1, started, running, from, refused);
        running := running + [work];
        from := from + [k - 1];
      }
    }

    /** The ready prefills and the ready decodes, in running order. */
    method Candidates() returns (prefills: seq<Work>, decodes: seq<Work>)
      ensures AreReady(running, prefills, decodes)
    {
      prefills, decodes := [], [];
      for i := 0 to |running|
        invariant prefills == ReadyIn(running[..i], Prefilling) && decodes == ReadyIn(running[..i], Decoding)
      {
        var w := running[i];
        assert running[..i + 1][..i] == running[..i];
        if w.ready {
          if w.status == Prefilling {
            prefills := prefills + [w];
          } else if w.status == Decoding {
            decodes := decodes + [w];
          }
        }
      }
      assert running[..|running|] == running;
    }

    /** Adds what still fits, in order, until the batch is full. */
    method Fill(list: seq<Work>, batch: seq<Work>, tokens: nat) returns (batch': seq<Work>, tokens': nat)
      requires tokens == Charged(batch)
      ensures IsPacked(list, batch, microBatchSize, maxTokens, batch') && tokens' == Charged(batch')
    {
      hide Charged;
      batch', tokens' := batch, tokens;
      for i := 0 to |list|
        invariant batch' == Packed(list[..i], batch, microBatchSize, maxTokens)
        invariant tokens' == Charged(batch')
      {
        var w := list[i];
        assert list[..i + 1][..i] == list[..i];
        if |batch'| >= microBatchSize {
          FullStaysPacked(list, i, batch, microBatchSize, maxTokens);
          return;
        }
        if w.Cost() + tokens' > maxTokens {
          continue;
        }
        OneMore(batch', w);
        batch', tokens' := batch' + [w], tokens' + w.Cost();
      }
      assert list[..|list|] == list;
    }

    /** Chooses the batch from the running set, prefills first.  No ready request left out would still fit. */
    method Choose() returns (batch: seq<Work>)
      requires DistinctIds(running)
      ensures DistinctIds(batch) && |batch| <= microBatchSize && Charged(batch) <= Max(0, maxTokens)
      ensures PrefillsThenDecodes(running, microBatchSize, maxTokens, batch)
      ensures forall w :: w in batch ==> w in running && w.Waiting()
      ensures forall w :: w in running && w.Waiting() && w !in batch ==>
                |batch| == microBatchSize || w.Cost() + Charged(batch) > maxTokens
      ensures Greedy(running, microBatchSize, maxTokens, batch)
      ensures microBatchSize >= 1 ==>
                PrefillsServed(running, maxTokens, batch) && (batch == [] <==> NoneFitsAlone(running, maxTokens))
    {
      hide DistinctIds, Charged, Packed, ReadyIn, Greedy;
      var prefills, decodes := Candidates();
      EmptyBatch();
      var first, tokens := Fill(prefills, [], 0);
      batch, tokens := Fill(decodes, first, tokens);
      PrefillsFirst(running, prefills, decodes, first, batch, microBatchSize, maxTokens);
      BatchIsGreedy(running, batch, microBatchSize, maxTokens);
      if microBatchSize >= 1 {
        PrefillsAreServed(running, batch, microBatchSize, maxTokens);
        EmptyMeansNoneFits(running, batch, microBatchSize, maxTokens);
      }
    }

    /** The chosen requests wait for their next step. */
    method ClearReady(batch: seq<Work>)
      modifies (set w | w in batch)`ready
      ensures forall w :: w in batch ==> !w.ready
    {
      for i := 0 to |batch|
        invariant forall w :: w in batch[..i] ==> !w.ready
      {
        assert batch[..i + 1] == batch[..i] + [batch[i]];
        batch[i].ready := false;
      }
      assert batch[..|batch|] == batch;
    }

    /** Chooses the next batch; its requests wait for their next step. */
    method TakeBatch() returns (batch: seq<Work>)
      requires DistinctIds(running) && microBatchSize >= 1
      modifies (set w | w in running)`ready
      ensures forall i :: 0 <= i < |batch| ==> batch[i] in running
      ensures old(PrefillsThenDecodes(running, microBatchSize, maxTokens, batch) && Greedy(running, microBatchSize, maxTokens, batch))
      ensures old(PrefillsServed(running, maxTokens, batch)) && (batch == [] <==> old(NoneFitsAlone(running, maxTokens)))
      ensures DistinctIds(batch) && |batch| <= microBatchSize && Charged(batch) <= Max(0, maxTokens)
      ensures forall w :: w in batch ==> w in running && !w.ready && old(w.Waiting())
      ensures forall w :: w in running && old(w.Waiting()) && w !in batch ==>
                w.ready && (|batch| == microBatchSize || w.Cost() + Charged(batch) > maxTokens)
    {
      hide DistinctIds, Charged, PrefillsThenDecodes, PrefillsServed, NoneFitsAlone, Greedy;
      batch := [];
      EmptyBatch();
      NoneRunning(microBatchSize, maxTokens);
      if |running| == 0 {
        return;
      }
      batch := Choose();
      ClearReady(batch);
    }

    /** Admits, then chooses the next batch. */
    method FormBatch() returns (batch: seq<Work>)
      requires Valid()
      modifies `waiting, `running, CacheObjects(), (set w | w in running)`ready, (set w | w in waiting)`ready
      ensures Valid() && old(running) <= running && (waiting == [] || |running| == maxBatchSize)
      ensures AdmittedFrom(old(waiting), waiting, old(running), running)
      ensures forall i :: 0 <= i < |running| ==> running[i] in old(running) + old(waiting)
      ensures forall i :: 0 <= i < |batch| ==> batch[i] in old(running) + old(waiting)
      ensures var now := running; old(PrefillsThenDecodes(now, microBatchSize, maxTokens, batch))
      ensures var now := running; old(Greedy(now, microBatchSize, maxTokens, batch))
      ensures var now := running; old(PrefillsServed(now, maxTokens, batch))
      ensures var now := running; batch == [] <==> old(NoneFitsAlone(now, maxTokens))
      ensures DistinctIds(batch) && |batch| <= microBatchSize && Charged(batch) <= Max(0, maxTokens)
      ensures forall w :: w in batch ==> w in running && !w.ready && w in old(running) + old(waiting) && old(w.Waiting())
      ensures forall w :: w in old(running) + old(waiting) && w in running && old(w.Waiting()) && w !in batch ==>
                w.ready && (|batch| == microBatchSize || w.Cost() + Charged(batch) > maxTokens)
    {
      hide DistinctIds, First, Admitted, AdmittedFrom, Scheduler.Cached, Charged, PrefillsThenDecodes, PrefillsServed, NoneFitsAlone, Greedy;
      ghost var queue, started := waiting, running;
      ghost var k, from, refused := AdmitRequests();
      AdmittedWereKnown(queue, k, started, running, from, refused);
      batch := TakeBatch();
      assert forall w :: w in batch ==> w in started + queue;
    }
  }

  lemma Apart(list: seq<Work>, i: nat)
    requires DistinctIds(list) && i < |list|
    ensures DistinctIds(list[..i]) && forall v :: v in list[..i] ==> v.id != list[i].id
  {
  }

  lemma EmptyBatch()
    ensures DistinctIds([]) && Charged([]) == 0
  {
  }

  /** The ready requests of a status are exactly those, and each is there once. */
  lemma {:induction false} ReadyInKeeps(list: seq<Work>, status: Status)
    ensures forall w :: w in ReadyIn(list, status) ==> w in list && w.ready && w.status == status
    ensures forall w :: w in list && w.ready && w.status == status ==> w in ReadyIn(list, status)
    ensures DistinctIds(list) ==> DistinctIds(ReadyIn(list, status))
    decreases |list|
  {
    hide DistinctIds;
    if list != [] {
      var rest, w := list[..|list| - 1], list[|list| - 1];
      var ready := ReadyIn(rest, status);
      assert list == rest + [w];
      ReadyInKeeps(rest, status);
      OneMore(ready, w);
      if DistinctIds(list) {
        Apart(list, |list| - 1);
      }
      if w.ready && w.status == status {
        assert ReadyIn(list, status) == ready + [w];
      } else {
        assert ReadyIn(list, status) == ready;
      }
    }
  }

  /** A batch filled up with the ready prefills, then with the ready decodes, is within both limits, and no
      ready request left out would still fit. */
  lemma PrefillsFirst(running: seq<Work>, prefills: seq<Work>, decodes: seq<Work>, first: seq<Work>, batch: seq<Work>,
                      micro: nat, budget: int)
    requires DistinctIds(running)
    requires AreReady(running, prefills, decodes)
    requires IsPacked(prefills, [], micro, budget, first) && IsPacked(decodes, first, micro, budget, batch)
    ensures PrefillsThenDecodes(running, micro, budget, batch)
    ensures DistinctIds(batch) && |batch| <= micro && Charged(batch) <= Max(0, budget)
    ensures forall w :: w in batch ==> w in running && w.Waiting()
    ensures forall w :: w in running && w.Waiting() && w !in batch ==>
              |batch| == micro || w.Cost() + Charged(batch) > budget
  {
    hide Charged, Packed, ReadyIn;
    EmptyBatch();
    ReadyInKeeps(running, Prefilling);
    ReadyInKeeps(running, Decoding);
    PackedIsMaximal(prefills, [], micro, budget);
    PackedIsMaximal(decodes, first, micro, budget);
    NothingFits(prefills, first, batch, micro, budget);
  }

  lemma NoneRunning(micro: nat, budget: int)
    ensures PrefillsThenDecodes([], micro, budget, []) && Greedy([], micro, budget, [])
    ensures PrefillsServed([], budget, []) && NoneFitsAlone([], budget)
  {
  }

  /** What does not fit does not fit later either. */
  lemma NothingFits(list: seq<Work>, first: seq<Work>, batch: seq<Work>, micro: nat, budget: int)
    requires first <= batch && Charged(first) <= Charged(batch)
    requires forall w :: w in list ==> w in first || |first| >= micro || w.Cost() + Charged(first) > budget
    ensures forall w :: w in list ==> w in batch || |batch| >= micro || w.Cost() + Charged(batch) > budget
  {
    hide Charged;
    assert forall w :: w in first ==> w in batch by {
      assert forall i :: 0 <= i < |first| ==> batch[i] == first[i];
    }
  }

  /** Some of the head of the queue was admitted, in queue order, behind those that were running. */
  ghost predicate AdmittedFrom(queue: seq<Work>, left: seq<Work>, started: seq<Work>, running: seq<Work>) {
    exists k: nat, from, refused :: k <= |queue| && left == queue[k..] && Admitted(queue, k, started, running, from, refused)
  }

  lemma AdmittedWereKnown(queue: seq<Work>, k: nat, started: seq<Work>, running: seq<Work>, from: seq<nat>, refused: set<nat>)
    requires Admitted(queue, k, started, running, from, refused)
    ensures AdmittedFrom(queue, queue[k..], started, running)
    ensures started <= running && forall w :: w in running ==> w in started + queue
  {
    forall w | w in running ensures w in started + queue {
      var i :| 0 <= i < |running| && running[i] == w;
      if i >= |started| {
        assert running[|started|..][i - |started|] == w;
      }
    }
  }

  /** The list without its first request of that id. */
  function Without(list: seq<Work>, id: Rid): seq<Work> {
    var k := First(list, id);
    if k < |list| then list[..k] + list[k + 1..] else list
  }

  lemma WithoutOthers(list: seq<Work>, id: Rid)
    requires DistinctIds(list)
    ensures DistinctIds(Without(list, id))
    ensures forall w :: w in Without(list, id) <==> w in list && w.id != id
  {
    var k := First(list, id);
    if k < |list| {
      RemovedOne(list, k);
    }
  }

  lemma RemovedOne(list: seq<Work>, k: nat)
    requires DistinctIds(list) && k < |list|
    ensures DistinctIds(list[..k] + list[k + 1..])
    ensures forall w :: w in list[..k] + list[k + 1..] <==> w in list && w.id != list[k].id
  {
    var rest := list[..k] + list[k + 1..];
    forall w | w in list && w.id != list[k].id ensures w in rest {
      var i :| 0 <= i < |list| && list[i] == w;
      assert rest[if i < k then i else i - 1] == w;
    }
    forall w | w in rest ensures w in list && w.id != list[k].id {
      var i :| 0 <= i < |rest| && rest[i] == w;
      assert list[if i < k then i else i + 1] == w;
    }
  }

  /** Every id of the second list is one of the first. */
  ghost predicate SameIds(list: seq<Work>, other: seq<Work>) {
    forall i :: 0 <= i < |other| ==> exists k :: 0 <= k < |list| && list[k].id == other[i].id
  }

  lemma FirstIsThere(list: seq<Work>, id: Rid)
    ensures First(list, id) <= |list| && (First(list, id) < |list| ==> list[First(list, id)].id == id)
    ensures First(list, id) == |list| <==> forall w :: w in list ==> w.id != id
  {
  }

  /** Replacing a request and moving it last. */
  lemma MovedLast(list: seq<Work>, k: nat, work: Work)
    requires DistinctIds(list) && k < |list| && list[k].id == work.id
    ensures DistinctIds(list[..k] + list[k + 1..] + [work]) && SameIds(list, list[..k] + list[k + 1..] + [work])
    ensures |list[..k] + list[k + 1..] + [work]| == |list|
  {
    var moved := list[..k] + list[k + 1..] + [work];
    forall i | 0 <= i < |moved| ensures exists m :: 0 <= m < |list| && list[m].id == moved[i].id {
      var m := if i < k then i else if i < |list| - 1 then i + 1 else k;
      assert list[m].id == moved[i].id;
    }
  }

  /** A new member costs what it costs and keeps the ids distinct. */
  lemma OneMore(batch: seq<Work>, w: Work)
    ensures Charged(batch + [w]) == Charged(batch) + w.Cost()
    ensures DistinctIds(batch) && (forall v :: v in batch ==> v.id != w.id) ==> DistinctIds(batch + [w])
  {
    assert (batch + [w])[..|batch|] == batch;
    assert forall i :: 0 <= i < |batch| ==> batch[i] in batch;
  }

  /** Appending keeps everyone findable. */
  lemma FirstInLonger(list: seq<Work>, work: Work, id: Rid)
    ensures First(list, id) < |list| || work.id == id ==> First(list + [work], id) < |list| + 1
  {
    assert First(list, id) < |list| ==> (list + [work])[First(list, id)].id == id;
    assert (list + [work])[|list|] == work;
    assert forall i :: 0 <= i < |list| + 1 ==> (list + [work])[i] in list + [work];
  }

  // ----- forming a batch -----

  function First(list: seq<Work>, id: Rid): (k: nat)
    ensures k <= |list| && (k < |list| ==> list[k].id == id)
    ensures k == |list| ==> forall w :: w in list ==> w.id != id
  {
    if list == [] then 0 else if list[0].id == id then 0 else
      assert list == [list[0]] + list[1..];
      1 + First(list[1..], id)
  }

  // ----- a prompt over the budget -----

  /** How the first peer's scheduler sees an accepted request. */
  method FromRequest(request: InitialRequest) returns (w: Work)
    ensures fresh(w) && w.id == request.id && w.promptLen == |request.inputs| && w.totalLength == request.TotalLength()
    ensures w.status == request.status && !w.ready
  {
    w := new Work(request.id, |request.inputs|, request.TotalLength(), request.status);
  }

  /** With 1024 tokens a batch, and 2048 a sequence, every prompt of more than 1024 tokens is accepted and
      admitted, and then passed over by every batch. */
  method LongPromptNeverRuns(prompt: seq<Token>, batches: nat) returns (s: Scheduler, w: Work, accepted: Result<InitialRequest>)
    requires |prompt| > 1024
    ensures accepted.Ok? && fresh(s) && s.Valid() && s.maxTokens == 1024
    ensures s.running == [w] && w.ready && w.status == Prefilling && w.promptLen == |accepted.value.inputs| > 1024
  {
    hide DistinctIds, Admitted, PrefillsThenDecodes, NoneFitsAlone, Charged, ReadyIn, KeptPrompt, Greedy;
    KeptIsLong(prompt);
    accepted := HandleRawRequest(Raw("long", prompt, None), 2048);
    w := FromRequest(accepted.value);
    s := new Scheduler(8, 1024, 2, None);
    var queued := s.Enqueue(w);
    assert s.waiting == [w] && s.running == [];
    ghost var k, from, refused := s.AdmitRequests();
    assert forall i :: i !in refused;
    assert refused == {};
    OnlyOneAdmitted(w, k, s.running, from, s.maxBatchSize);
    for i := 0 to batches
      invariant s.Valid() && s.running == [w] && s.waiting == [] && w.ready && w.status == Prefilling
      invariant fresh(s) && fresh(w) && s.cache == None
    {
      var batch := s.FormBatch();
      StillOnlyOne(s.running, w);
    }
  }

  lemma KeptIsLong(prompt: seq<Token>)
    requires |prompt| > 1024
    ensures 1024 < |KeptPrompt(prompt, 2048)| < 2048 && KeptPrompt(prompt, 2048) != []
  {
  }

  lemma OnlyOneAdmitted(w: Work, k: nat, running: seq<Work>, from: seq<nat>, most: nat)
    requires Admitted([w], k, [], running, from, {}) && (k == 1 || |running| == most) && most > 1
    ensures k == 1 && running == [w]
  {
    assert running[0..] == running;
    if from != [] {
      PositionsRise(from, |from| - 1);
    }
    assert k == 1 ==> First(running, [w][0].id) < |running|;
  }

  lemma {:induction false} PositionsRise(from: seq<nat>, i: nat)
    requires i < |from| && forall i, j :: 0 <= i < j < |from| ==> from[i] < from[j]
    ensures from[i] >= i
  {
    if i > 0 {
      PositionsRise(from, i - 1);
    }
  }

  lemma StillOnlyOne(running: seq<Work>, w: Work)
    requires DistinctIds(running) && [w] <= running && forall i :: 0 <= i < |running| ==> running[i] in [w] + []
    ensures running == [w]
  {
    assert running[|running| - 1] in [w] + [] && running[0] == w;
  }
}
