/** Requests on their way round the ring. */
module Requests {
  // The full request kept by the first peer, the packets sent between peers, their wire format, and the length
  // arithmetic that keeps both in step.

  import opened Outcomes
  import opened ClusterNode

  type Token = int
  type Tensor = seq<real>

  datatype Status = Prefilling | Decoding | FinishedEos | FinishedMaxLength | Failed | Cancelled {
    predicate Finished() {
      this != Prefilling && this != Decoding
    }
  }

  // ----- accepting a request -----

  /** What is asked of the first peer: a tokenized prompt, and maybe a limit on new tokens. */
  datatype Raw = Raw(id: string, prompt: seq<Token>, maxTokens: Option<int>)

  function Max(a: int, b: int): int {
    if a < b then b else a
  }

  /** The prompt as it is kept: one that does not leave room within `limit` is cut. */
  function KeptPrompt(prompt: seq<Token>, limit: int): (kept: seq<Token>)
    ensures kept <= prompt
  {
    var keep := Max(5, limit - 10);
    if |prompt| >= limit && keep < |prompt| then prompt[..keep] else prompt
  }

  /** The full request, kept by the first peer. */
  class InitialRequest {
    const id: string
    const inputs: seq<Token>
    const maxNewTokens: int
    const maxTotalLength: int
    var outputs: seq<Token>
    var status: Status
    var ready: bool
    var abort: bool

    constructor (id: string, inputs: seq<Token>, maxNewTokens: int, maxTotalLength: int)
      requires inputs != [] && maxNewTokens >= 1
      ensures this.id == id && this.inputs == inputs
      ensures this.maxNewTokens == maxNewTokens && this.maxTotalLength == maxTotalLength
      ensures outputs == [] && status == Prefilling && !ready && !abort
    {
      this.id, this.inputs, this.maxNewTokens, this.maxTotalLength := id, inputs, maxNewTokens, maxTotalLength;
      outputs, status, ready, abort := [], Prefilling, false, false;
    }

    function TotalLength(): nat
      reads `outputs
    {
      |inputs| + |outputs|
    }

    /** Within the sequence limit; while it runs there is room for another token. */
    ghost predicate WithinLimit(limit: int)
      reads `outputs, `status
    {
      && 1 <= maxNewTokens && maxTotalLength == |inputs| + maxNewTokens <= limit
      && |outputs| <= maxNewTokens && (!status.Finished() ==> |outputs| < maxNewTokens)
      && (status == Prefilling ==> outputs == [])
    }

    /** A finished request takes no more tokens. */
    method CommitNewToken(token: Token)
      modifies `outputs, `status
      ensures old(status).Finished() ==> outputs == old(outputs) && status == old(status)
      ensures !old(status).Finished() ==> outputs == old(outputs) + [token] && status == Decoding
    {
      if status.Finished() {
        return;
      }
      outputs := outputs + [token];
      if status == Prefilling {
        status := Decoding;
      }
    }

    method UpdateStatus(new_: Status)
      modifies `status
      ensures status == if old(status).Finished() then old(status) else new_
    {
      if status.Finished() {
        return;
      }
      status := new_;
    }

    /** Whether the request is done, marking it so: an end token, the limit on new tokens or on the total. */
    method CheckStatus(endTokens: set<Token>, ignoreEnd: bool) returns (finished: bool)
      modifies `status
      ensures old(status).Finished() ==> finished && status == old(status)
      ensures !old(status).Finished() ==>
                var ended := !ignoreEnd && outputs != [] && outputs[|outputs| - 1] in endTokens;
                var full := |outputs| >= maxNewTokens || TotalLength() >= maxTotalLength;
                && (finished <==> abort || ended || full)
                && status == (if ended then FinishedEos else if full then FinishedMaxLength else old(status))
    {
      if status.Finished() {
        return true;
      }
      finished := abort;
      if !ignoreEnd && outputs != [] && outputs[|outputs| - 1] in endTokens {
        UpdateStatus(FinishedEos);
        finished := true;
      } else if |outputs| >= maxNewTokens {
        UpdateStatus(FinishedMaxLength);
        finished := true;
      } else if TotalLength() >= maxTotalLength {
        UpdateStatus(FinishedMaxLength);
        finished := true;
      }
    }

    /** One lap ends: commit the token, then check.  The sequence never outgrows the limit, and a request
        that goes on has room for the next token. */
    method CommitAndCheck(token: Token, endTokens: set<Token>, ignoreEnd: bool, ghost limit: int) returns (finished: bool)
      requires WithinLimit(limit) && !status.Finished()
      modifies `outputs, `status
      ensures outputs == old(outputs) + [token] && TotalLength() <= limit
      ensures !finished ==> WithinLimit(limit) && status == Decoding
      ensures !abort ==> (finished <==> status.Finished()) && WithinLimit(limit)
    {
      CommitNewToken(token);
      finished := CheckStatus(endTokens, ignoreEnd);
    }
  }

  /** Cuts the prompt, settles the limit on new tokens, and builds the request, or raises. */
  method HandleRawRequest(raw: Raw, limit: int) returns (r: Result<InitialRequest>)
    ensures r.Raise? <==> KeptPrompt(raw.prompt, limit) == [] || NewTokens(raw, limit) < 1
    ensures r.Ok? ==> fresh(r.value) && r.value.WithinLimit(limit) && r.value.status == Prefilling
    ensures r.Ok? ==> r.value.inputs == KeptPrompt(raw.prompt, limit) && r.value.maxNewTokens == NewTokens(raw, limit)
  {
    var prompt := raw.prompt;
    if |prompt| >= limit {
      var keep := Max(5, limit - 10);
      if keep < |prompt| {
        prompt := prompt[..keep];
      }
    }
    var maxNewTokens;
    if raw.maxTokens.None? || |prompt| + raw.maxTokens.value >= limit {
      maxNewTokens := Max(0, limit - |prompt|);
    } else {
      maxNewTokens := raw.maxTokens.value;
    }
    if prompt == [] {
      return Raise(EmptyPrompt);
    }
    if maxNewTokens < 1 {
      return Raise(NoNewTokens);
    }
    var request := new InitialRequest(raw.id, prompt, maxNewTokens, |prompt| + maxNewTokens);
    r := Ok(request);
  }

  /** The limit on new tokens: what was asked for, unless that does not fit. */
  function NewTokens(raw: Raw, limit: int): int {
    var n := |KeptPrompt(raw.prompt, limit)|;
    if raw.maxTokens.None? || n + raw.maxTokens.value >= limit then Max(0, limit - n) else raw.maxTokens.value
  }

  /** A prompt too long for the limit is still served, cut, exactly when the limit leaves more than the
      five tokens that are always kept; asking for fewer than one new token is refused at any limit.  In the
      ordinary case ten tokens are left, or as many as were asked for if those are fewer. */
  lemma LongPromptsAreServed(raw: Raw, limit: int)
    requires |raw.prompt| >= limit && raw.prompt != []
    ensures NewTokens(raw, limit) >= 1 <==> limit >= 6 && (raw.maxTokens.None? || raw.maxTokens.value >= 1)
    ensures limit < 15 ==> |KeptPrompt(raw.prompt, limit)| == if |raw.prompt| < 5 then |raw.prompt| else 5
    ensures limit >= 15 ==>
              && |KeptPrompt(raw.prompt, limit)| == limit - 10
              && NewTokens(raw, limit) ==
                 (if raw.maxTokens.Some? && raw.maxTokens.value < 10 then raw.maxTokens.value else 10)
  {
  }

  /** A prompt under the limit is kept whole, and gets the new tokens asked for, or all that are left if those do
      not fit under the limit or no number was asked for. */
  lemma ShortPromptsAreKept(raw: Raw, limit: int)
    requires |raw.prompt| < limit
    ensures KeptPrompt(raw.prompt, limit) == raw.prompt
    ensures raw.maxTokens.Some? && |raw.prompt| + raw.maxTokens.value < limit ==> NewTokens(raw, limit) == raw.maxTokens.value
    ensures raw.maxTokens.None? || |raw.prompt| + raw.maxTokens.value >= limit ==> |raw.prompt| + NewTokens(raw, limit) == limit
  {
  }

  // ----- packets -----

  /** What travels between peers.  Without hidden states it announces that the request is over. */
  datatype Packet = Packet(id: string, position: int, status: Status, inputs: seq<Token>, hidden: Option<Tensor>,
                           nextToken: Option<Token>, routing: seq<NodeId>)

  /** The first peer's packet: the position is the length of the sequence so far. */
  function FromInitial(id: string, inputs: seq<Token>, outputs: seq<Token>, status: Status, hidden: Option<Tensor>,
                       routing: seq<NodeId>): Packet
  {
    Packet(id, |inputs| + |outputs|, status, inputs, hidden,
           if outputs == [] then None else Some(outputs[|outputs| - 1]), routing)
  }

  /** An intermediate peer passes everything on but the hidden states. */
  function Forwarded(p: Packet, hidden: Tensor): Packet {
    p.(hidden := Some(hidden))
  }

  /** The last peer sends a token back; the packet says decoding from here on. */
  function FromLast(p: Packet, token: Token, hidden: Tensor): Packet {
    p.(status := Decoding, hidden := Some(hidden), nextToken := Some(token))
  }

  /** A peer that is both first and last: the position moves right away. */
  function FromSingle(id: string, inputs: seq<Token>, outputs: seq<Token>, token: Token, hidden: Tensor, routing: seq<NodeId>): Packet
  {
    Packet(id, |inputs| + |outputs| + 1, Decoding, inputs, Some(hidden), Some(token), routing)
  }

  /** The first peer moves the position of every packet it receives. */
  function Bumped(p: Packet): Packet {
    p.(position := p.position + 1)
  }

  // ----- wire format -----

  datatype Mode = Extend | Decode

  datatype Message = Message(mode: Mode, packets: seq<Wire>)

  /** One packet on the wire: the position travels as the number of output tokens, an absent next token as 0. */
  datatype Wire = Wire(id: string, outputLength: int, inputs: seq<Token>, routing: seq<NodeId>, hidden: Option<Tensor>,
                       nextToken: Token)

  function Encoded(p: Packet): Wire {
    Wire(p.id, p.position - |p.inputs|, p.inputs, p.routing, p.hidden,
         match p.nextToken case None => 0 case Some(t) => t)
  }

  function Decoded(w: Wire, mode: Mode): Packet {
    var status := if w.hidden.None? then FinishedEos else if mode == Extend then Prefilling else Decoding;
    Packet(w.id, |w.inputs| + w.outputLength, status, w.inputs, w.hidden, Some(w.nextToken), w.routing)
  }

  method ToMessage(packets: seq<Packet>) returns (r: Result<Message>)
    ensures r.Ok? <==> packets != [] && !packets[0].status.Finished() && forall i :: 0 <= i < |packets| ==> packets[i].status == packets[0].status
    ensures r.Ok? ==> |r.value.packets| == |packets| && r.value.mode == (if packets[0].status == Prefilling then Extend else Decode)
    ensures r.Ok? ==> forall i :: 0 <= i < |packets| ==> r.value.packets[i] == Encoded(packets[i])
  {
    if packets == [] {
      return Raise(NothingToSend);
    }
    if !(forall i | 0 <= i < |packets| :: packets[i].status == packets[0].status) {
      return Raise(MixedStatus);
    }
    if packets[0].status.Finished() {
      return Raise(NotSendable);
    }
    var mode := if packets[0].status == Prefilling then Extend else Decode;
    var wires: seq<Wire> := [];
    for i := 0 to |packets|
      invariant |wires| == i && forall k :: 0 <= k < i ==> wires[k] == Encoded(packets[k])
    {
      wires := wires + [Encoded(packets[i])];
    }
    r := Ok(Message(mode, wires));
  }

  method FromMessage(message: Message) returns (packets: seq<Packet>)
    ensures |packets| == |message.packets|
    ensures forall i :: 0 <= i < |packets| ==> packets[i] == Decoded(message.packets[i], message.mode)
  {
    packets := [];
    for i := 0 to |message.packets|
      invariant |packets| == i && forall k :: 0 <= k < i ==> packets[k] == Decoded(message.packets[k], message.mode)
    {
      packets := packets + [Decoded(message.packets[i], message.mode)];
    }
  }

  /** Sending and receiving keeps packets as they are, except that an absent next token comes back as 0,
      and a packet without hidden states comes back finished. */
  method Transmit(packets: seq<Packet>) returns (r: Result<seq<Packet>>)
    ensures r.Ok? <==> packets != [] && !packets[0].status.Finished() && forall i :: 0 <= i < |packets| ==> packets[i].status == packets[0].status
    ensures r.Ok? ==> |r.value| == |packets| && forall i :: 0 <= i < |packets| ==> r.value[i] == Received(packets[i])
  {
    var message := ToMessage(packets);
    if message.Raise? {
      return Raise(message.error);
    }
    var received := FromMessage(message.value);
    forall i | 0 <= i < |packets| ensures received[i] == Received(packets[i]) {
      WireRoundTrip(packets[i]);
      assert packets[i].status == packets[0].status;
    }
    r := Ok(received);
  }

  function Received(p: Packet): Packet {
    p.(nextToken := Some(match p.nextToken case None => 0 case Some(t) => t),
       status := if p.hidden.None? then FinishedEos else p.status)
  }

  lemma WireRoundTrip(p: Packet)
    requires !p.status.Finished()
    ensures Decoded(Encoded(p), if p.status == Prefilling then Extend else Decode) == Received(p)
  {
  }

  // ----- one lap -----

  /** A packet after some intermediate hops, each over the wire. */
  function Hops(p: Packet, hidden: seq<Tensor>): Packet {
    if hidden == [] then Received(p) else Received(Forwarded(Hops(p, hidden[..|hidden| - 1]), hidden[|hidden| - 1]))
  }

  lemma {:induction false} HopsKeepPosition(p: Packet, hidden: seq<Tensor>)
    requires p.hidden.Some?
    ensures Hops(p, hidden).position == p.position && Hops(p, hidden).status == p.status
    ensures Hops(p, hidden).inputs == p.inputs && Hops(p, hidden).id == p.id && Hops(p, hidden).routing == p.routing
    ensures Hops(p, hidden).hidden == if hidden == [] then p.hidden else Some(hidden[|hidden| - 1])
    ensures Hops(p, hidden).nextToken == Some(match p.nextToken case None => 0 case Some(t) => t)
  {
    if hidden != [] {
      HopsKeepPosition(p, hidden[..|hidden| - 1]);
    }
  }

  /** However many peers a lap has, the position that comes back is the length of the sequence after the
      new token is committed; a single peer's packet agrees without the move on receipt. */
  lemma {:induction false} LapPosition(id: string, inputs: seq<Token>, outputs: seq<Token>, status: Status, first: Tensor, hidden: seq<Tensor>,
                    token: Token, last: Tensor, routing: seq<NodeId>)
    requires !status.Finished()
    ensures var sent := FromInitial(id, inputs, outputs, status, Some(first), routing);
            var there := Hops(sent, hidden);
            var back := Bumped(Received(FromLast(there, token, last)));
            && there.position == |inputs| + |outputs| && there.inputs == inputs && there.status == status
            && there.nextToken == Some(if outputs == [] then 0 else outputs[|outputs| - 1])
            && back.position == |inputs| + |outputs + [token]| && back.nextToken == Some(token) && back.status == Decoding
            && back.id == id && back.inputs == inputs && back.hidden == Some(last) && back.routing == routing
            && FromSingle(id, inputs, outputs, token, last, routing) == back
  {
    HopsKeepPosition(FromInitial(id, inputs, outputs, status, Some(first), routing), hidden);
  }
}
