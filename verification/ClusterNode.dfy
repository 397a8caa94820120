/** A worker node.

    It knows how many decoder layers it can store, with and without an endpoint, and hosts at most one
    range of layers at a time. */
module ClusterNode {
  import opened Outcomes
  import opened PipelineSearch

  type NodeId = string

  /** Half-open range of decoder layers. */
  datatype Range = Range(start: int, end: int)

  /** Parameter memory of the device in bytes, bytes of the embedding (and of the LM head),
      bytes of one decoder layer, and whether embedding and LM head share their weights. */
  datatype Memory = Memory(paramBytes: int, endpointBytes: int, layerBytes: real, tied: bool)

  type Hardware = h: Memory | 0 <= h.paramBytes && 0 <= h.endpointBytes && h.layerBytes > 0.0
    witness Memory(0, 0, 1.0, false)

  /** How many decoder layers fit next to the endpoints the node also holds. */
  function DecoderCapacity(h: Hardware, inputEmbed: bool, lmHead: bool): int
  {
    var available := h.paramBytes - (if inputEmbed then h.endpointBytes else 0);
    var left := available - (if lmHead && !(inputEmbed && h.tied) then h.endpointBytes else 0);
    (left as real / h.layerBytes).Floor
  }

  lemma FloorOfQuotient(a: int, b: int, f: real)
    requires f > 0.0 && a <= b
    ensures (a as real / f).Floor <= (b as real / f).Floor
    ensures b >= 0 ==> (b as real / f).Floor >= 0
  {
    var more := (b - a) as real / f;
    assert more * f == (b - a) as real;
    assert more >= 0.0;
    assert b as real / f == a as real / f + more;
    if b >= 0 {
      assert (b as real / f) * f >= 0.0;
      assert b as real / f >= 0.0;
    }
  }

  /** Reserving either endpoint costs the same, reserving both costs at least as much. */
  lemma CapacityFacts(h: Hardware)
    ensures 0 <= DecoderCapacity(h, false, false)
    ensures DecoderCapacity(h, true, false) == DecoderCapacity(h, false, true)
    ensures DecoderCapacity(h, true, false) <= DecoderCapacity(h, false, false)
    ensures DecoderCapacity(h, true, true) <= DecoderCapacity(h, true, false)
  {
    var p, e := h.paramBytes, h.endpointBytes;
    FloorOfQuotient(p - e, p, h.layerBytes);
    FloorOfQuotient(p - e - e, p - e, h.layerBytes);
  }

  /** The capacity is the largest number of layers that fit into what the endpoints leave; tied endpoints on one node
      share their weights. */
  lemma CapacityIsLargest(h: Hardware, inputEmbed: bool, lmHead: bool)
    ensures var ends := if inputEmbed && lmHead then (if h.tied then 1 else 2) else if inputEmbed || lmHead then 1 else 0;
            var n := DecoderCapacity(h, inputEmbed, lmHead);
            n as real * h.layerBytes <= (h.paramBytes - ends * h.endpointBytes) as real < n as real * h.layerBytes + h.layerBytes
  {
    var left := h.paramBytes - (if inputEmbed then h.endpointBytes else 0) - (if lmHead && !(inputEmbed && h.tied) then h.endpointBytes else 0);
    var ends := if inputEmbed && lmHead then (if h.tied then 1 else 2) else if inputEmbed || lmHead then 1 else 0;
    assert left == h.paramBytes - ends * h.endpointBytes;
    var q := QuotientScaled(left as real, h.layerBytes);
    FloorScaled(q, left as real, h.layerBytes);
  }

  lemma Scaled(d: real, f: real)
    requires f > 0.0
    ensures (d >= 0.0 ==> d * f >= 0.0) && (d < 1.0 ==> d * f < f)
  {
    if d < 1.0 {
      assert (1.0 - d) * f > 0.0;
      assert (1.0 - d) * f == f - d * f;
    }
  }

  lemma Between(n: real, q: real, a: real, f: real)
    requires f > 0.0 && q * f == a && n <= q < n + 1.0
    ensures n * f <= a < n * f + f
  {
    var d := q - n;
    var u, v := n * f, d * f;
    assert q == n + d;
    assert q * f == u + v;
    Scaled(d, f);
    assert a == u + v && 0.0 <= v < f;
    assert u <= a < u + f;
  }

  lemma FloorScaled(q: real, a: real, f: real)
    requires f > 0.0 && q * f == a
    ensures q.Floor as real * f <= a < q.Floor as real * f + f
  {
    Between(q.Floor as real, q, a, f);
  }

  lemma QuotientScaled(a: real, f: real) returns (q: real)
    requires f > 0.0
    ensures q == a / f && q * f == a
  {
    q := a / f;
  }

  /** A node's memory is shared evenly among its layers, rounded down. */
  lemma ShareIsEven(n: Node, r: Range)
    requires r.start < r.end
    ensures var len := (r.end - r.start) as real;
            n.Share(r) as real * len <= n.kvMemory < n.Share(r) as real * len + len
  {
    var len := (r.end - r.start) as real;
    var q := QuotientScaled(n.kvMemory, len);
    FloorScaled(q, n.kvMemory, len);
  }

  class Node {
    const id: NodeId
    const hardware: Hardware
    const power: real
    const kvMemory: real
    var range: Option<Range>
    var isActive: bool

    constructor (id: NodeId, hardware: Hardware, power: real, kvMemory: real)
      ensures this.id == id && this.hardware == hardware && this.power == power && this.kvMemory == kvMemory
      ensures range == None && isActive
    {
      this.id, this.hardware, this.power, this.kvMemory := id, hardware, power, kvMemory;
      range, isActive := None, true;
    }

    function Capacity(): int {
      DecoderCapacity(hardware, false, false)
    }

    /** The two capacities the pipeline search needs. */
    function Caps(): Caps {
      PipelineSearch.Caps(Capacity(), DecoderCapacity(hardware, true, false))
    }

    /** KV-cache memory per layer when the node hosts the range. */
    function Share(r: Range): int
      requires r.start < r.end
    {
      (kvMemory / (r.end - r.start) as real).Floor
    }
  }
}
