/** The paged key/value cache of one peer.

    Block and slot allocators hand out identifiers; the tables built on them give every token of
    every live request an address of its own. */
module PagedCache {
  import opened Outcomes

  type Rid = string

  predicate Distinct(s: seq<nat>) {
    forall i, j :: 0 <= i < j < |s| ==> s[i] != s[j]
  }

  function SetOf(s: seq<nat>): (r: set<nat>)
    ensures forall b :: b in r <==> b in s
  {
    set b | b in s
  }

  /** A free list and a used set that together hold every index once. */
  ghost predicate Partition(free: seq<nat>, used: set<nat>, count: nat) {
    && Distinct(free) && (forall b :: b in free ==> b < count && b !in used)
    && (forall b :: b in used ==> b < count)
    && (forall b :: 0 <= b < count ==> b in free || b in used)
  }

  lemma TakePartition(free: seq<nat>, used: set<nat>, count: nat, k: nat)
    requires Partition(free, used, count) && k <= |free|
    ensures Partition(free[..k], used + SetOf(free[k..]), count) && Distinct(free[k..])
    ensures SetOf(free[k..]) !! used
  {
    forall b | 0 <= b < count && b !in used ensures b in free[..k] || b in free[k..] {
      var i :| 0 <= i < |free| && free[i] == b;
      assert i < k ==> free[..k][i] == b;
      assert i >= k ==> free[k..][i - k] == b;
    }
    forall b | b in free[..k] ensures b !in free[k..] {
    }
  }

  lemma GivePartition(free: seq<nat>, used: set<nat>, count: nat, b: nat)
    requires Partition(free, used, count) && b in used
    ensures Partition(free + [b], used - {b}, count)
  {
    forall c | 0 <= c < count && c !in used - {b} ensures c in free + [b] {
      assert c == b ==> (free + [b])[|free|] == c;
    }
  }

  function UpTo(n: nat): (s: seq<nat>)
    ensures |s| == n && forall i :: 0 <= i < n ==> s[i] == i
  {
    seq(n, (i: nat) => i)
  }

  lemma AllFree(n: nat)
    ensures Partition(UpTo(n), {}, n)
  {
    forall b | 0 <= b < n ensures b in UpTo(n) {
      assert UpTo(n)[b] == b;
    }
  }

  class BlockAllocator {
    const numBlocks: nat
    var freeBlocks: seq<nat>
    var usedBlocks: set<nat>

    ghost predicate Valid()
      reads this
    {
      Partition(freeBlocks, usedBlocks, numBlocks)
    }

    constructor (numBlocks: nat)
      ensures Valid() && this.numBlocks == numBlocks && usedBlocks == {} && |freeBlocks| == numBlocks
    {
      this.numBlocks := numBlocks;
      freeBlocks, usedBlocks := UpTo(numBlocks), {};
      new;
      AllFree(numBlocks);
    }

    method Allocate(needed: nat) returns (blocks: seq<nat>)
      requires Valid()
      modifies this
      ensures Valid() && SetOf(blocks) !! old(usedBlocks) && Distinct(blocks)
      ensures |old(freeBlocks)| < needed ==>
                blocks == [] && freeBlocks == old(freeBlocks) && usedBlocks == old(usedBlocks)
      ensures needed <= |old(freeBlocks)| ==>
                |blocks| == needed && freeBlocks + blocks == old(freeBlocks) && usedBlocks == old(usedBlocks) + SetOf(blocks)
    {
      if |freeBlocks| < needed {
        return [];
      }
      var split := |freeBlocks| - needed;
      TakePartition(freeBlocks, usedBlocks, numBlocks, split);
      blocks := freeBlocks[split..];
      freeBlocks := freeBlocks[..split];
      usedBlocks := usedBlocks + SetOf(blocks);
    }

    /** Blocks that are not in use are skipped, so a double free is harmless. */
    method Free(blocks: seq<nat>)
      requires Valid()
      modifies this
      ensures Valid() && usedBlocks == old(usedBlocks) - SetOf(blocks)
      ensures Distinct(blocks) && SetOf(blocks) <= old(usedBlocks) ==> freeBlocks == old(freeBlocks) + blocks
    {
      var i := 0;
      while i < |blocks|
        invariant i <= |blocks| && Valid() && usedBlocks == old(usedBlocks) - SetOf(blocks[..i])
        invariant Distinct(blocks) && SetOf(blocks) <= old(usedBlocks) ==> freeBlocks == old(freeBlocks) + blocks[..i]
      {
        var b := blocks[i];
        assert blocks[..i + 1] == blocks[..i] + [b];
        assert Distinct(blocks) && SetOf(blocks) <= old(usedBlocks) ==> b in usedBlocks by {
          assert b in SetOf(blocks);
        }
        if b in usedBlocks {
          GivePartition(freeBlocks, usedBlocks, numBlocks, b);
          usedBlocks := usedBlocks - {b};
          freeBlocks := freeBlocks + [b];
        }
        i := i + 1;
      }
      assert blocks[..i] == blocks;
    }
  }

  class SlotAllocator {
    const numSlots: nat
    var freeSlots: seq<nat>
    var usedSlots: set<nat>

    ghost predicate Valid()
      reads this
    {
      Partition(freeSlots, usedSlots, numSlots)
    }

    constructor (numSlots: nat)
      ensures Valid() && this.numSlots == numSlots && usedSlots == {} && |freeSlots| == numSlots
    {
      this.numSlots := numSlots;
      freeSlots, usedSlots := UpTo(numSlots), {};
      new;
      AllFree(numSlots);
    }

    method Allocate() returns (slot: int)
      requires Valid()
      modifies this
      ensures Valid()
      ensures old(freeSlots) == [] ==> slot == -1 && freeSlots == [] && usedSlots == old(usedSlots)
      ensures old(freeSlots) != [] ==>
                && 0 <= slot < numSlots && slot !in old(usedSlots)
                && freeSlots + [slot] == old(freeSlots) && usedSlots == old(usedSlots) + {slot}
    {
      if freeSlots == [] {
        return -1;
      }
      TakePartition(freeSlots, usedSlots, numSlots, |freeSlots| - 1);
      slot := freeSlots[|freeSlots| - 1];
      freeSlots := freeSlots[..|freeSlots| - 1];
      usedSlots := usedSlots + {slot};
    }

    method Free(slot: nat)
      requires Valid()
      modifies this
      ensures Valid() && usedSlots == old(usedSlots) - {slot}
      ensures freeSlots == if slot in old(usedSlots) then old(freeSlots) + [slot] else old(freeSlots)
    {
      if slot in usedSlots {
        GivePartition(freeSlots, usedSlots, numSlots, slot);
        usedSlots := usedSlots - {slot};
        freeSlots := freeSlots + [slot];
      }
    }
  }

  // ----- tables -----

  function CeilDiv(n: nat, d: nat): nat
    requires d > 0
  {
    (n + d - 1) / d
  }

  type Tables = map<Rid, seq<nat>>

  /** Tables hold used blocks only, each at one place, and just enough of them. */
  ghost predicate TablesOk(tables: Tables, lengths: map<Rid, nat>, used: set<nat>, blockSize: nat)
    requires blockSize > 0
  {
    && tables.Keys == lengths.Keys
    && (forall r :: r in tables ==> |tables[r]| == CeilDiv(lengths[r], blockSize))
    && (forall r, i :: r in tables && 0 <= i < |tables[r]| ==> tables[r][i] in used)
    && (forall r, i, q, j ::
          (r in tables && 0 <= i < |tables[r]| && q in tables && 0 <= j < |tables[q]| && tables[r][i] == tables[q][j])
          ==> r == q && i == j)
  }

  /** Every used block is in some table. */
  ghost predicate NoLostBlocks(tables: Tables, used: set<nat>) {
    forall b :: b in used ==> exists r :: r in tables && b in tables[r]
  }

  ghost predicate SlotsOk(slots: map<Rid, nat>, used: set<nat>) {
    && (forall r :: r in slots ==> slots[r] in used)
    && (forall r, q :: r in slots && q in slots && slots[r] == slots[q] ==> r == q)
  }

  ghost predicate NoLostSlots(slots: map<Rid, nat>, used: set<nat>) {
    forall s :: s in used ==> exists r :: r in slots && slots[r] == s
  }

  lemma AddTable(tables: Tables, lengths: map<Rid, nat>, used: set<nat>, blockSize: nat, r: Rid, blocks: seq<nat>, len: nat)
    requires blockSize > 0 && TablesOk(tables, lengths, used, blockSize) && r !in tables
    requires Distinct(blocks) && SetOf(blocks) !! used && |blocks| == CeilDiv(len, blockSize)
    ensures TablesOk(tables[r := blocks], lengths[r := len], used + SetOf(blocks), blockSize)
    ensures NoLostBlocks(tables, used) ==> NoLostBlocks(tables[r := blocks], used + SetOf(blocks))
  {
    var tables' := tables[r := blocks];
    forall a, i, q, j | a in tables' && 0 <= i < |tables'[a]| && q in tables' && 0 <= j < |tables'[q]|
                        && tables'[a][i] == tables'[q][j]
      ensures a == q && i == j
    {
      assert tables'[a][i] in (if a == r then SetOf(blocks) else used);
      assert tables'[q][j] in (if q == r then SetOf(blocks) else used);
    }
    if NoLostBlocks(tables, used) {
      forall b | b in used + SetOf(blocks) ensures exists q :: q in tables' && b in tables'[q] {
        if b in blocks {
          assert b in tables'[r];
        } else {
          var q :| q in tables && b in tables[q];
          assert b in tables'[q];
        }
      }
    }
  }

  /** A new slot for a request loses a slot exactly when the request had one. */
  lemma AddSlot(slots: map<Rid, nat>, used: set<nat>, r: Rid, slot: nat)
    requires SlotsOk(slots, used) && slot !in used
    ensures SlotsOk(slots[r := slot], used + {slot})
    ensures NoLostSlots(slots, used) ==> (NoLostSlots(slots[r := slot], used + {slot}) <==> r !in slots)
  {
    var slots', used' := slots[r := slot], used + {slot};
    if NoLostSlots(slots, used) {
      if r in slots {
        assert slots[r] in used';
        forall q | q in slots' ensures slots'[q] != slots[r] {
        }
      } else {
        forall s | s in used' ensures exists q :: q in slots' && slots'[q] == s {
          if s == slot {
            assert slots'[r] == s;
          } else {
            var q :| q in slots && slots[q] == s;
            assert slots'[q] == s;
          }
        }
      }
    }
  }

  lemma DropSlot(slots: map<Rid, nat>, used: set<nat>, r: Rid)
    requires SlotsOk(slots, used) && r in slots
    ensures SlotsOk(slots - {r}, used - {slots[r]})
    ensures NoLostSlots(slots, used) ==> NoLostSlots(slots - {r}, used - {slots[r]})
  {
    if NoLostSlots(slots, used) {
      forall s | s in used - {slots[r]} ensures exists q :: q in slots - {r} && (slots - {r})[q] == s {
        var q :| q in slots && slots[q] == s;
        assert (slots - {r})[q] == s;
      }
    }
  }

  lemma DropTable(tables: Tables, lengths: map<Rid, nat>, used: set<nat>, blockSize: nat, r: Rid)
    requires blockSize > 0 && TablesOk(tables, lengths, used, blockSize) && r in tables
    ensures Distinct(tables[r]) && SetOf(tables[r]) <= used
    ensures TablesOk(tables - {r}, lengths - {r}, used - SetOf(tables[r]), blockSize)
    ensures NoLostBlocks(tables, used) ==> NoLostBlocks(tables - {r}, used - SetOf(tables[r]))
  {
    var tables' := tables - {r};
    if NoLostBlocks(tables, used) {
      forall b | b in used - SetOf(tables[r]) ensures exists q :: q in tables' && b in tables'[q] {
        var q :| q in tables && b in tables[q];
        assert q in tables' && b in tables'[q];
      }
    }
  }

  lemma TableFits(tables: Tables, lengths: map<Rid, nat>, used: set<nat>, blockSize: nat, r: Rid)
    requires blockSize > 0 && TablesOk(tables, lengths, used, blockSize) && r in tables
    ensures r in lengths && |tables[r]| == CeilDiv(lengths[r], blockSize)
  {
  }

  /** A table grows by new blocks as its request grows by a token. */
  lemma GrowTable(tables: Tables, lengths: map<Rid, nat>, used: set<nat>, blockSize: nat, r: Rid, blocks: seq<nat>)
    requires blockSize > 0 && TablesOk(tables, lengths, used, blockSize) && r in tables && r in lengths
    requires Distinct(blocks) && SetOf(blocks) !! used
    requires |tables[r]| + |blocks| == CeilDiv(lengths[r] + 1, blockSize)
    ensures TablesOk(tables[r := tables[r] + blocks], lengths[r := lengths[r] + 1], used + SetOf(blocks), blockSize)
    ensures NoLostBlocks(tables, used) ==> NoLostBlocks(tables[r := tables[r] + blocks], used + SetOf(blocks))
  {
    var tables' := tables[r := tables[r] + blocks];
    forall a, i, q, j |
      a in tables' && 0 <= i < |tables'[a]| && q in tables' && 0 <= j < |tables'[q]| && tables'[a][i] == tables'[q][j]
      ensures a == q && i == j
    {
      var n := |tables[r]|;
      assert tables'[a][i] in (if a == r && i >= n then SetOf(blocks) else used);
      assert tables'[q][j] in (if q == r && j >= n then SetOf(blocks) else used);
    }
    if NoLostBlocks(tables, used) {
      forall b | b in used + SetOf(blocks) ensures exists q :: q in tables' && b in tables'[q] {
        if b in blocks {
          assert b in tables'[r];
        } else {
          var q :| q in tables && b in tables[q];
          assert b in tables'[q];
        }
      }
    }
  }

  /** Just as many blocks as hold the tokens. */
  lemma CeilDivIsLeast(n: nat, d: nat)
    requires d > 0
    ensures CeilDiv(n, d) * d >= n && CeilDiv(n, d) * d < n + d
  {
    var m := n + d - 1;
    assert m == m / d * d + m % d;
  }

  lemma CeilDivStep(n: nat, d: nat)
    requires d > 0
    ensures CeilDiv(n + 1, d) == CeilDiv(n, d) + if n % d == 0 then 1 else 0
    ensures n % d != 0 ==> n / d < CeilDiv(n, d)
  {
    var q, r := n / d, n % d;
    assert n == q * d + r;
    if r == 0 {
      DivIs(n + d - 1, d, q, d - 1);
      DivIs(n + 1 + d - 1, d, q + 1, 0);
    } else {
      DivIs(n + d - 1, d, q + 1, r - 1);
      DivIs(n + 1 + d - 1, d, q + 1, r);
    }
  }

  lemma DivIs(n: nat, d: nat, q: nat, r: nat)
    requires d > 0 && r < d && n == q * d + r
    ensures n / d == q && n % d == r
  {
    var q', r' := n / d, n % d;
    assert n == q' * d + r';
    if q' < q {
      NextMultiple(d, q', q);
    } else if q < q' {
      NextMultiple(d, q, q');
    }
  }

  lemma NextMultiple(d: nat, a: nat, b: nat)
    requires a < b
    ensures a * d + d <= b * d
  {
    var k := b - a - 1;
    assert b * d == (a + 1 + k) * d == a * d + d + k * d;
  }

  // ----- addresses -----

  /** Where position `p` of a request is kept. */
  function Address(table: seq<nat>, p: nat, blockSize: nat): nat
    requires blockSize > 0 && p / blockSize < |table|
  {
    table[p / blockSize] * blockSize + p % blockSize
  }

  /** That is in the block of the position, as far from its start as the position is from the last multiple. */
  lemma AddressInBlock(table: seq<nat>, p: nat, blockSize: nat)
    requires blockSize > 0 && p / blockSize < |table|
    ensures Address(table, p, blockSize) / blockSize == table[p / blockSize]
    ensures Address(table, p, blockSize) % blockSize == p % blockSize
  {
    DivIs(Address(table, p, blockSize), blockSize, table[p / blockSize], p % blockSize);
  }

  lemma PositionHasBlock(p: nat, len: nat, blockSize: nat)
    requires blockSize > 0 && p < len
    ensures p / blockSize < CeilDiv(len, blockSize)
  {
    var q, r := p / blockSize, p % blockSize;
    assert p == q * blockSize + r;
    var c := CeilDiv(len, blockSize);
    assert len + blockSize - 1 == c * blockSize + (len + blockSize - 1) % blockSize;
    if c == q {
    } else if c < q {
      NextMultiple(blockSize, c, q);
    }
  }

  lemma PlaceOf(tables: Tables, lengths: map<Rid, nat>, used: set<nat>, blockSize: nat, r: Rid, p: nat)
    requires blockSize > 0 && TablesOk(tables, lengths, used, blockSize) && r in tables && p < lengths[r]
    ensures p / blockSize < |tables[r]| && tables[r][p / blockSize] in used
  {
    hide CeilDiv;
    PositionHasBlock(p, lengths[r], blockSize);
    var i: nat := p / blockSize;
    assert i < |tables[r]|;
  }

  lemma SamePlace(tables: Tables, lengths: map<Rid, nat>, used: set<nat>, blockSize: nat, a: Rid, i: nat, b: Rid, j: nat)
    requires blockSize > 0 && TablesOk(tables, lengths, used, blockSize)
    requires a in tables && i < |tables[a]| && b in tables && j < |tables[b]| && tables[a][i] == tables[b][j]
    ensures a == b && i == j
  {
  }

  /** Two positions share an address only if they are the same position of the same request. */
  lemma AddressesAreInjective(tables: Tables, lengths: map<Rid, nat>, used: set<nat>, blockSize: nat, count: nat,
                              a: Rid, p: nat, b: Rid, q: nat)
    requires blockSize > 0 && TablesOk(tables, lengths, used, blockSize) && (forall x :: x in used ==> x < count)
    requires a in tables && a in lengths && p < lengths[a] && b in tables && b in lengths && q < lengths[b]
    ensures p / blockSize < |tables[a]| && q / blockSize < |tables[b]|
    ensures Address(tables[a], p, blockSize) < count * blockSize
    ensures Address(tables[a], p, blockSize) == Address(tables[b], q, blockSize) ==> a == b && p == q
  {
    hide TablesOk;
    PlaceOf(tables, lengths, used, blockSize, a, p);
    PlaceOf(tables, lengths, used, blockSize, b, q);
    var i, j := p / blockSize, q / blockSize;
    var x, y := tables[a][i], tables[b][j];
    NextMultiple(blockSize, x, count);
    SameAddress(x, p, y, q, blockSize);
    if x == y {
      SamePlace(tables, lengths, used, blockSize, a, i, b, j);
    }
  }

  lemma SameAddress(x: nat, p: nat, y: nat, q: nat, d: nat)
    requires d > 0
    ensures x * d + p % d == y * d + q % d ==> x == y && (p / d == q / d ==> p == q)
  {
    if x * d + p % d == y * d + q % d {
      DivIs(x * d + p % d, d, x, p % d);
      DivIs(x * d + p % d, d, y, q % d);
      assert p == p / d * d + p % d && q == q / d * d + q % d;
    }
  }

  // ----- the manager -----

  /** Everything the manager and its allocators remember. */
  datatype State = State(freeBlocks: seq<nat>, usedBlocks: set<nat>, freeSlots: seq<nat>, usedSlots: set<nat>,
                         tables: Tables, lengths: map<Rid, nat>, slots: map<Rid, nat>)

  class CacheManager {
    const blockSize: nat
    const needsBlocks: bool
    const needsSlots: bool
    const allocator: BlockAllocator
    const slotAllocator: SlotAllocator
    var blockTables: Tables
    var contextLengths: map<Rid, nat>
    var requestSlots: map<Rid, nat>

    ghost predicate Valid()
      reads this, allocator, slotAllocator
    {
      && blockSize > 0 && allocator.Valid() && slotAllocator.Valid()
      && TablesOk(blockTables, contextLengths, allocator.usedBlocks, blockSize)
      && SlotsOk(requestSlots, slotAllocator.usedSlots)
      && (!needsBlocks ==> blockTables.Keys == {})
      && (!needsSlots ==> requestSlots.Keys == {})
      && (needsBlocks && needsSlots ==> requestSlots.Keys == blockTables.Keys)
    }

    /** Whatever is in use belongs to a live request. */
    ghost predicate NothingLost()
      reads this, allocator, slotAllocator
    {
      NoLostBlocks(blockTables, allocator.usedBlocks) && NoLostSlots(requestSlots, slotAllocator.usedSlots)
    }

    ghost function Now(): State
      reads this, allocator, slotAllocator
    {
      State(allocator.freeBlocks, allocator.usedBlocks, slotAllocator.freeSlots, slotAllocator.usedSlots,
            blockTables, contextLengths, requestSlots)
    }

    /** Allocators that no layer needs are present but never used. */
    constructor (numBlocks: nat, blockSize: nat, maxNumSeqs: nat, needsBlocks: bool, needsSlots: bool)
      requires blockSize > 0
      ensures Valid() && NothingLost() && fresh(allocator) && fresh(slotAllocator)
      ensures this.blockSize == blockSize && this.needsBlocks == needsBlocks && this.needsSlots == needsSlots
      ensures blockTables == map[] && requestSlots == map[]
      ensures allocator.numBlocks == numBlocks && slotAllocator.numSlots == maxNumSeqs
      ensures |allocator.freeBlocks| == numBlocks && |slotAllocator.freeSlots| == maxNumSeqs
    {
      this.blockSize, this.needsBlocks, this.needsSlots := blockSize, needsBlocks, needsSlots;
      allocator := new BlockAllocator(numBlocks);
      slotAllocator := new SlotAllocator(maxNumSeqs);
      blockTables, contextLengths, requestSlots := map[], map[], map[];
    }

    predicate HasRequest(r: Rid)
      reads this
    {
      if needsBlocks then r in blockTables else needsSlots && r in requestSlots
    }

    predicate CanAllocate(numTokens: nat)
      requires blockSize > 0
      reads this, allocator, slotAllocator
    {
      && (needsBlocks ==> |allocator.freeBlocks| >= CeilDiv(numTokens, blockSize))
      && (needsSlots ==> |slotAllocator.freeSlots| > 0)
    }

    /** Called for a request that is not held, it loses nothing.  With slots only, a second call for the
        same request takes another slot and forgets the first: exactly then something is lost. */
    method AllocateRequest(r: Rid, promptLen: nat) returns (ok: bool)
      requires Valid()
      modifies this, allocator, slotAllocator
      ensures Valid()
      ensures !ok ==> Now() == old(Now())
      ensures ok <==> old(needsBlocks && r in blockTables)
                      || old((needsBlocks ==> |allocator.freeBlocks| >= CeilDiv(promptLen, blockSize))
                             && (needsSlots ==> slotAllocator.freeSlots != []))
      ensures old(r in blockTables) ==> Now() == old(Now())
      ensures ok && needsBlocks && old(r !in blockTables) ==>
                && r in blockTables && blockTables == old(blockTables)[r := blockTables[r]]
                && contextLengths == old(contextLengths)[r := promptLen]
                && |blockTables[r]| == CeilDiv(promptLen, blockSize)
                && allocator.freeBlocks + blockTables[r] == old(allocator.freeBlocks)
      ensures ok && needsSlots && old(r !in blockTables) ==>
                r in requestSlots && requestSlots == old(requestSlots)[r := requestSlots[r]]
                && requestSlots[r] !in old(slotAllocator.usedSlots)
                && slotAllocator.freeSlots + [requestSlots[r]] == old(slotAllocator.freeSlots)
      ensures !needsBlocks ==> blockTables == old(blockTables) && allocator.freeBlocks == old(allocator.freeBlocks)
      ensures !needsSlots ==> requestSlots == old(requestSlots) && slotAllocator.freeSlots == old(slotAllocator.freeSlots)
      ensures ok ==> (HasRequest(r) <==> needsBlocks || needsSlots)
      ensures |allocator.freeBlocks| <= old(|allocator.freeBlocks|) && |slotAllocator.freeSlots| <= old(|slotAllocator.freeSlots|)
      ensures old(NothingLost()) ==>
                (NothingLost() <==> !(ok && !needsBlocks && needsSlots && old(r in requestSlots)))
    {
      if r in blockTables {
        return true;
      }
      var slot := -1;
      if needsSlots {
        slot := slotAllocator.Allocate();
        if slot == -1 {
          return false;
        }
      }
      var blocks := [];
      if needsBlocks {
        var numBlocks := CeilDiv(promptLen, blockSize);
        blocks := allocator.Allocate(numBlocks);
        if |blocks| < numBlocks {
          // The allocator gives all blocks or none, so there are none to hand back.
          if slot != -1 {
            slotAllocator.Free(slot);
            assert slotAllocator.usedSlots == old(slotAllocator.usedSlots);
          }
          return false;
        }
      }
      if needsBlocks {
        AddTable(blockTables, contextLengths, old(allocator.usedBlocks), blockSize, r, blocks, promptLen);
        blockTables := blockTables[r := blocks];
        contextLengths := contextLengths[r := promptLen];
      }
      if needsSlots {
        AddSlot(requestSlots, old(slotAllocator.usedSlots), r, slot);
        requestSlots := requestSlots[r := slot];
      }
      ok := true;
    }

    /** Tokens of live requests never share a place in the cache. */
    lemma TokensDoNotCollide(a: Rid, p: nat, b: Rid, q: nat)
      requires Valid() && a in contextLengths && b in contextLengths && p < contextLengths[a] && q < contextLengths[b]
      ensures a in blockTables && b in blockTables
      ensures p / blockSize < |blockTables[a]| && q / blockSize < |blockTables[b]|
      ensures Address(blockTables[a], p, blockSize) < allocator.numBlocks * blockSize
      ensures Address(blockTables[a], p, blockSize) == Address(blockTables[b], q, blockSize) ==> a == b && p == q
    {
      assert a in blockTables.Keys && b in blockTables.Keys;
      AddressesAreInjective(blockTables, contextLengths, allocator.usedBlocks, blockSize, allocator.numBlocks, a, p, b, q);
    }

    method FreeRequest(r: Rid)
      requires Valid()
      modifies this, allocator, slotAllocator
      ensures Valid() && !HasRequest(r)
      ensures blockTables == old(blockTables) - {r} && requestSlots == old(requestSlots) - {r}
      ensures contextLengths == old(contextLengths) - {r}
      ensures allocator.freeBlocks == old(allocator.freeBlocks) + old(if r in blockTables then blockTables[r] else [])
      ensures slotAllocator.freeSlots == old(slotAllocator.freeSlots) + old(if r in requestSlots then [requestSlots[r]] else [])
      ensures old(NothingLost()) ==> NothingLost()
    {
      if needsBlocks && r in blockTables {
        DropTable(blockTables, contextLengths, allocator.usedBlocks, blockSize, r);
        allocator.Free(blockTables[r]);
        blockTables := blockTables - {r};
        if r in contextLengths {
          contextLengths := contextLengths - {r};
        }
      }
      if needsSlots && r in requestSlots {
        DropSlot(requestSlots, slotAllocator.usedSlots, r);
        slotAllocator.Free(requestSlots[r]);
        requestSlots := requestSlots - {r};
      }
    }

    /** One more token: a fresh block when the last one is full. */
    method AppendSlot(r: Rid) returns (ok: Result<bool>)
      requires Valid()
      modifies this, allocator
      ensures Valid()
      ensures ok.Raise? <==> needsBlocks && old(r !in blockTables)
      ensures ok != Ok(true) || !needsBlocks ==> Now() == old(Now())
      ensures ok == Ok(false) <==>
                needsBlocks && old(r in blockTables && r in contextLengths && allocator.freeBlocks == []
                                   && contextLengths[r] % blockSize == 0)
      ensures ok == Ok(true) && needsBlocks ==>
                && old(r in contextLengths && r in blockTables) && r in blockTables
                && contextLengths == old(contextLengths)[r := old(contextLengths[r]) + 1]
                && old(blockTables[r]) <= blockTables[r]
                && blockTables == old(blockTables)[r := blockTables[r]]
                && allocator.freeBlocks + blockTables[r][|old(blockTables[r])|..] == old(allocator.freeBlocks)
      ensures requestSlots == old(requestSlots)
      ensures old(NothingLost()) ==> NothingLost()
    {
      hide TablesOk, CeilDiv, SlotsOk, NoLostBlocks, NoLostSlots, Partition;
      if !needsBlocks {
        return Ok(true);
      }
      if r !in blockTables {
        return Raise(UnknownRequest);
      }
      TableFits(blockTables, contextLengths, allocator.usedBlocks, blockSize, r);
      var len := contextLengths[r];
      CeilDivStep(len, blockSize);
      var newBlocks := [];
      if len % blockSize == 0 {
        newBlocks := allocator.Allocate(1);
        if newBlocks == [] {
          return Ok(false);
        }
      }
      assert allocator.usedBlocks == old(allocator.usedBlocks) + SetOf(newBlocks);
      GrowTable(blockTables, contextLengths, old(allocator.usedBlocks), blockSize, r, newBlocks);
      blockTables := blockTables[r := blockTables[r] + newBlocks];
      contextLengths := contextLengths[r := contextLengths[r] + 1];
      ok := Ok(true);
    }
  }

  /** With slots only, allocating twice for the same request forgets the first slot. */
  method ForgottenSlot() returns (m: CacheManager, first: bool, second: bool)
    ensures fresh(m) && m.Valid() && first && second && !m.NothingLost()
    ensures m.requestSlots.Keys == {"r"} && m.slotAllocator.freeSlots == []
  {
    m := new CacheManager(0, 1, 2, false, true);
    first := m.AllocateRequest("r", 1);
    second := m.AllocateRequest("r", 1);
  }
}
