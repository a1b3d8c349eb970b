/**
 The data received on one connection: a chain of blocks in the ring buffer, linked by their addresses, read as one
 queue of bytes.
 */
module GateChains {
  import opened Wrappers
  import opened Bytes
  import opened GateRing

  /** The address in the `next` field of the k-th block of a chain. */
  function NextOf(chain: seq<nat>, k: nat): int
    requires k < |chain|
  {
    if k + 1 < |chain| then chain[k + 1] else -1
  }

  ghost predicate Linked(blocks: Blocks, chain: seq<nat>, k: nat)
    requires k < |chain|
  {
    && chain[k] in blocks
    && var b := blocks[chain[k]];
       0 <= b.offset && HEADER + b.offset <= b.length && (k > 0 ==> b.offset == 0) && b.next == NextOf(chain, k)
  }

  /** The blocks of a chain follow each other by their next fields, and connection id owns them. */
  ghost predicate Chained(blocks: Blocks, chain: seq<nat>, id: int)
  {
    chain != [] && id >= 0 && forall k :: 0 <= k < |chain| ==> Linked(blocks, chain, k) && blocks[chain[k]].id == id
  }

  /** The bytes of a block that have not been read. */
  ghost function Payload(mem: seq<byte>, o: nat, b: Block): (s: seq<byte>)
  {
    var from := o + HEADER + b.offset;
    if 0 <= from <= o + b.length <= |mem| then mem[from..o + b.length] else []
  }

  /** The bytes from the k-th block of a chain on. */
  ghost function Data(mem: seq<byte>, blocks: Blocks, chain: seq<nat>, k: nat): seq<byte>
    requires k <= |chain|
    decreases |chain| - k
  {
    if k == |chain| || chain[k] !in blocks then [] else Payload(mem, chain[k], blocks[chain[k]]) + Data(mem, blocks, chain, k + 1)
  }

  /** How many bytes lie before the k-th block. */
  ghost function Before(mem: seq<byte>, blocks: Blocks, chain: seq<nat>, k: nat): nat
    requires k <= |chain|
  {
    if k == 0 || chain[k - 1] !in blocks then 0 else Before(mem, blocks, chain, k - 1) + |Payload(mem, chain[k - 1], blocks[chain[k - 1]])|
  }

  function Drop(s: seq<byte>, n: nat): seq<byte>
  {
    if n <= |s| then s[n..] else []
  }

  lemma DropMore(a: seq<byte>, b: seq<byte>, n: nat)
    ensures n >= |a| ==> Drop(a + b, n) == Drop(b, n - |a|)
    ensures n <= |a| ==> Drop(a + b, n) == a[n..] + b
  {
  }

  /** No block occurs twice in a chain: its last block has no next one. */
  lemma {:induction false} Distinct(blocks: Blocks, chain: seq<nat>, id: int, i: nat, j: nat)
    requires Chained(blocks, chain, id) && i < j < |chain|
    ensures chain[i] != chain[j]
    decreases |chain| - j
  {
    assert Linked(blocks, chain, i) && Linked(blocks, chain, j);
    if j + 1 < |chain| {
      Distinct(blocks, chain, id, i + 1, j + 1);
    }
  }

  /** Bytes and lengths of a chain depend on the payloads only. */
  lemma {:induction false} DataFrame(mem: seq<byte>, blocks: Blocks, mem': seq<byte>, blocks': Blocks, chain: seq<nat>, k: nat)
    requires k <= |chain|
    requires forall j :: k <= j < |chain| ==> (chain[j] in blocks <==> chain[j] in blocks')
    requires forall j :: k <= j < |chain| && chain[j] in blocks ==> Payload(mem', chain[j], blocks'[chain[j]]) == Payload(mem, chain[j], blocks[chain[j]])
    ensures Data(mem', blocks', chain, k) == Data(mem, blocks, chain, k)
    decreases |chain| - k
  {
    hide Payload;
    if k < |chain| {
      DataFrame(mem, blocks, mem', blocks', chain, k + 1);
    }
  }

  /** The tail of a chain. */
  lemma {:induction false} DataTail(mem: seq<byte>, blocks: Blocks, chain: seq<nat>, m: nat, k: nat)
    requires m <= k <= |chain|
    ensures Data(mem, blocks, chain[m..], k - m) == Data(mem, blocks, chain, k)
    decreases |chain| - k
  {
    hide Payload;
    if k < |chain| {
      DataTail(mem, blocks, chain, m, k + 1);
      assert chain[m..][k - m] == chain[k];
    }
  }

  lemma {:induction false} DataConcat(mem: seq<byte>, blocks: Blocks, a: seq<nat>, b: seq<nat>, k: nat)
    requires k <= |a| && (forall j :: 0 <= j < |a| ==> a[j] in blocks)
    ensures Data(mem, blocks, a + b, k) == Data(mem, blocks, a, k) + Data(mem, blocks, b, 0)
    decreases |a| - k
  {
    hide Payload;
    if k == |a| {
      DataTail(mem, blocks, a + b, |a|, |a|);
      assert (a + b)[|a|..] == b;
    } else {
      DataConcat(mem, blocks, a, b, k + 1);
    }
  }

  /** The header fields of a block in a chain, as the code reads them. */
  lemma ChainBlock(rb: RingBuffer, chain: seq<nat>, id: int, k: nat)
    requires rb.Valid() && Chained(rb.blocks, chain, id) && k < |chain|
    ensures chain[k] in rb.blocks && chain[k] + HEADER <= |rb.mem| && chain[k] + rb.blocks[chain[k]].length <= |rb.mem|
    ensures rb.blocks[chain[k]] == Block(GetInt(rb.mem, chain[k]), GetInt(rb.mem, chain[k] + 4), id, NextOf(chain, k))
    ensures GetInt(rb.mem, chain[k] + 12) == NextOf(chain, k)
    ensures 0 <= rb.blocks[chain[k]].offset && HEADER + rb.blocks[chain[k]].offset <= rb.blocks[chain[k]].length
    ensures k > 0 ==> rb.blocks[chain[k]].offset == 0
    ensures |Payload(rb.mem, chain[k], rb.blocks[chain[k]])| == rb.blocks[chain[k]].length - HEADER - rb.blocks[chain[k]].offset
  {
    hide GetInt, Tiled, Headers;
    assert Linked(rb.blocks, chain, k);
    rb.BlockAt(chain[k]);
    rb.IdAt(chain[k]);
  }

  ghost function PayloadAt(mem: seq<byte>, blocks: Blocks, chain: seq<nat>, k: nat): seq<byte>
    requires k < |chain| && chain[k] in blocks
  {
    Payload(mem, chain[k], blocks[chain[k]])
  }

  /** The bytes of the whole chain. */
  ghost function Content(rb: RingBuffer, chain: seq<nat>): seq<byte>
    reads rb
  {
    Data(rb.mem, rb.blocks, chain, 0)
  }

  lemma InAt(blocks: Blocks, chain: seq<nat>, id: int, k: nat)
    requires Chained(blocks, chain, id) && k < |chain|
    ensures chain[k] in blocks
  {
    assert Linked(blocks, chain, k);
  }

  lemma {:induction false} SizeSplit(mem: seq<byte>, blocks: Blocks, chain: seq<nat>, id: int, k: nat)
    requires Chained(blocks, chain, id) && k <= |chain|
    ensures Before(mem, blocks, chain, k) + |Data(mem, blocks, chain, k)| == |Data(mem, blocks, chain, 0)|
  {
    hide Payload, Chained;
    if k > 0 {
      SizeSplit(mem, blocks, chain, id, k - 1);
      InAt(blocks, chain, id, k - 1);
    }
  }

  /** Where a walk over the chain that has `left` bytes still to skip stands. */
  ghost predicate Walking(mem: seq<byte>, blocks: Blocks, chain: seq<nat>, id: int, skip: nat, k: nat, left: nat)
  {
    && Chained(blocks, chain, id) && k < |chain| && skip == Before(mem, blocks, chain, k) + left
    && skip <= |Data(mem, blocks, chain, 0)|
    && Drop(Data(mem, blocks, chain, 0), skip) == Drop(Data(mem, blocks, chain, k), left)
  }

  lemma WalkStart(mem: seq<byte>, blocks: Blocks, chain: seq<nat>, id: int, skip: nat)
    requires Chained(blocks, chain, id) && skip <= |Data(mem, blocks, chain, 0)|
    ensures |chain| > 0 && Walking(mem, blocks, chain, id, skip, 0, skip)
  {
  }

  /** ChainBlock at the block where the walk stands. */
  lemma WalkHere(rb: RingBuffer, chain: seq<nat>, id: int, skip: nat, k: nat, left: nat)
    requires rb.Valid() && Walking(rb.mem, rb.blocks, chain, id, skip, k, left)
    ensures Chained(rb.blocks, chain, id) && skip == Before(rb.mem, rb.blocks, chain, k) + left && skip <= |Content(rb, chain)|
    ensures k < |chain| && chain[k] in rb.blocks && chain[k] + HEADER <= |rb.mem| && chain[k] + rb.blocks[chain[k]].length <= |rb.mem|
    ensures rb.blocks[chain[k]].offset == GetInt(rb.mem, chain[k] + 4) >= 0 && HEADER + rb.blocks[chain[k]].offset <= rb.blocks[chain[k]].length
    ensures |Drop(Content(rb, chain), skip)| == |Content(rb, chain)| - skip
  {
    hide GetInt, Payload, Data, Before, Chained;
    ChainBlock(rb, chain, id, k);
  }

  /** The lengths that the code computes there. */
  lemma WalkBlock(rb: RingBuffer, chain: seq<nat>, id: int, skip: nat, k: nat, left: nat)
    requires rb.Valid() && Walking(rb.mem, rb.blocks, chain, id, skip, k, left)
    ensures k < |chain| && chain[k] in rb.blocks && chain[k] + HEADER <= |rb.mem| && Before(rb.mem, rb.blocks, chain, k) <= skip
    ensures GetInt(rb.mem, chain[k] + 12) == NextOf(chain, k)
    ensures |PayloadAt(rb.mem, rb.blocks, chain, k)| == GetInt(rb.mem, chain[k]) - HEADER - GetInt(rb.mem, chain[k] + 4)
  {
    hide GetInt, Payload, Data, Before, Drop, Chained;
    ChainBlock(rb, chain, id, k);
  }

  /** All bytes of the block are skipped. */
  lemma WalkOver(mem: seq<byte>, blocks: Blocks, chain: seq<nat>, id: int, skip: nat, k: nat, left: nat)
    requires Walking(mem, blocks, chain, id, skip, k, left) && chain[k] in blocks && |PayloadAt(mem, blocks, chain, k)| <= left
    ensures Before(mem, blocks, chain, k + 1) == Before(mem, blocks, chain, k) + |PayloadAt(mem, blocks, chain, k)|
    ensures k + 1 < |chain| ==> Walking(mem, blocks, chain, id, skip, k + 1, left - |PayloadAt(mem, blocks, chain, k)|)
    ensures k + 1 == |chain| ==> left == |PayloadAt(mem, blocks, chain, k)| && skip == |Data(mem, blocks, chain, 0)|
  {
    hide Payload, Chained, Drop;
    SizeSplit(mem, blocks, chain, id, k + 1);
    DropMore(PayloadAt(mem, blocks, chain, k), Data(mem, blocks, chain, k + 1), left);
  }

  /** Some byte of the block is not skipped. */
  lemma WalkInside(mem: seq<byte>, blocks: Blocks, chain: seq<nat>, id: int, skip: nat, k: nat, left: nat)
    requires Walking(mem, blocks, chain, id, skip, k, left) && chain[k] in blocks && left <= |PayloadAt(mem, blocks, chain, k)|
    ensures Before(mem, blocks, chain, k + 1) == Before(mem, blocks, chain, k) + |PayloadAt(mem, blocks, chain, k)| <= |Data(mem, blocks, chain, 0)|
    ensures left < |PayloadAt(mem, blocks, chain, k)| ==> skip < Before(mem, blocks, chain, k + 1)
    ensures Drop(Data(mem, blocks, chain, 0), skip) == PayloadAt(mem, blocks, chain, k)[left..] + Data(mem, blocks, chain, k + 1)
  {
    hide Payload, Chained, Drop;
    SizeSplit(mem, blocks, chain, id, k + 1);
    DropMore(PayloadAt(mem, blocks, chain, k), Data(mem, blocks, chain, k + 1), left);
  }

  lemma Slice(mem: seq<byte>, lo: nat, hi: nat, a: nat, n: nat)
    requires lo <= hi <= |mem| && lo + a + n <= hi
    ensures mem[lo..hi][a..][..n] == mem[lo + a..lo + a + n]
  {
  }

  /** The bytes from `left` on, in place. */
  lemma InPlace(mem: seq<byte>, o: nat, b: Block, left: nat, size: nat)
    requires left + size <= |Payload(mem, o, b)| && b.offset >= 0 && HEADER + b.offset <= b.length && o + b.length <= |mem|
    ensures var p := o + HEADER + b.offset + left; p + size <= |mem| && mem[p..p + size] == Payload(mem, o, b)[left..][..size]
  {
    Slice(mem, o + HEADER + b.offset, o + b.length, left, size);
  }

  /** ringbuffer_data: how many bytes there are behind `skip`, and where they lie if they are in one block. */
  method RingData(rb: RingBuffer, h: nat, size: nat, skip: nat, ghost chain: seq<nat>, ghost id: int) returns (n: nat, ptr: Option<nat>, ghost k: nat)
    requires rb.Valid() && Chained(rb.blocks, chain, id) && chain[0] == h && skip <= |Content(rb, chain)|
    ensures n == if size <= |Content(rb, chain)| - skip then size else |Content(rb, chain)| - skip
    ensures ptr.Some? ==> n == size && ptr.value + size <= |rb.mem| && rb.mem[ptr.value..ptr.value + size] == Drop(Content(rb, chain), skip)[..size]
    ensures k < |chain| && Before(rb.mem, rb.blocks, chain, k) <= skip && (skip < Before(rb.mem, rb.blocks, chain, k + 1) || skip == |Content(rb, chain)|)
    ensures ptr.Some? <==> skip < |Content(rb, chain)| && skip + size <= Before(rb.mem, rb.blocks, chain, k + 1)
  {
    hide GetInt, Payload, Data, Before, Drop, Walking, Chained, Tiled, Headers, PayloadAt;
    var blk: nat, left: nat := h, skip;
    k := 0;
    WalkStart(rb.mem, rb.blocks, chain, id, skip);
    while true
      invariant k < |chain| && Walking(rb.mem, rb.blocks, chain, id, skip, k, left) && blk == chain[k]
      decreases |chain| - k
    {
      WalkBlock(rb, chain, id, skip, k, left);
      var length := GetInt(rb.mem, blk) - HEADER - GetInt(rb.mem, blk + 4);
      if length > left {
        WalkInside(rb.mem, rb.blocks, chain, id, skip, k, left);
        n, ptr := InBlock(rb, blk, length, left, size, skip, chain, id, k);
        return;
      }
      WalkOver(rb.mem, rb.blocks, chain, id, skip, k, left);
      var next := GetInt(rb.mem, blk + 12);
      if next < 0 {
        return 0, None, k;
      }
      blk, left, k := next, left - length, k + 1;
    }
  }

  /** The branch of ringbuffer_data that has found the block with the first byte wanted. */
  method InBlock(rb: RingBuffer, blk: nat, length: nat, left: nat, size: nat, ghost skip: nat, ghost chain: seq<nat>, ghost id: int, ghost k: nat) returns (n: nat, ptr: Option<nat>)
    requires rb.Valid() && Walking(rb.mem, rb.blocks, chain, id, skip, k, left) && blk == chain[k] && blk in rb.blocks && length == |PayloadAt(rb.mem, rb.blocks, chain, k)| > left
    requires Before(rb.mem, rb.blocks, chain, k + 1) == Before(rb.mem, rb.blocks, chain, k) + length <= |Content(rb, chain)|
    requires Drop(Content(rb, chain), skip) == PayloadAt(rb.mem, rb.blocks, chain, k)[left..] + Data(rb.mem, rb.blocks, chain, k + 1)
    ensures n == if size <= |Content(rb, chain)| - skip then size else |Content(rb, chain)| - skip
    ensures ptr.Some? ==> n == size && ptr.value + size <= |rb.mem| && rb.mem[ptr.value..ptr.value + size] == Drop(Content(rb, chain), skip)[..size]
    ensures ptr.Some? <==> skip + size <= Before(rb.mem, rb.blocks, chain, k + 1)
  {
    hide GetInt, Payload, Data, Before, Drop, Walking, Chained, Tiled, Headers;
    WalkHere(rb, chain, id, skip, k, left);
    if length - left >= size {
      InPlace(rb.mem, blk, rb.blocks[blk], left, size);
      assert Drop(Content(rb, chain), skip)[..size] == PayloadAt(rb.mem, rb.blocks, chain, k)[left..][..size];
      return size, Some(blk + HEADER + GetInt(rb.mem, blk + 4) + left);
    }
    n := CountOn(rb, blk, length - left, size, skip, chain, id, k);
    ptr := None;
  }

  /** The lengths of the blocks behind are added up to `size`. */
  method CountOn(rb: RingBuffer, blk: nat, first: nat, size: nat, ghost skip: nat, ghost chain: seq<nat>, ghost id: int, ghost k: nat) returns (n: nat)
    requires rb.Valid() && Chained(rb.blocks, chain, id) && k < |chain| && blk == chain[k] && first + skip == Before(rb.mem, rb.blocks, chain, k + 1) && first < size
    ensures |Content(rb, chain)| >= skip
    ensures n == if size <= |Content(rb, chain)| - skip then size else |Content(rb, chain)| - skip
  {
    hide GetInt, Payload, Data, Before, Tiled, Headers, Chained;
    var b: nat := blk;
    n := first;
    ghost var j := k;
    SizeSplit(rb.mem, rb.blocks, chain, id, j + 1);
    while true
      invariant j < |chain| && b == chain[j]
      invariant n + skip == Before(rb.mem, rb.blocks, chain, j + 1) <= |Content(rb, chain)| && n < size
      decreases |chain| - j
    {
      ChainBlock(rb, chain, id, j);
      var next := GetInt(rb.mem, b + 12);
      if next < 0 {
        SizeSplit(rb.mem, rb.blocks, chain, id, j + 1);
        NoData(rb, chain);
        return;
      }
      j := j + 1;
      b := next;
      ChainBlock(rb, chain, id, j);
      SizeSplit(rb.mem, rb.blocks, chain, id, j + 1);
      PassedMore(rb, chain, j);
      n := n + (GetInt(rb.mem, b) - HEADER);
      if n >= size {
        return size;
      }
    }
  }

  lemma NoData(rb: RingBuffer, chain: seq<nat>)
    ensures |Data(rb.mem, rb.blocks, chain, |chain|)| == 0
  {
  }

  lemma PassedMore(rb: RingBuffer, chain: seq<nat>, j: nat)
    requires j < |chain| && chain[j] in rb.blocks
    ensures Before(rb.mem, rb.blocks, chain, j + 1) == Before(rb.mem, rb.blocks, chain, j) + |PayloadAt(rb.mem, rb.blocks, chain, j)|
  {
  }

  // ---------- giving bytes back ----------

  /** The first k blocks of a chain have lost their owner; no other header has changed. */
  ghost predicate FreedPrefix(before: Blocks, after: Blocks, chain: seq<nat>, k: nat)
  {
    k <= |chain| && after.Keys == before.Keys
    && forall p :: p in before ==> after[p] == if p in chain[..k] then before[p].(id := -1) else before[p]
  }

  lemma FreedNone(blocks: Blocks, chain: seq<nat>)
    ensures FreedPrefix(blocks, blocks, chain, 0)
  {
  }

  lemma FreedNext(before: Blocks, after: Blocks, chain: seq<nat>, k: nat)
    requires FreedPrefix(before, after, chain, k) && k < |chain| && chain[k] in before
    ensures FreedPrefix(before, after[chain[k] := before[chain[k]].(id := -1)], chain, k + 1)
  {
    assert chain[..k + 1] == chain[..k] + [chain[k]];
  }

  /** The blocks from k on are still as they were. */
  lemma NotYetFreed(before: Blocks, after: Blocks, chain: seq<nat>, id: int, k: nat, j: nat)
    requires Chained(before, chain, id) && FreedPrefix(before, after, chain, k) && k <= j < |chain|
    ensures chain[j] in before && chain[j] in after && after[chain[j]] == before[chain[j]]
  {
    hide Linked;
    InAt(before, chain, id, j);
    forall i | 0 <= i < k
      ensures chain[i] != chain[j]
    {
      Distinct(before, chain, id, i, j);
    }
  }

  lemma PayloadSame(mem: seq<byte>, mem': seq<byte>, o: nat, b: Block)
    requires b.length >= 0 && b.offset >= 0 && SameRange(mem, mem', o + HEADER, o + b.length)
    ensures Payload(mem', o, b) == Payload(mem, o, b)
  {
  }

  /** The current block of a walk that frees what it has passed. */
  lemma FreeingBlock(rb: RingBuffer, m0: seq<byte>, b0: Blocks, chain: seq<nat>, id: int, k: nat)
    requires rb.Valid() && Chained(b0, chain, id) && FreedPrefix(b0, rb.blocks, chain, k) && k < |chain| && |m0| == |rb.mem|
    ensures var o := chain[k]; o in rb.blocks && o in b0 && rb.blocks[o] == b0[o] && o + HEADER <= |rb.mem| && rb.blocks[o].length >= HEADER
    ensures var o := chain[k]; rb.blocks[o] == Block(GetInt(rb.mem, o), GetInt(rb.mem, o + 4), id, NextOf(chain, k)) && GetInt(rb.mem, o + 12) == NextOf(chain, k)
    ensures var o := chain[k]; o + rb.blocks[o].length <= |m0| && 0 <= rb.blocks[o].offset && HEADER + rb.blocks[o].offset <= rb.blocks[o].length
    ensures |PayloadAt(m0, b0, chain, k)| == GetInt(rb.mem, chain[k]) - HEADER - GetInt(rb.mem, chain[k] + 4)
  {
    hide GetInt, Tiled, Headers, FreedPrefix;
    NotYetFreed(b0, rb.blocks, chain, id, k, k);
    assert Linked(b0, chain, k);
    rb.BlockAt(chain[k]);
    rb.IdAt(chain[k]);
  }

  /** The chain that is left when its first block has lost `left` bytes. */
  lemma YieldedTail(m0: seq<byte>, b0: Blocks, m1: seq<byte>, b1: Blocks, chain: seq<nat>, id: int, k: nat, left: nat)
    requires Chained(b0, chain, id) && k < |chain| && chain[k] in b0 && PayloadKept(m0, m1, b0)
    requires chain[k] + b0[chain[k]].length <= |m0| && left < |PayloadAt(m0, b0, chain, k)|
    requires chain[k] in b1 && b1[chain[k]] == b0[chain[k]].(offset := b0[chain[k]].offset + left)
    requires forall j :: k < j < |chain| ==> chain[j] in b0 && chain[j] in b1 && b1[chain[j]] == b0[chain[j]]
    ensures Chained(b1, chain[k..], id)
    ensures Data(m1, b1, chain[k..], 0) == PayloadAt(m0, b0, chain, k)[left..] + Data(m0, b0, chain, k + 1)
  {
    hide Payload;
    YieldedChain(m0, b0, b1, chain, id, k, left);
    DataTail(m1, b1, chain, k, k);
    forall j | k < j < |chain|
      ensures Payload(m1, chain[j], b1[chain[j]]) == Payload(m0, chain[j], b0[chain[j]])
    {
      assert Linked(b0, chain, j);
      PayloadSame(m0, m1, chain[j], b0[chain[j]]);
    }
    DataFrame(m0, b0, m1, b1, chain, k + 1);
    assert Linked(b0, chain, k);
    PayloadSame(m0, m1, chain[k], b1[chain[k]]);
    PayloadLater(m0, chain[k], b0[chain[k]], left);
  }

  lemma PayloadLater(mem: seq<byte>, o: nat, b: Block, left: nat)
    requires left <= |Payload(mem, o, b)| && b.offset >= 0
    ensures o + b.length <= |mem| && HEADER + b.offset <= b.length ==> Payload(mem, o, b.(offset := b.offset + left)) == Payload(mem, o, b)[left..]
  {
  }

  lemma YieldedChain(m0: seq<byte>, b0: Blocks, b1: Blocks, chain: seq<nat>, id: int, k: nat, left: nat)
    requires Chained(b0, chain, id) && k < |chain| && chain[k] in b0 && chain[k] + b0[chain[k]].length <= |m0| && left < |PayloadAt(m0, b0, chain, k)|
    requires chain[k] in b1 && b1[chain[k]] == b0[chain[k]].(offset := b0[chain[k]].offset + left)
    requires forall j :: k < j < |chain| ==> chain[j] in b0 && chain[j] in b1 && b1[chain[j]] == b0[chain[j]]
    ensures Chained(b1, chain[k..], id)
  {
    var tail := chain[k..];
    forall j | 0 <= j < |tail|
      ensures Linked(b1, tail, j) && b1[tail[j]].id == id
    {
      assert Linked(b0, chain, k + j);
    }
  }

  /**
   ringbuffer_yield: `skip` bytes are given back. What is left of the chain holds exactly the other
   bytes, and exactly the blocks that have been used up are free.
   */
  method RingYield(rb: RingBuffer, h: nat, skip: nat, ghost chain: seq<nat>, ghost id: int) returns (rest: Option<nat>, ghost k: nat)
    requires rb.Valid() && Chained(rb.blocks, chain, id) && chain[0] == h && skip <= |Content(rb, chain)|
    modifies rb
    ensures rb.Valid() && PayloadKept(old(rb.mem), rb.mem, old(rb.blocks))
    ensures rest.None? <==> skip == old(|Content(rb, chain)|)
    ensures rest.None? ==> FreedPrefix(old(rb.blocks), rb.blocks, chain, |chain|)
    ensures rest.Some? ==> k < |chain| && rest.value == chain[k] && Chained(rb.blocks, chain[k..], id)
    ensures rest.Some? ==> Content(rb, chain[k..]) == old(Content(rb, chain))[skip..]
    ensures rest.Some? ==> Before(old(rb.mem), old(rb.blocks), chain, k) <= skip < Before(old(rb.mem), old(rb.blocks), chain, k + 1)
    ensures rest.Some? ==> chain[k] in rb.blocks && chain[k] in old(rb.blocks)
    ensures rest.Some? ==> FreedPrefix(old(rb.blocks), rb.blocks[chain[k] := old(rb.blocks)[chain[k]]], chain, k)
  {
    hide GetInt, Payload, PayloadAt, Data, Before, Walking, Chained, Tiled, Headers, FreedPrefix, PayloadKept;
    var blk: nat, left: nat := h, skip;
    k := 0;
    WalkStart(rb.mem, rb.blocks, chain, id, skip);
    FreedNone(rb.blocks, chain);
    KeptSame(rb.mem, rb.blocks);
    while true
      invariant k < |chain| && blk == chain[k] && Walking(old(rb.mem), old(rb.blocks), chain, id, skip, k, left)
      invariant rb.Valid() && FreedPrefix(old(rb.blocks), rb.blocks, chain, k) && PayloadKept(old(rb.mem), rb.mem, old(rb.blocks))
      decreases |chain| - k
    {
      FreeingBlock(rb, old(rb.mem), old(rb.blocks), chain, id, k);
      var length, offset := GetInt(rb.mem, blk), GetInt(rb.mem, blk + 4);
      var next := GetInt(rb.mem, blk + 12);
      if length - HEADER - offset > left {
        KeepSuffix(rb, blk, length, offset + left, next, old(rb.mem), old(rb.blocks), skip, chain, id, k, left);
        return Some(blk), k;
      }
      WalkOver(old(rb.mem), old(rb.blocks), chain, id, skip, k, left);
      FreeBlock(rb, blk, old(rb.mem), old(rb.blocks), chain, id, k);
      if next < 0 {
        return None, k;
      }
      blk, left, k := next, left - (length - HEADER - offset), k + 1;
    }
  }

  /** A block of the chain loses its owner. */
  method FreeBlock(rb: RingBuffer, blk: nat, ghost m0: seq<byte>, ghost b0: Blocks, ghost chain: seq<nat>, ghost id: int, ghost k: nat)
    requires rb.Valid() && Chained(b0, chain, id) && FreedPrefix(b0, rb.blocks, chain, k) && PayloadKept(m0, rb.mem, b0)
    requires k < |chain| && blk == chain[k]
    modifies rb
    ensures rb.Valid() && FreedPrefix(b0, rb.blocks, chain, k + 1) && PayloadKept(m0, rb.mem, b0)
  {
    hide GetInt, Payload, PayloadAt, Data, Chained, Tiled, Headers, PayloadKept;
    SameSize(m0, rb.mem, b0);
    FreeingBlock(rb, m0, b0, chain, id, k);
    FreedNext(b0, rb.blocks, chain, k);
    ghost var m, b := rb.mem, rb.blocks;
    rb.SetHeader(blk, Block(GetInt(rb.mem, blk), GetInt(rb.mem, blk + 4), -1, GetInt(rb.mem, blk + 12)));
    HeaderKeepsPayload(m0, m, rb.mem, b0, b, rb.size, blk);
  }

  lemma SameSize(mem: seq<byte>, mem': seq<byte>, blocks: Blocks)
    requires PayloadKept(mem, mem', blocks)
    ensures |mem| == |mem'|
  {
  }

  /** The block in which the skipped bytes end moves its offset. */
  method KeepSuffix(rb: RingBuffer, blk: nat, length: int, offset: int, next: int, ghost m0: seq<byte>, ghost b0: Blocks, ghost skip: nat, ghost chain: seq<nat>, ghost id: int, ghost k: nat, ghost left: nat)
    requires rb.Valid() && Walking(m0, b0, chain, id, skip, k, left) && FreedPrefix(b0, rb.blocks, chain, k) && PayloadKept(m0, rb.mem, b0)
    requires k < |chain| && blk == chain[k] && blk in rb.blocks && rb.blocks[blk].length >= HEADER && blk in b0
    requires Block(length, offset - left, id, next) == rb.blocks[blk] && left < length - HEADER - (offset - left) == |PayloadAt(m0, b0, chain, k)| && offset >= left
    modifies rb
    ensures rb.Valid() && PayloadKept(m0, rb.mem, b0) && Chained(rb.blocks, chain[k..], id)
    ensures Content(rb, chain[k..]) == Drop(Data(m0, b0, chain, 0), skip)
    ensures Before(m0, b0, chain, k) <= skip < Before(m0, b0, chain, k + 1) <= |Data(m0, b0, chain, 0)|
    ensures blk in rb.blocks && FreedPrefix(b0, rb.blocks[blk := b0[blk]], chain, k)
  {
    hide GetInt, Payload, Data, Before, Drop, Chained, Tiled, Headers, PayloadKept, PayloadAt;
    SameSize(m0, rb.mem, b0);
    FreeingBlock(rb, m0, b0, chain, id, k);
    WalkInside(m0, b0, chain, id, skip, k, left);
    ghost var m, b := rb.mem, rb.blocks;
    assert b[blk := b[blk]] == b;
    rb.IdAt(blk);
    rb.SetHeader(blk, Block(length, offset, GetInt(rb.mem, blk + 8), next));
    HeaderKeepsPayload(m0, m, rb.mem, b0, b, rb.size, blk);
    forall j | k < j < |chain|
      ensures chain[j] in b0 && chain[j] in rb.blocks && rb.blocks[chain[j]] == b0[chain[j]]
    {
      NotYetFreed(b0, b, chain, id, k, j);
      Distinct(b0, chain, id, k, j);
    }
    YieldedTail(m0, b0, rb.mem, rb.blocks, chain, id, k, left);
  }

  /** ringbuffer_free: all blocks of the chain lose their owner. */
  method RingFree(rb: RingBuffer, h: nat, ghost chain: seq<nat>, ghost id: int)
    requires rb.Valid() && Chained(rb.blocks, chain, id) && chain[0] == h
    modifies rb
    ensures rb.Valid() && FreedPrefix(old(rb.blocks), rb.blocks, chain, |chain|) && PayloadKept(old(rb.mem), rb.mem, old(rb.blocks))
  {
    hide GetInt, Payload, PayloadAt, Data, Chained, Tiled, Headers, PayloadKept, FreedPrefix;
    var blk: nat := h;
    ghost var k := 0;
    FreedNone(rb.blocks, chain);
    KeptSame(rb.mem, rb.blocks);
    assert |chain| > 0 by { NotEmpty(rb.blocks, chain, id); }
    while true
      invariant k < |chain| && blk == chain[k] && Chained(old(rb.blocks), chain, id)
      invariant rb.Valid() && FreedPrefix(old(rb.blocks), rb.blocks, chain, k) && PayloadKept(old(rb.mem), rb.mem, old(rb.blocks))
      decreases |chain| - k
    {
      SameSize(old(rb.mem), rb.mem, old(rb.blocks));
      FreeingBlock(rb, old(rb.mem), old(rb.blocks), chain, id, k);
      var next := GetInt(rb.mem, blk + 12);
      FreeBlock(rb, blk, old(rb.mem), old(rb.blocks), chain, id, k);
      if next < 0 {
        return;
      }
      blk, k := next, k + 1;
    }
  }

  lemma NotEmpty(blocks: Blocks, chain: seq<nat>, id: int)
    requires Chained(blocks, chain, id)
    ensures |chain| > 0
  {
  }

  // ---------- appending ----------

  /** The last block of a chain, found by its next fields. */
  method LastBlock(rb: RingBuffer, h: nat, ghost chain: seq<nat>, ghost id: int) returns (last: nat)
    requires rb.Valid() && Chained(rb.blocks, chain, id) && chain[0] == h
    ensures last == chain[|chain| - 1]
  {
    hide GetInt, Payload, Chained, Tiled, Headers;
    last := h;
    ghost var k := 0;
    assert |chain| > 0 by { NotEmpty(rb.blocks, chain, id); }
    ChainBlock(rb, chain, id, 0);
    while GetInt(rb.mem, last + 12) >= 0
      invariant k < |chain| && last == chain[k] && last + HEADER <= |rb.mem| && GetInt(rb.mem, last + 12) == NextOf(chain, k)
      decreases |chain| - k
    {
      last, k := GetInt(rb.mem, last + 12), k + 1;
      ChainBlock(rb, chain, id, k);
    }
  }

  /** What ringbuffer_link does to the headers. */
  ghost function LinkedUp(blocks: Blocks, last: nat, next: nat, id: int): Blocks
    requires last in blocks && next in blocks
  {
    blocks[next := blocks[next].(id := id)][last := blocks[last].(next := next)]
  }

  /** `tail` would be a chain of connection id if its first block were. */
  ghost predicate Appendable(blocks: Blocks, chain: seq<nat>, tail: seq<nat>, id: int)
  {
    && tail != [] && tail[0] in blocks && blocks[tail[0]].length >= HEADER && blocks[tail[0]].offset == 0
    && Chained(blocks[tail[0] := blocks[tail[0]].(id := id)], tail, id)
    && (forall i, j :: 0 <= i < |chain| && 0 <= j < |tail| ==> chain[i] != tail[j])
  }

  lemma LinkedChain(blocks: Blocks, chain: seq<nat>, tail: seq<nat>, id: int)
    requires Chained(blocks, chain, id) && Appendable(blocks, chain, tail, id) && chain[|chain| - 1] in blocks
    ensures Chained(LinkedUp(blocks, chain[|chain| - 1], tail[0], id), chain + tail, id)
  {
    var last, n := chain[|chain| - 1], |chain|;
    var blocks' := LinkedUp(blocks, last, tail[0], id);
    var all := chain + tail;
    forall k | 0 <= k < |all|
      ensures Linked(blocks', all, k) && blocks'[all[k]].id == id
    {
      if k < n {
        assert Linked(blocks, chain, k);
        if k < n - 1 {
          Distinct(blocks, chain, id, k, n - 1);
        }
      } else {
        assert Linked(blocks[tail[0] := blocks[tail[0]].(id := id)], tail, k - n);
        assert all[k] == tail[k - n];
      }
    }
  }

  /** Content is the same if lengths, offsets and payload are. */
  lemma ContentSame(mem: seq<byte>, blocks: Blocks, mem': seq<byte>, blocks': Blocks, chain: seq<nat>)
    requires PayloadKept(mem, mem', blocks) && blocks'.Keys == blocks.Keys
    requires forall k :: 0 <= k < |chain| ==> chain[k] in blocks && blocks[chain[k]].length >= HEADER && blocks[chain[k]].offset >= 0
    requires forall p :: p in blocks ==> blocks'[p].length == blocks[p].length && blocks'[p].offset == blocks[p].offset
    ensures Data(mem', blocks', chain, 0) == Data(mem, blocks, chain, 0)
  {
    forall k | 0 <= k < |chain|
      ensures Payload(mem', chain[k], blocks'[chain[k]]) == Payload(mem, chain[k], blocks[chain[k]])
    {
      PayloadSame(mem, mem', chain[k], blocks[chain[k]]);
    }
    hide Payload;
    DataFrame(mem, blocks, mem', blocks', chain, 0);
  }

  lemma ChainLengths(blocks: Blocks, chain: seq<nat>, id: int)
    requires Chained(blocks, chain, id)
    ensures forall k :: 0 <= k < |chain| ==> chain[k] in blocks && blocks[chain[k]].length >= HEADER && blocks[chain[k]].offset >= 0
  {
    assert forall k :: 0 <= k < |chain| ==> Linked(blocks, chain, k);
  }

  /** ringbuffer_link: the bytes of the second chain come behind those of the first. */
  method RingLink(rb: RingBuffer, h: nat, next: nat, ghost chain: seq<nat>, ghost tail: seq<nat>, ghost id: int)
    requires rb.Valid() && Chained(rb.blocks, chain, id) && chain[0] == h && Appendable(rb.blocks, chain, tail, id) && tail[0] == next
    modifies rb
    ensures rb.Valid() && PayloadKept(old(rb.mem), rb.mem, old(rb.blocks)) && chain[|chain| - 1] in old(rb.blocks)
    ensures rb.blocks == LinkedUp(old(rb.blocks), chain[|chain| - 1], next, id) && Chained(rb.blocks, chain + tail, id)
    ensures Content(rb, chain + tail) == old(Content(rb, chain)) + old(Content(rb, tail))
  {
    hide GetInt, Payload, Data, Chained, Tiled, Headers, PayloadKept;
    ghost var m0, b0 := rb.mem, rb.blocks;
    ghost var bt := b0[tail[0] := b0[tail[0]].(id := id)];
    NotEmpty(b0, chain, id);
    NotEmpty(bt, tail, id);
    ChainLengths(b0, chain, id);
    ChainLengths(bt, tail, id);
    var last := LastBlock(rb, h, chain, id);
    LinkedChain(b0, chain, tail, id);
    WriteLink(rb, h, last, next, id, chain);
    ContentSame(m0, b0, rb.mem, rb.blocks, chain);
    ContentSame(m0, b0, rb.mem, rb.blocks, tail);
    DataConcat(rb.mem, rb.blocks, chain, tail, 0);
  }

  method WriteLink(rb: RingBuffer, h: nat, last: nat, next: nat, ghost id: int, ghost chain: seq<nat>)
    requires rb.Valid() && Chained(rb.blocks, chain, id) && chain[0] == h && last == chain[|chain| - 1]
    requires next in rb.blocks && last in rb.blocks && rb.blocks[next].length >= HEADER && rb.blocks[last].length >= HEADER && last != next
    modifies rb
    ensures rb.Valid() && PayloadKept(old(rb.mem), rb.mem, old(rb.blocks)) && rb.blocks == LinkedUp(old(rb.blocks), last, next, id)
  {
    hide GetInt, Payload, Data, Chained, Tiled, Headers, PayloadKept;
    ghost var m0, b0 := rb.mem, rb.blocks;
    assert |chain| > 0 by { NotEmpty(b0, chain, id); }
    ChainBlock(rb, chain, id, 0);
    rb.IdAt(h);
    rb.IdAt(next);
    KeptSame(m0, b0);
    var owner := GetInt(rb.mem, h + 8);
    rb.SetHeader(next, Block(GetInt(rb.mem, next), GetInt(rb.mem, next + 4), owner, GetInt(rb.mem, next + 12)));
    HeaderKeepsPayload(m0, m0, rb.mem, b0, b0, rb.size, next);
    ghost var m1, b1 := rb.mem, rb.blocks;
    rb.IdAt(last);
    assert Int32(next) by { rb.BlockAt(next); }
    rb.SetHeader(last, Block(GetInt(rb.mem, last), GetInt(rb.mem, last + 4), GetInt(rb.mem, last + 8), next));
    HeaderKeepsPayload(m0, m1, rb.mem, b0, b1, rb.size, last);
  }

  // ---------- copying ----------

  /** The block that holds the first byte behind `skip`. */
  method FindByte(rb: RingBuffer, h: nat, skip: nat, ghost chain: seq<nat>, ghost id: int) returns (blk: nat, left: nat, ghost k: nat)
    requires rb.Valid() && Chained(rb.blocks, chain, id) && chain[0] == h && skip < |Content(rb, chain)|
    ensures Walking(rb.mem, rb.blocks, chain, id, skip, k, left) && k < |chain| && blk == chain[k] && blk in rb.blocks
    ensures left < |PayloadAt(rb.mem, rb.blocks, chain, k)|
  {
    hide GetInt, Payload, Data, Before, Drop, Walking, Chained, Tiled, Headers, PayloadAt;
    blk, left, k := h, skip, 0;
    WalkStart(rb.mem, rb.blocks, chain, id, skip);
    while true
      invariant k < |chain| && Walking(rb.mem, rb.blocks, chain, id, skip, k, left) && blk == chain[k]
      decreases |chain| - k
    {
      WalkBlock(rb, chain, id, skip, k, left);
      var length := GetInt(rb.mem, blk) - HEADER - GetInt(rb.mem, blk + 4);
      if length > left {
        return;
      }
      WalkOver(rb.mem, rb.blocks, chain, id, skip, k, left);
      blk, left, k := GetInt(rb.mem, blk + 12), left - length, k + 1;
    }
  }

  /** Only the payload of block `to` differs from m0. */
  ghost predicate Filling(rb: RingBuffer, m0: seq<byte>, to: nat)
    reads rb
  {
    && rb.Valid() && to in rb.blocks && rb.blocks[to].length >= HEADER && to + rb.blocks[to].length <= |m0|
    && SameOutside(m0, rb.mem, to + HEADER, to + rb.blocks[to].length)
  }

  /** memcpy within the payload of block `to`, from another block. */
  method CopyBytes(rb: RingBuffer, to: nat, ptr: nat, src: nat, n: nat, ghost m0: seq<byte>, ghost o: nat)
    requires Filling(rb, m0, to) && to + HEADER <= ptr && ptr + n <= to + rb.blocks[to].length
    requires o in rb.blocks && o != to && rb.blocks[o].length >= HEADER && o + HEADER <= src && src + n <= o + rb.blocks[o].length <= |m0|
    modifies rb`mem
    ensures Filling(rb, m0, to) && rb.mem[to + HEADER..ptr + n] == old(rb.mem)[to + HEADER..ptr] + m0[src..src + n]
  {
    hide GetInt, Tiled, Headers, Align;
    var m := rb.mem[..ptr] + rb.mem[src..src + n] + rb.mem[ptr + n..];
    PayloadWritten(rb.mem, m, rb.blocks, rb.size, to);
    Elsewhere(rb.blocks, rb.size, to, o);
    assert rb.mem[src..src + n] == m0[src..src + n];
    assert m[to + HEADER..ptr + n] == rb.mem[to + HEADER..ptr] + rb.mem[src..src + n];
    rb.mem := m;
  }

  /** Headers do not notice what is written behind one of them. */
  lemma PayloadWritten(mem: seq<byte>, mem': seq<byte>, blocks: Blocks, size: nat, to: nat)
    requires Tiled(blocks, size) && Headers(mem, blocks) && to in blocks && blocks[to].length >= HEADER && |mem| == size
    requires SameOutside(mem, mem', to + HEADER, to + blocks[to].length)
    ensures Headers(mem', blocks)
  {
    hide GetInt, Align, Tiled, HeaderAt;
    forall p | p in blocks
      ensures HeaderAt(mem', p, blocks[p])
    {
      if p != to {
        Elsewhere(blocks, size, to, p);
        HeaderFrame(mem, mem', p, blocks[p]);
      } else {
        OwnHeader(mem, mem', to, blocks[to]);
      }
    }
  }

  lemma OwnHeader(mem: seq<byte>, mem': seq<byte>, o: nat, b: Block)
    requires HeaderAt(mem, o, b) && b.length >= HEADER && SameOutside(mem, mem', o + HEADER, o + b.length)
    ensures HeaderAt(mem', o, b)
  {
    hide GetInt;
    GetIntFrame(mem, mem', o);
    GetIntFrame(mem, mem', o + 4);
    GetIntFrame(mem, mem', o + 8);
    GetIntFrame(mem, mem', o + 12);
  }

  /** From byte `left` of the k-th block on there are at least `size` more. */
  ghost predicate Remaining(mem: seq<byte>, blocks: Blocks, chain: seq<nat>, k: nat, left: nat, size: nat)
  {
    k < |chain| && chain[k] in blocks && left <= |PayloadAt(mem, blocks, chain, k)| && left + size <= |Data(mem, blocks, chain, k)|
  }

  /** `size` bytes from byte `left` of the k-th block on. */
  ghost function Wanted(mem: seq<byte>, blocks: Blocks, chain: seq<nat>, k: nat, left: nat, size: nat): seq<byte>
    requires k <= |chain|
  {
    var d := Drop(Data(mem, blocks, chain, k), left);
    if size <= |d| then d[..size] else d
  }

  /** The wanted bytes: the rest of this block and then the next ones, or all of them here. */
  lemma WantedSplit(mem: seq<byte>, blocks: Blocks, chain: seq<nat>, id: int, k: nat, left: nat, size: nat)
    requires Chained(blocks, chain, id) && Remaining(mem, blocks, chain, k, left, size)
    ensures var p := PayloadAt(mem, blocks, chain, k);
            if |p| - left < size
            then Remaining(mem, blocks, chain, k + 1, 0, size - (|p| - left))
                 && Wanted(mem, blocks, chain, k, left, size) == p[left..] + Wanted(mem, blocks, chain, k + 1, 0, size - (|p| - left))
            else Wanted(mem, blocks, chain, k, left, size) == p[left..][..size]
  {
    hide Payload, Chained;
    var p := PayloadAt(mem, blocks, chain, k);
    DropMore(p, Data(mem, blocks, chain, k + 1), left);
    if |p| - left < size {
      assert k + 1 < |chain|;
      InAt(blocks, chain, id, k + 1);
    }
  }

  /** One round of the copy loop. */
  method CopyBlock(rb: RingBuffer, to: nat, ptr: nat, blk: nat, left: nat, size: nat, ghost m0: seq<byte>, ghost b0: Blocks, ghost chain: seq<nat>, ghost id: int, ghost k: nat, ghost want: seq<byte>) returns (length: nat, next: int)
    requires Filling(rb, m0, to) && Chained(b0, chain, id) && rb.blocks == b0 && to !in chain && size > 0
    requires Remaining(m0, b0, chain, k, left, size) && blk == chain[k] && to + HEADER <= ptr && ptr + size == to + b0[to].length
    requires rb.mem[to + HEADER..ptr] + Wanted(m0, b0, chain, k, left, size) == want
    modifies rb`mem
    ensures Filling(rb, m0, to) && length <= size
    ensures length == size ==> rb.mem[to + HEADER..ptr + length] == want
    ensures length < size ==> Remaining(m0, b0, chain, k + 1, 0, size - length) && next == chain[k + 1]
    ensures length < size ==> rb.mem[to + HEADER..ptr + length] + Wanted(m0, b0, chain, k + 1, 0, size - length) == want
  {
    hide GetInt, Payload, Wanted, Chained, Tiled, Headers;
    WantedSplit(m0, b0, chain, id, k, left, size);
    SourceBlock(rb, m0, b0, to, chain, id, k);
    var offset := GetInt(rb.mem, blk + 4);
    length := GetInt(rb.mem, blk) - HEADER - offset - left;
    next := GetInt(rb.mem, blk + 12);
    if length >= size {
      length := size;
    }
    InPlace(m0, blk, b0[blk], left, length);
    CopyBytes(rb, to, ptr, blk + HEADER + offset + left, length, m0, blk);
    Whole(PayloadAt(m0, b0, chain, k), left);
    if length < size {
      Associate3(old(rb.mem)[to + HEADER..ptr], PayloadAt(m0, b0, chain, k)[left..], Wanted(m0, b0, chain, k + 1, 0, size - length));
    }
  }

  lemma Whole(s: seq<byte>, left: nat)
    requires left <= |s|
    ensures s[left..][..|s| - left] == s[left..]
  {
  }

  lemma Associate3(a: seq<byte>, b: seq<byte>, c: seq<byte>)
    ensures a + b + c == a + (b + c)
  {
  }

  lemma SourceBlock(rb: RingBuffer, m0: seq<byte>, b0: Blocks, to: nat, chain: seq<nat>, id: int, k: nat)
    requires Filling(rb, m0, to) && rb.blocks == b0 && Chained(b0, chain, id) && k < |chain| && to !in chain
    ensures chain[k] in b0 && chain[k] != to && chain[k] + HEADER <= |m0| && chain[k] + b0[chain[k]].length <= |m0|
    ensures b0[chain[k]].offset == GetInt(rb.mem, chain[k] + 4) >= 0 && HEADER + b0[chain[k]].offset <= b0[chain[k]].length
    ensures GetInt(rb.mem, chain[k] + 12) == NextOf(chain, k)
    ensures |PayloadAt(m0, b0, chain, k)| == GetInt(rb.mem, chain[k]) - HEADER - GetInt(rb.mem, chain[k] + 4)
    ensures b0[chain[k]].length == GetInt(rb.mem, chain[k])
  {
    hide GetInt, Tiled, Headers, Chained;
    ChainBlock(rb, chain, id, k);
  }

  lemma FillStart(rb: RingBuffer, to: nat)
    requires rb.Valid() && to in rb.blocks && rb.blocks[to].length >= HEADER
    ensures Filling(rb, rb.mem, to) && to + rb.blocks[to].length <= |rb.mem|
  {
    hide Tiled, Headers;
    rb.BlockAt(to);
  }

  lemma WantStart(mem: seq<byte>, blocks: Blocks, chain: seq<nat>, id: int, skip: nat, k: nat, left: nat, size: nat)
    requires Walking(mem, blocks, chain, id, skip, k, left) && chain[k] in blocks && left <= |PayloadAt(mem, blocks, chain, k)|
    requires skip + size <= |Data(mem, blocks, chain, 0)|
    ensures Remaining(mem, blocks, chain, k, left, size)
    ensures Wanted(mem, blocks, chain, k, left, size) == Data(mem, blocks, chain, 0)[skip..][..size]
  {
    hide Payload, Data, Chained;
    SizeSplit(mem, blocks, chain, id, k);
  }

  /** The copy loop, from the block where the wanted bytes begin. */
  method CopyAll(rb: RingBuffer, to: nat, first: nat, skipped: nat, count: nat, ghost m0: seq<byte>, ghost b0: Blocks, ghost chain: seq<nat>, ghost id: int, ghost start: nat, ghost want: seq<byte>) returns (blk: nat)
    requires Filling(rb, m0, to) && Chained(b0, chain, id) && rb.blocks == b0 && to !in chain && 0 < count == b0[to].length - HEADER
    requires Remaining(m0, b0, chain, start, skipped, count) && first == chain[start]
    requires want == Wanted(m0, b0, chain, start, skipped, count)
    modifies rb`mem
    ensures Filling(rb, m0, to) && rb.mem[to + HEADER..to + HEADER + count] == want && blk in chain
  {
    hide GetInt, Payload, Wanted, Chained, Tiled, Headers, Filling, Remaining;
    blk := first;
    var left, size, ptr := skipped, count, to + HEADER;
    ghost var k: nat := start;
    FillBounds(rb, m0, to);
    RemainingAt(m0, b0, chain, k, left, size);
    while true
      invariant Filling(rb, m0, to) && size > 0 && ptr + size == to + HEADER + count && to + HEADER <= ptr && ptr + size <= |rb.mem|
      invariant k < |chain| && blk == chain[k] && Remaining(m0, b0, chain, k, left, size)
      invariant rb.mem[to + HEADER..ptr] + Wanted(m0, b0, chain, k, left, size) == want
      decreases |chain| - k
    {
      var length, next := CopyBlock(rb, to, ptr, blk, left, size, m0, b0, chain, id, k, want);
      FillBounds(rb, m0, to);
      if length == size {
        return;
      }
      RemainingAt(m0, b0, chain, k + 1, 0, size - length);
      ptr, size, blk, left, k := ptr + length, size - length, next, 0, k + 1;
    }
  }

  lemma FillBounds(rb: RingBuffer, m0: seq<byte>, to: nat)
    requires Filling(rb, m0, to)
    ensures rb.Valid() && to in rb.blocks && HEADER <= rb.blocks[to].length && to + rb.blocks[to].length <= |rb.mem| == |m0|
    ensures SameOutside(m0, rb.mem, to + HEADER, to + rb.blocks[to].length)
  {
  }

  lemma RemainingAt(mem: seq<byte>, blocks: Blocks, chain: seq<nat>, k: nat, left: nat, size: nat)
    requires Remaining(mem, blocks, chain, k, left, size)
    ensures k < |chain|
  {
  }

  /** ringbuffer_copy: the bytes behind `skip`, across blocks, fill the block `to`, which the connection owns then. */
  method RingCopy(rb: RingBuffer, from: nat, skip: nat, to: nat, ghost chain: seq<nat>, ghost id: int)
    requires rb.Valid() && Chained(rb.blocks, chain, id) && chain[0] == from
    requires to in rb.blocks && rb.blocks[to].length > HEADER && to !in chain && skip + rb.blocks[to].length - HEADER <= |Content(rb, chain)|
    modifies rb
    ensures rb.Valid() && to in old(rb.blocks) && to + old(rb.blocks)[to].length <= |rb.mem|
    ensures rb.blocks == old(rb.blocks)[to := old(rb.blocks)[to].(id := id)] && SameOutside(old(rb.mem), rb.mem, to, to + old(rb.blocks)[to].length)
    ensures rb.mem[to + HEADER..to + old(rb.blocks)[to].length] == old(Content(rb, chain))[skip..][..old(rb.blocks)[to].length - HEADER]
  {
    hide GetInt, Payload, Data, Chained, Tiled, Headers, Walking, Before, Filling, Remaining, PayloadAt, Wanted;
    ghost var m0, b0 := rb.mem, rb.blocks;
    FillStart(rb, to);
    rb.IdAt(to);
    var size: nat := GetInt(rb.mem, to) - HEADER;
    var blk: nat, left: nat; ghost var k;
    blk, left, k := FindByte(rb, from, skip, chain, id);
    WantStart(m0, b0, chain, id, skip, k, left, size);
    blk := CopyAll(rb, to, blk, left, size, m0, b0, chain, id, k, Data(m0, b0, chain, 0)[skip..][..size]);
    FillBounds(rb, m0, to);
    Owner(rb, chain, id, blk);
    ghost var m1 := rb.mem;
    rb.IdAt(to);
    rb.SetHeader(to, Block(GetInt(rb.mem, to), GetInt(rb.mem, to + 4), GetInt(rb.mem, blk + 8), GetInt(rb.mem, to + 12)));
    assert rb.mem[to + HEADER..to + HEADER + size] == m1[to + HEADER..to + HEADER + size];
  }

  lemma Owner(rb: RingBuffer, chain: seq<nat>, id: int, blk: nat)
    requires rb.Valid() && Chained(rb.blocks, chain, id) && blk in chain
    ensures blk + HEADER <= |rb.mem| && GetInt(rb.mem, blk + 8) == id
  {
    hide GetInt, Tiled, Headers;
    var k :| 0 <= k < |chain| && chain[k] == blk;
    ChainBlock(rb, chain, id, k);
    rb.IdAt(blk);
  }
}
