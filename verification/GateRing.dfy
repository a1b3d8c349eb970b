/**
 The receive buffer of the gate: blocks with in-band headers tile one byte array. A block belongs to the
 connection whose number its header carries; a block too short for a header has only its length.
 The ghost map `blocks` gives the header of every block by its address.
 */
module GateRing {
  import opened Wrappers
  import opened Bytes

  const HEADER := 16   // sizeof(struct ringbuffer_block)

  datatype Block = Block(length: int, offset: int, id: int, next: int)

  type Blocks = map<nat, Block>

  function Align(s: nat): (r: nat)
    ensures r % 4 == 0 && s <= r < s + 4
  {
    (s + 3) / 4 * 4
  }

  predicate Owned(b: Block)
  {
    b.length >= HEADER && b.id >= 0
  }

  /** The address behind a block. */
  function Behind(o: nat, b: Block): nat
    requires b.length >= 0
  {
    o + Align(b.length)
  }

  ghost predicate BlockFits(blocks: Blocks, size: nat, o: nat)
    requires o in blocks
  {
    o % 4 == 0 && blocks[o].length > 0 && Behind(o, blocks[o]) <= size
    && (Behind(o, blocks[o]) < size ==> Behind(o, blocks[o]) in blocks)
  }

  /** The blocks tile the buffer. */
  ghost predicate Tiled(blocks: Blocks, size: nat)
  {
    && 0 in blocks && size % 4 == 0
    && (forall o :: o in blocks ==> BlockFits(blocks, size, o))
    && (forall o, p :: o in blocks && p in blocks && o < p ==> Behind(o, blocks[o]) <= p)
  }

  /** The bytes from lo to hi are the same. */
  ghost predicate SameRange(mem: seq<byte>, mem': seq<byte>, lo: nat, hi: nat)
  {
    |mem| == |mem'| && forall i :: lo <= i < hi && i < |mem| ==> mem'[i] == mem[i]
  }

  ghost predicate SameOutside(mem: seq<byte>, mem': seq<byte>, lo: nat, hi: nat)
  {
    |mem| == |mem'| && forall i :: 0 <= i < |mem| && !(lo <= i < hi) ==> mem'[i] == mem[i]
  }

  ghost predicate HeaderAt(mem: seq<byte>, o: nat, b: Block)
  {
    && b.length > 0 && Behind(o, b) <= |mem| && GetInt(mem, o) == b.length
    && (b.length >= HEADER ==> GetInt(mem, o + 4) == b.offset && GetInt(mem, o + 8) == b.id && GetInt(mem, o + 12) == b.next)
  }

  ghost predicate Headers(mem: seq<byte>, blocks: Blocks)
  {
    forall o :: o in blocks ==> HeaderAt(mem, o, blocks[o])
  }

  lemma HeaderFrame(mem: seq<byte>, mem': seq<byte>, o: nat, b: Block)
    requires HeaderAt(mem, o, b) && SameRange(mem, mem', o, Behind(o, b))
    ensures HeaderAt(mem', o, b)
  {
    hide GetInt;
    GetIntFrame(mem, mem', o);
    if b.length >= HEADER {
      GetIntFrame(mem, mem', o + 4);
      GetIntFrame(mem, mem', o + 8);
      GetIntFrame(mem, mem', o + 12);
    }
  }

  /** Headers, bytes and owners of all owned blocks are the same, and no other block is owned. */
  ghost predicate LiveKept(mem: seq<byte>, blocks: Blocks, mem': seq<byte>, blocks': Blocks)
  {
    && (forall p :: p in blocks && Owned(blocks[p]) ==> p in blocks' && blocks'[p] == blocks[p] && SameRange(mem, mem', p, Behind(p, blocks[p])))
    && (forall p :: p in blocks' && Owned(blocks'[p]) ==> p in blocks && blocks[p] == blocks'[p])
  }

  // ---------- one block carved out of a stretch of blocks ----------

  ghost predicate Stretch(blocks: Blocks, size: nat, head: nat, total: nat)
  {
    head in blocks && head + total <= size && (head + total < size ==> head + total in blocks)
  }

  ghost predicate Loose(blocks: Blocks, lo: nat, hi: nat)
  {
    forall o :: o in blocks && lo <= o < hi ==> !Owned(blocks[o])
  }

  ghost function Outside(blocks: Blocks, head: nat, total: nat): Blocks
  {
    map o | o in blocks && !(head <= o < head + total) :: blocks[o]
  }

  /** b at the start of the stretch, what is left behind it. */
  ghost function Carved(blocks: Blocks, head: nat, total: nat, b: Block, rest: Block): Blocks
    requires b.length > 0 && Align(b.length) <= total
  {
    var first := Outside(blocks, head, total)[head := b];
    if Align(b.length) == total then first else first[Behind(head, b) := rest]
  }

  /** What a carving needs. */
  ghost predicate Carving(blocks: Blocks, size: nat, head: nat, total: nat, b: Block, rest: Block)
  {
    && Tiled(blocks, size) && Stretch(blocks, size, head, total) && total % 4 == 0
    && b.length > 0 && Align(b.length) <= total && rest.length == total - Align(b.length)
  }

  predicate Within(o: nat, head: nat, total: nat)
  {
    head <= o < head + total
  }

  lemma CarvedAt(blocks: Blocks, head: nat, total: nat, b: Block, rest: Block, o: nat)
    requires b.length > 0 && Align(b.length) <= total
    ensures var blocks' := Carved(blocks, head, total, b, rest);
            && (o in blocks' <==> o == head || (Align(b.length) < total && o == Behind(head, b)) || (o in blocks && !Within(o, head, total)))
            && (o in blocks' ==> blocks'[o] == if Within(o, head, total) then (if o == head then b else rest) else blocks[o])
  {
  }

  lemma Beside(blocks: Blocks, size: nat, head: nat, total: nat, o: nat)
    requires Tiled(blocks, size) && Stretch(blocks, size, head, total) && o in blocks && !Within(o, head, total)
    ensures BlockFits(blocks, size, o) && (Behind(o, blocks[o]) <= head || head + total <= o)
  {
    hide Align;
    assert BlockFits(blocks, size, o);
    assert o < head ==> Behind(o, blocks[o]) <= head;
  }

  lemma CarvedTiled(blocks: Blocks, size: nat, head: nat, total: nat, b: Block, rest: Block)
    requires Carving(blocks, size, head, total, b, rest)
    ensures Tiled(Carved(blocks, head, total, b, rest), size)
  {
    hide Align, Carved;
    var blocks' := Carved(blocks, head, total, b, rest);
    AlignSame(rest.length);
    CarvedAt(blocks, head, total, b, rest, 0);
    forall o | o in blocks'
      ensures BlockFits(blocks', size, o)
    {
      CarvedFits(blocks, size, head, total, b, rest, o);
    }
    forall o, p | o in blocks' && p in blocks' && o < p
      ensures Behind(o, blocks'[o]) <= p
    {
      CarvedApart(blocks, size, head, total, b, rest, o, p);
    }
  }

  lemma AlignSame(n: nat)
    ensures n % 4 == 0 ==> Align(n) == n
  {
  }

  lemma AlignRest(total: nat, n: nat)
    requires total % 4 == 0 && Align(n) <= total
    ensures Align(total - Align(n)) == total - Align(n)
  {
    AlignSame(total - Align(n));
  }

  lemma CarvedFits(blocks: Blocks, size: nat, head: nat, total: nat, b: Block, rest: Block, o: nat)
    requires Carving(blocks, size, head, total, b, rest) && o in Carved(blocks, head, total, b, rest)
    ensures BlockFits(Carved(blocks, head, total, b, rest), size, o)
  {
    hide Align, Carved, Tiled;
    var blocks' := Carved(blocks, head, total, b, rest);
    AlignSame(rest.length);
    assert BlockFits(blocks, size, head) by { FitsAt(blocks, size, head); }
    CarvedAt(blocks, head, total, b, rest, o);
    if !Within(o, head, total) {
      Beside(blocks, size, head, total, o);
      CarvedAt(blocks, head, total, b, rest, Behind(o, blocks[o]));
    } else {
      CarvedAt(blocks, head, total, b, rest, Behind(head, b));
      CarvedAt(blocks, head, total, b, rest, head + total);
    }
  }

  lemma FitsAt(blocks: Blocks, size: nat, o: nat)
    requires Tiled(blocks, size) && o in blocks
    ensures BlockFits(blocks, size, o)
  {
  }

  lemma ApartAt(blocks: Blocks, size: nat, o: nat, p: nat)
    requires Tiled(blocks, size) && o in blocks && p in blocks && o < p
    ensures blocks[o].length >= 0 && Behind(o, blocks[o]) <= p
  {
  }

  lemma CarvedApart(blocks: Blocks, size: nat, head: nat, total: nat, b: Block, rest: Block, o: nat, p: nat)
    requires Carving(blocks, size, head, total, b, rest) && o < p
    requires o in Carved(blocks, head, total, b, rest) && p in Carved(blocks, head, total, b, rest)
    ensures var c := Carved(blocks, head, total, b, rest)[o]; c.length >= 0 && Behind(o, c) <= p
  {
    hide Align, Carved, Tiled, Stretch;
    AlignRest(total, b.length);
    CarvedAt(blocks, head, total, b, rest, o);
    CarvedAt(blocks, head, total, b, rest, p);
    if !Within(o, head, total) {
      Beside(blocks, size, head, total, o);
      if !Within(p, head, total) {
        ApartAt(blocks, size, o, p);
      }
    }
  }

  lemma CarvedHeaders(mem: seq<byte>, mem': seq<byte>, blocks: Blocks, head: nat, total: nat, b: Block, rest: Block)
    requires Carving(blocks, |mem|, head, total, b, rest) && Headers(mem, blocks) && SameOutside(mem, mem', head, head + total)
    requires HeaderAt(mem', head, b) && (Align(b.length) < total ==> HeaderAt(mem', Behind(head, b), rest))
    ensures Headers(mem', Carved(blocks, head, total, b, rest))
  {
    hide Align, GetInt, HeaderAt, Carved;
    var blocks' := Carved(blocks, head, total, b, rest);
    forall o | o in blocks'
      ensures HeaderAt(mem', o, blocks'[o])
    {
      CarvedAt(blocks, head, total, b, rest, o);
      if !Within(o, head, total) {
        Beside(blocks, |mem|, head, total, o);
        HeaderFrame(mem, mem', o, blocks[o]);
      }
    }
  }

  lemma CarvedKeeps(mem: seq<byte>, mem': seq<byte>, blocks: Blocks, head: nat, total: nat, b: Block, rest: Block)
    requires Carving(blocks, |mem|, head, total, b, rest) && SameOutside(mem, mem', head, head + total)
    requires !Owned(b) && (Align(b.length) < total ==> !Owned(rest)) && Loose(blocks, head, head + total)
    ensures LiveKept(mem, blocks, mem', Carved(blocks, head, total, b, rest))
  {
    hide Align, Carved, Tiled, Stretch;
    var blocks' := Carved(blocks, head, total, b, rest);
    forall p | p in blocks && Owned(blocks[p])
      ensures p in blocks' && blocks'[p] == blocks[p] && SameRange(mem, mem', p, Behind(p, blocks[p]))
    {
      Beside(blocks, |mem|, head, total, p);
      CarvedAt(blocks, head, total, b, rest, p);
    }
    forall p | p in blocks' && Owned(blocks'[p])
      ensures p in blocks && blocks[p] == blocks'[p]
    {
      CarvedAt(blocks, head, total, b, rest, p);
    }
  }

  /** PutInt of a whole header, or of the length alone when there is no room for more. */
  function WriteHeader(mem: seq<byte>, o: nat, b: Block): (r: seq<byte>)
    requires o + HEADER <= |mem| && Int32(b.length) && Int32(b.offset) && Int32(b.id) && Int32(b.next)
    ensures SameOutside(mem, r, o, o + HEADER)
    ensures GetInt(r, o) == b.length && GetInt(r, o + 4) == b.offset && GetInt(r, o + 8) == b.id && GetInt(r, o + 12) == b.next
  {
    hide GetInt, PutInt;
    var m1 := PutInt(mem, o, b.length);
    var m2 := PutInt(m1, o + 4, b.offset);
    GetIntFrame(m1, m2, o);
    var m3 := PutInt(m2, o + 8, b.id);
    GetIntFrame(m2, m3, o);
    GetIntFrame(m2, m3, o + 4);
    var m4 := PutInt(m3, o + 12, b.next);
    GetIntFrame(m3, m4, o);
    GetIntFrame(m3, m4, o + 4);
    GetIntFrame(m3, m4, o + 8);
    m4
  }

  /** The header of what is left behind a block: its length, and the owner if there is room for one. */
  function WriteRest(mem: seq<byte>, o: nat, length: nat): (r: seq<byte>)
    requires 4 <= length && o + length <= |mem| && Int32(length)
    ensures SameOutside(mem, r, o, o + length) && GetInt(r, o) == length
    ensures length >= HEADER ==> GetInt(r, o + 8) == -1
  {
    hide GetInt, PutInt;
    var m1 := PutInt(mem, o, length);
    if length >= HEADER then
      var m2 := PutInt(m1, o + 8, -1);
      GetIntFrame(m1, m2, o);
      m2
    else m1
  }

  /** What WriteRest leaves in memory. */
  ghost function RestBlock(mem: seq<byte>, o: nat, length: nat): (b: Block)
    requires 4 <= length && o + length <= |mem| && Int32(length) && length % 4 == 0
    ensures HeaderAt(WriteRest(mem, o, length), o, b) && !Owned(b) && b.length == length
  {
    hide GetInt, WriteRest;
    AlignSame(length);
    var r := WriteRest(mem, o, length);
    if length >= HEADER then Block(length, GetInt(r, o + 4), -1, GetInt(r, o + 12)) else Block(length, 0, -1, -1)
  }

  /** Block o is the first owned one from an address on. */
  ghost predicate FirstFrom(blocks: Blocks, from: nat, o: nat)
  {
    o in blocks && Owned(blocks[o]) && from <= o && Loose(blocks, from, o)
  }

  /** Block o is the first owned one from head on, around the end of the buffer: the oldest. */
  ghost predicate Oldest(blocks: Blocks, size: nat, head: nat, o: nat)
  {
    FirstFrom(blocks, head, o) || (Loose(blocks, head, size) && FirstFrom(blocks, 0, o))
  }

  /** The address behind a block, or the start of the buffer. */
  function Around(size: nat, o: nat, b: Block): nat
    requires b.length >= 0
  {
    if Behind(o, b) == size then 0 else Behind(o, b)
  }

  datatype Walk = Blocked | Found(total: nat) | AtEnd

  class RingBuffer {
    const size: nat
    var head: nat
    var mem: seq<byte>
    ghost var blocks: Blocks

    ghost predicate Valid()
      reads this
    {
      && HEADER <= size < 0x8000_0000 && |mem| == size && head in blocks
      && Tiled(blocks, size) && Headers(mem, blocks)
    }

    lemma BlockAt(o: nat)
      requires Valid() && o in blocks
      ensures blocks[o].length > 0 && o + 4 <= Behind(o, blocks[o]) <= size && HeaderAt(mem, o, blocks[o])
      ensures Behind(o, blocks[o]) < size ==> Behind(o, blocks[o]) in blocks
      ensures o % 4 == 0
    {
      hide Tiled, HeaderAt, Align;
      FitsAt(blocks, size, o);
    }

    /** ringbuffer_new. */
    constructor (size: nat, garbage: seq<byte>)
      requires HEADER <= size < 0x8000_0000 && size % 4 == 0 && |garbage| == size
      ensures Valid() && this.size == size && forall o :: o in blocks ==> !Owned(blocks[o])
    {
      this.size, head := size, 0;
      mem := PutInt(PutInt(garbage, 0, size), 8, -1);
      new;
      GetIntFrame(PutInt(garbage, 0, size), mem, 0);
      blocks := map[0 := Block(size, GetInt(mem, 4), -1, GetInt(mem, 12))];
      AlignSame(size);
    }

    /** block_next, as an address; the size stands for the end. */
    method BlockNext(o: nat) returns (next: nat)
      requires Valid() && o in blocks
      ensures next == Behind(o, blocks[o]) && o < next <= size && (next < size ==> next in blocks)
    {
      hide GetInt, Tiled, Headers;
      BlockAt(o);
      next := o + Align(GetInt(mem, o));
    }

    /** Has the block an owner? */
    method IsOwned(o: nat) returns (owned: bool)
      requires Valid() && o in blocks
      ensures owned == Owned(blocks[o])
    {
      hide GetInt, Tiled, Headers;
      BlockAt(o);
      owned := GetInt(mem, o) >= HEADER && GetInt(mem, o + 8) >= 0;
    }

    /** The loop of ringbuffer_alloc: how far the blocks from head on are free. */
    method WalkFree(need: nat) returns (w: Walk)
      requires Valid() && need > 0
      ensures w.Blocked? ==> InTheWay(blocks, head, need)
      ensures w.Found? ==> need <= w.total && Stretch(blocks, size, head, w.total) && w.total % 4 == 0 && Loose(blocks, head, head + w.total)
      ensures w.AtEnd? ==> size - head < need && Loose(blocks, head, size)
    {
      hide GetInt, Tiled, Headers, Align;
      BlockAt(head);
      var b, free := head, 0;
      while true
        invariant b in blocks && b == head + free && free < need && b < size && Loose(blocks, head, b)
        decreases size - b
      {
        BlockAt(b);
        AlignedBehind(b, blocks[b]);
        var owned := IsOwned(b);
        if owned {
          OwnerInTheWay(blocks, head, need, b);
          return Blocked;
        }
        var next := BlockNext(b);
        LooseMore(blocks, size, head, b);
        free := free + (next - b);
        b := next;
        if free >= need {
          AlignedDifference(head, b);
          return Found(free);
        }
        if b == size {
          return AtEnd;
        }
      }
    }

    /** _alloc: a block for n bytes at head, out of a free stretch. */
    method AllocAt(total: nat, n: nat)
      requires Valid() && Align(HEADER + n) <= total && total % 4 == 0 && Stretch(blocks, size, head, total) && Loose(blocks, head, head + total)
      modifies this
      ensures Valid() && LiveKept(old(mem), old(blocks), mem, blocks)
      ensures old(head) in blocks && blocks[old(head)] == Block(HEADER + n, 0, -1, -1) && head == Around(size, old(head), blocks[old(head)])
    {
      hide GetInt, Tiled, Headers, Align, HeaderAt, Stretch, Loose, LiveKept, Carved, WriteHeader, WriteRest;
      var o, b, need := head, Block(HEADER + n, 0, -1, -1), Align(HEADER + n);
      assert Stretch(blocks, size, o, total) && o + total <= size by { StretchFits(blocks, size, o, total); }
      var m := WriteHeader(mem, o, b);
      ghost var rest := Block(0, 0, -1, -1);
      if need < total {
        rest := RestBlock(m, o + need, total - need);
        RestKeeps(m, o, b, total - need);
        m := WriteRest(m, o + need, total - need);
        head := o + need;
      } else {
        head := if o + need == size then 0 else o + need;
        rest := Block(0, 0, -1, -1);
      }
      HeaderWritten(m, o, b);
      CarvedTiled(blocks, size, o, total, b, rest);
      CarvedHeaders(mem, m, blocks, o, total, b, rest);
      CarvedKeeps(mem, m, blocks, o, total, b, rest);
      CarvedAt(blocks, o, total, b, rest, o);
      CarvedAt(blocks, o, total, b, rest, head);
      ZeroIn(blocks, size);
      StretchEnd(blocks, size, o, total);
      CarvedAt(blocks, o, total, b, rest, 0);
      blocks := Carved(blocks, o, total, b, rest);
      mem := m;
    }

    /**
     ringbuffer_alloc: the new block lies in free blocks only. It fails if and only if an owned block is in the way from head
     on, or the blocks from head to the end are free but too few and, from the start, an owned block is in the way or the buffer ends.
     */
    method Alloc(n: nat) returns (block: Option<nat>)
      requires Valid()
      modifies this
      ensures Valid()
      ensures block.None? ==> mem == old(mem) && blocks == old(blocks)
      ensures block.None? <==> Refuses(old(blocks), size, old(head), Align(HEADER + n))
      ensures block.None? ==> SomeOwned(blocks) || Align(HEADER + n) > size
      ensures block.Some? ==> block.value in blocks && blocks[block.value] == Block(HEADER + n, 0, -1, -1)
      ensures block.Some? ==> LiveKept(old(mem), old(blocks), mem, blocks) && Align(HEADER + n) <= size
      ensures block.Some? ==> head == Around(size, block.value, blocks[block.value])
      ensures block.Some? ==> block.value == if size - old(head) < Align(HEADER + n) then 0 else old(head)
      ensures block.None? ==> head == if Loose(blocks, old(head), size) then 0 else old(head)
    {
      hide GetInt, Tiled, Headers, Align, LiveKept;
      for i := 0 to 2
        invariant Valid() && mem == old(mem) && blocks == old(blocks) && (i > 0 ==> head == 0)
        invariant if i == 0 then head == old(head) else size - old(head) < Align(HEADER + n) && Loose(blocks, old(head), size)
        invariant i == 2 ==> Align(HEADER + n) > size
      {
        var w := WalkFree(Align(HEADER + n));
        if w.Blocked? {
          AllBelow(blocks, size);
          NoneToTheEnd(blocks, size, head, Align(HEADER + n));
          SomeoneOwns(blocks, head, Align(HEADER + n));
          return None;
        }
        if w.Found? {
          NotInTheWay(blocks, head, w.total, Align(HEADER + n));
          StretchFits(blocks, size, head, w.total);
          AllBelow(blocks, size);
          NoneToTheEnd(blocks, size, old(head), Align(HEADER + n));
          block := Some(head);
          AllocAt(w.total, n);
          return;
        }
        ZeroIn(blocks, size);
        head := 0;
      }
      return None;
    }

    /** The loop of _last_id: the owner of the first owned block from head on. */
    method FirstOwner() returns (id: int)
      requires Valid()
      ensures id >= 0 ==> exists o :: FirstFrom(blocks, head, o) && blocks[o].id == id
      ensures id < 0 ==> id == -1 && Loose(blocks, head, size)
    {
      hide GetInt, Tiled, Headers, Align;
      BlockAt(head);
      var b := head;
      while b < size
        invariant b <= size && (b < size ==> b in blocks) && Loose(blocks, head, b)
      {
        BlockAt(b);
        var owned := IsOwned(b);
        if owned {
          assert FirstFrom(blocks, head, b);
          return GetInt(mem, b + 8);
        }
        LooseMore(blocks, size, head, b);
        b := BlockNext(b);
      }
      return -1;
    }

    /** _last_id. */
    method LastId() returns (id: int)
      requires Valid()
      modifies this`head
      ensures Valid()
      ensures id >= 0 ==> exists o :: Oldest(blocks, size, old(head), o) && blocks[o].id == id
      ensures id < 0 ==> id == -1 && !SomeOwned(blocks)
    {
      hide GetInt, Headers, Tiled, Align;
      id := -1;
      for i := 0 to 2
        invariant Valid() && (if i == 0 then head == old(head) else head == 0 && id == -1 && Loose(blocks, old(head), size)) && (i == 2 ==> Loose(blocks, 0, size))
      {
        id := FirstOwner();
        if id >= 0 {
          ghost var o :| FirstFrom(blocks, head, o) && blocks[o].id == id;
          assert Oldest(blocks, size, old(head), o);
          return;
        }
        ZeroIn(blocks, size);
        head := 0;
      }
      AllLoose(blocks, size);
    }

    /** The owner, offset or next block of a block is changed in place. */
    method SetHeader(o: nat, b: Block)
      requires Valid() && o in blocks && blocks[o].length >= HEADER && b.length == blocks[o].length
      requires Int32(b.offset) && Int32(b.id) && Int32(b.next)
      modifies this`mem, this`blocks
      ensures Valid() && blocks == old(blocks)[o := b] && SameOutside(old(mem), mem, o, o + HEADER)
    {
      hide GetInt, Headers, Align, Tiled, HeaderAt, WriteHeader;
      BlockAt(o);
      var m := WriteHeader(mem, o, b);
      HeaderWritten(m, o, b);
      Reheaded(mem, m, blocks, o, b);
      mem := m;
      blocks := blocks[o := b];
    }

    /** ringbuffer_collect: all blocks of the owner of the oldest owned block, if there is any, lose it. */
    method Collect() returns (id: int)
      requires Valid()
      modifies this
      ensures Valid() && Released(old(blocks), blocks, id, size) && PayloadKept(old(mem), mem, old(blocks))
      ensures id >= 0 ==> exists o :: Oldest(old(blocks), size, old(head), o) && old(blocks)[o].id == id
      ensures id < 0 ==> id == -1 && !SomeOwned(old(blocks))
    {
      hide GetInt, Headers, Tiled, Align, HeaderAt, PayloadKept;
      id := LastId();
      ZeroIn(blocks, size);
      KeptSame(mem, blocks);
      var b := 0;
      while b < size
        invariant Valid() && b <= size && (b < size ==> b in blocks)
        invariant Released(old(blocks), blocks, id, b) && PayloadKept(old(mem), mem, old(blocks))
      {
        b := ReleaseOne(b, id, old(mem), old(blocks));
      }
    }

    /** One round of the loop of ringbuffer_collect. */
    method ReleaseOne(b: nat, id: int, ghost before: seq<byte>, ghost all: Blocks) returns (next: nat)
      requires Valid() && b in blocks && b < size && Released(all, blocks, id, b) && PayloadKept(before, mem, all)
      modifies this`mem, this`blocks
      ensures Valid() && b < next <= size && (next < size ==> next in blocks)
      ensures Released(all, blocks, id, next) && PayloadKept(before, mem, all)
    {
      hide GetInt, Headers, Tiled, Align, HeaderAt, PayloadKept;
      next := BlockNext(b);
      NoneBetween(blocks, size, b);
      IdAt(b);
      if GetInt(mem, b) >= HEADER && GetInt(mem, b + 8) == id {
        SetHeader(b, Block(GetInt(mem, b), GetInt(mem, b + 4), -1, GetInt(mem, b + 12)));
        HeaderKeepsPayload(before, old(mem), mem, all, old(blocks), size, b);
      }
    }

    lemma IdAt(b: nat)
      requires Valid() && b in blocks
      ensures b + 4 <= |mem| && GetInt(mem, b) == blocks[b].length
      ensures blocks[b].length >= HEADER ==> b + HEADER <= |mem|
      ensures blocks[b].length >= HEADER ==> blocks[b] == Block(GetInt(mem, b), GetInt(mem, b + 4), GetInt(mem, b + 8), GetInt(mem, b + 12))
    {
      hide GetInt, Tiled, Headers;
      BlockAt(b);
    }

    /**
     The loop around ringbuffer_alloc in mread_pull: clients are given up until the request fits. It ends, because
     every round takes all blocks of some owner; the buffer of a client that is not given up is untouched.
     */
    method AllocOrCollect(n: nat, active: int) returns (block: Option<nat>, ghost closed: set<int>)
      requires Valid() && Align(HEADER + n) <= size && active >= 0
      modifies this
      ensures Valid() && ClientsKept(old(mem), old(blocks), mem, blocks, closed)
      ensures block.None? <==> active in closed
      ensures block.Some? ==> block.value in blocks && blocks[block.value] == Block(HEADER + n, 0, -1, -1)
    {
      hide GetInt, Headers, Tiled, Align, HeaderAt, PayloadKept, LiveKept, ClientsKept, Released, Owned;
      closed := {};
      NoClientLost(mem, blocks);
      block := Alloc(n);
      if block.Some? {
        ClientsAfterAlloc(old(mem), old(blocks), old(mem), old(blocks), mem, blocks, closed);
      }
      while block.None?
        invariant Valid() && active !in closed
        invariant block.None? ==> SomeOwned(blocks) && ClientsKept(old(mem), old(blocks), mem, blocks, closed)
        invariant block.Some? ==> block.value in blocks && blocks[block.value] == Block(HEADER + n, 0, -1, -1)
        invariant block.Some? ==> ClientsKept(old(mem), old(blocks), mem, blocks, closed)
        decreases if block.None? then |OwnedSet(blocks)| + 1 else 0
      {
        ghost var m0, b0 := mem, blocks;
        var id := Collect();
        AllBelow(b0, size);
        ReleasedFewer(b0, blocks, id, size);
        ClientsAfterCollect(old(mem), old(blocks), m0, b0, mem, blocks, closed, id, size);
        closed := closed + {id};
        if id == active {
          return;
        }
        ghost var m1, b1 := mem, blocks;
        block := Alloc(n);
        if block.Some? {
          ClientsAfterAlloc(old(mem), old(blocks), m1, b1, mem, blocks, closed);
        }
      }
    }

    /** ringbuffer_shrink: the block just allocated keeps n bytes, or is not used at all. */
    method Shrink(o: nat, n: nat)
      requires Valid() && o in blocks && blocks[o].length >= HEADER && !Owned(blocks[o]) && (n > 0 ==> Align(HEADER + n) <= Align(blocks[o].length))
      modifies this
      ensures Valid() && LiveKept(old(mem), old(blocks), mem, blocks)
      ensures n == 0 ==> blocks == old(blocks) && mem == old(mem) && head == o
      ensures n > 0 ==> head == if Align(HEADER + n) < Align(old(blocks[o].length)) then o + Align(HEADER + n) else old(head)
      ensures n > 0 ==> o in blocks && blocks[o] == old(blocks)[o].(length := HEADER + n) && SameRange(old(mem), mem, o + HEADER, o + HEADER + n)
    {
      hide GetInt, Tiled, Headers, HeaderAt, Align, LiveKept, Carved, WriteRest, PutInt;
      if n == 0 {
        head := o;
        NothingLost(mem, blocks);
        return;
      }
      BlockAt(o);
      IdAt(o);
      var total, need := Align(GetInt(mem, o)), Align(HEADER + n);
      ghost var b := blocks[o].(length := HEADER + n);
      AlignedStretch(blocks, size, o);
      NoneBetween(blocks, size, o);
      var m := PutInt(mem, o, HEADER + n);
      ShorterHeader(mem, m, o, blocks[o], b);
      ghost var rest := Block(0, 0, -1, -1);
      if need < total {
        rest := RestBlock(m, o + need, total - need);
        RestKeeps(m, o, b, total - need);
        m := WriteRest(m, o + need, total - need);
        head := o + need;
      }
      HeaderWritten(m, o, b);
      CarvedTiled(blocks, size, o, total, b, rest);
      CarvedHeaders(mem, m, blocks, o, total, b, rest);
      CarvedKeeps(mem, m, blocks, o, total, b, rest);
      CarvedAt(blocks, o, total, b, rest, o);
      CarvedAt(blocks, o, total, b, rest, head);
      blocks := Carved(blocks, o, total, b, rest);
      mem := m;
    }
  }

  /** Up to the address `upto`, the blocks of one owner have lost it. */
  ghost predicate Released(before: Blocks, after: Blocks, id: int, upto: nat)
  {
    after.Keys == before.Keys
    && forall p :: p in before ==> after[p] == if p < upto && before[p].length >= HEADER && before[p].id == id then before[p].(id := -1) else before[p]
  }

  /** What blocks hold behind their headers is unchanged. */
  ghost predicate PayloadKept(mem: seq<byte>, mem': seq<byte>, blocks: Blocks)
  {
    |mem| == |mem'| && forall p :: p in blocks && blocks[p].length >= HEADER ==> SameRange(mem, mem', p + HEADER, p + blocks[p].length)
  }

  lemma KeptSame(mem: seq<byte>, blocks: Blocks)
    ensures PayloadKept(mem, mem, blocks)
  {
  }

  /** Between a block and the one behind it there is none. */
  lemma NoneBetween(blocks: Blocks, size: nat, b: nat)
    requires Tiled(blocks, size) && b in blocks
    ensures blocks[b].length >= 0 && forall p :: p in blocks ==> !(b < p < Behind(b, blocks[b]))
  {
    hide Align;
    FitsAt(blocks, size, b);
  }

  /** Writing the header of a block leaves the payload of all blocks. */
  lemma HeaderKeepsPayload(before: seq<byte>, mem: seq<byte>, mem': seq<byte>, all: Blocks, blocks: Blocks, size: nat, b: nat)
    requires PayloadKept(before, mem, all) && Tiled(blocks, size) && b in blocks && blocks[b].length >= HEADER && all.Keys == blocks.Keys
    requires forall p :: p in all ==> all[p].length == blocks[p].length
    requires SameOutside(mem, mem', b, b + HEADER)
    ensures PayloadKept(before, mem', all)
  {
    hide Align, Tiled;
    forall p | p in all && all[p].length >= HEADER
      ensures SameRange(before, mem', p + HEADER, p + all[p].length)
    {
      assert SameRange(before, mem, p + HEADER, p + all[p].length);
      if p != b {
        Elsewhere(blocks, size, b, p);
      }
    }
  }

  lemma NothingLost(mem: seq<byte>, blocks: Blocks)
    ensures LiveKept(mem, blocks, mem, blocks)
  {
  }

  /** A block is a stretch of its own. */
  lemma AlignedStretch(blocks: Blocks, size: nat, o: nat)
    requires Tiled(blocks, size) && o in blocks && !Owned(blocks[o])
    ensures blocks[o].length >= 0 && Stretch(blocks, size, o, Align(blocks[o].length)) && Loose(blocks, o, o + Align(blocks[o].length))
  {
    hide Align, Tiled;
    FitsAt(blocks, size, o);
    NoneBetween(blocks, size, o);
  }

  lemma ShorterHeader(mem: seq<byte>, m: seq<byte>, o: nat, b: Block, b': Block)
    requires HeaderAt(mem, o, b) && b.length >= HEADER && b' == b.(length := b'.length) && SameOutside(mem, m, o, o + 4) && GetInt(m, o) == b'.length
    ensures GetInt(m, o + 4) == b'.offset && GetInt(m, o + 8) == b'.id && GetInt(m, o + 12) == b'.next
  {
    hide GetInt;
    GetIntFrame(mem, m, o + 4);
    GetIntFrame(mem, m, o + 8);
    GetIntFrame(mem, m, o + 12);
  }

  ghost function OwnedSet(blocks: Blocks): set<nat>
  {
    set o | o in blocks && Owned(blocks[o])
  }

  /** The blocks and bytes of all owners but the closed ones are the same; the closed ones own nothing. */
  ghost predicate ClientsKept(mem: seq<byte>, blocks: Blocks, mem': seq<byte>, blocks': Blocks, closed: set<int>)
  {
    && |mem| == |mem'|
    && (forall p :: p in blocks && Owned(blocks[p]) && blocks[p].id !in closed ==>
          p in blocks' && blocks'[p] == blocks[p] && SameRange(mem, mem', p + HEADER, p + blocks[p].length))
    && (forall p :: p in blocks' && Owned(blocks'[p]) ==> p in blocks && blocks[p] == blocks'[p] && blocks[p].id !in closed)
  }

  lemma NoClientLost(mem: seq<byte>, blocks: Blocks)
    ensures ClientsKept(mem, blocks, mem, blocks, {})
  {
  }

  lemma AllBelow(blocks: Blocks, size: nat)
    requires Tiled(blocks, size)
    ensures forall o :: o in blocks ==> o < size
  {
    hide Align;
    assert forall o :: o in blocks ==> BlockFits(blocks, size, o);
  }

  lemma ReleasedFewer(before: Blocks, after: Blocks, id: int, size: nat)
    requires Released(before, after, id, size) && (exists o :: o in before && Owned(before[o]) && before[o].id == id)
    requires forall o :: o in before ==> o < size
    ensures |OwnedSet(after)| < |OwnedSet(before)|
  {
    var o :| o in before && Owned(before[o]) && before[o].id == id;
    assert o !in OwnedSet(after) && o in OwnedSet(before);
    Subset(OwnedSet(after), OwnedSet(before) - {o});
  }

  lemma Subset(a: set<nat>, b: set<nat>)
    requires a <= b
    ensures |a| <= |b|
  {
    assert b == a + (b - a);
  }

  lemma ClientsAfterCollect(m: seq<byte>, b: Blocks, m0: seq<byte>, b0: Blocks, m1: seq<byte>, b1: Blocks, closed: set<int>, id: int, size: nat)
    requires ClientsKept(m, b, m0, b0, closed) && Released(b0, b1, id, size) && PayloadKept(m0, m1, b0) && id >= 0
    requires forall o :: o in b0 ==> o < size
    ensures ClientsKept(m, b, m1, b1, closed + {id})
  {
  }

  lemma ClientsAfterAlloc(m: seq<byte>, b: Blocks, m1: seq<byte>, b1: Blocks, m2: seq<byte>, b2: Blocks, closed: set<int>)
    requires ClientsKept(m, b, m1, b1, closed) && LiveKept(m1, b1, m2, b2) && |m1| == |m2|
    ensures ClientsKept(m, b, m2, b2, closed)
  {
    hide Align;
  }

  /** Walking from an address, an owned block is met before `need` bytes. */
  ghost predicate InTheWay(blocks: Blocks, from: nat, need: nat)
  {
    exists o :: o in blocks && Owned(blocks[o]) && from <= o < from + need && Loose(blocks, from, o)
  }

  /** The condition under which a request is refused. */
  ghost predicate Refuses(blocks: Blocks, size: nat, head: nat, need: nat)
  {
    InTheWay(blocks, head, need) || (Loose(blocks, head, size) && size < head + need && (InTheWay(blocks, 0, need) || size < need))
  }

  lemma OwnerInTheWay(blocks: Blocks, from: nat, need: nat, o: nat)
    requires o in blocks && Owned(blocks[o]) && from <= o < from + need && Loose(blocks, from, o)
    ensures InTheWay(blocks, from, need)
  {
  }

  lemma NotInTheWay(blocks: Blocks, from: nat, total: nat, need: nat)
    requires Loose(blocks, from, from + total) && need <= total
    ensures !InTheWay(blocks, from, need)
  {
  }

  lemma NoneToTheEnd(blocks: Blocks, size: nat, from: nat, need: nat)
    requires forall o :: o in blocks ==> o < size
    ensures Loose(blocks, from, size) ==> !InTheWay(blocks, from, need)
  {
  }

  lemma SomeoneOwns(blocks: Blocks, from: nat, need: nat)
    requires InTheWay(blocks, from, need)
    ensures SomeOwned(blocks)
  {
  }

  ghost predicate SomeOwned(blocks: Blocks)
  {
    exists o :: o in blocks && Owned(blocks[o])
  }

  lemma AllLoose(blocks: Blocks, size: nat)
    requires Tiled(blocks, size) && Loose(blocks, 0, size)
    ensures !SomeOwned(blocks)
  {
    hide Align;
    assert forall o :: o in blocks ==> BlockFits(blocks, size, o);
  }

  lemma Reheaded(mem: seq<byte>, mem': seq<byte>, blocks: Blocks, o: nat, b: Block)
    requires Tiled(blocks, |mem|) && Headers(mem, blocks) && o in blocks && b.length == blocks[o].length >= HEADER
    requires SameOutside(mem, mem', o, o + HEADER) && HeaderAt(mem', o, b)
    ensures Tiled(blocks[o := b], |mem|) && Headers(mem', blocks[o := b])
  {
    hide GetInt, HeaderAt, Align, Tiled;
    ReheadedTiled(blocks, |mem|, o, b);
    forall p | p in blocks && p != o
      ensures HeaderAt(mem', p, blocks[p])
    {
      Elsewhere(blocks, |mem|, o, p);
      HeaderFrame(mem, mem', p, blocks[p]);
    }
  }

  /** Another block lies on one side of a block. */
  lemma Elsewhere(blocks: Blocks, size: nat, o: nat, p: nat)
    requires Tiled(blocks, size) && o in blocks && p in blocks && o != p
    ensures BlockFits(blocks, size, o) && BlockFits(blocks, size, p) && (Behind(p, blocks[p]) <= o || Behind(o, blocks[o]) <= p)
  {
    hide Align;
    FitsAt(blocks, size, o);
    FitsAt(blocks, size, p);
  }

  lemma ReheadedTiled(blocks: Blocks, size: nat, o: nat, b: Block)
    requires Tiled(blocks, size) && o in blocks && b.length == blocks[o].length
    ensures Tiled(blocks[o := b], size)
  {
    hide Align, BlockFits;
    var blocks' := blocks[o := b];
    forall p | p in blocks'
      ensures BlockFits(blocks', size, p) && blocks'[p].length == blocks[p].length > 0
    {
      FitsAt(blocks, size, p);
      SameFit(blocks, blocks', size, p);
    }
    forall p, r | p in blocks' && r in blocks' && p < r
      ensures Behind(p, blocks'[p]) <= r
    {
      ApartAt(blocks, size, p, r);
    }
  }

  /** Whether a block fits depends on its length and on which addresses are blocks. */
  lemma SameFit(blocks: Blocks, blocks': Blocks, size: nat, p: nat)
    requires p in blocks && BlockFits(blocks, size, p) && blocks'.Keys == blocks.Keys && blocks'[p].length == blocks[p].length
    ensures BlockFits(blocks', size, p) && blocks[p].length > 0
  {
    hide Align;
  }

  lemma StretchFits(blocks: Blocks, size: nat, head: nat, total: nat)
    requires Stretch(blocks, size, head, total)
    ensures head in blocks && head + total <= size
  {
  }

  lemma StretchEnd(blocks: Blocks, size: nat, head: nat, total: nat)
    requires Stretch(blocks, size, head, total)
    ensures head + total < size ==> head + total in blocks
  {
  }

  lemma ZeroIn(blocks: Blocks, size: nat)
    requires Tiled(blocks, size)
    ensures 0 in blocks && size % 4 == 0
  {
  }

  lemma HeaderWritten(mem: seq<byte>, o: nat, b: Block)
    requires b.length >= HEADER && o + Align(b.length) <= |mem|
    requires GetInt(mem, o) == b.length && GetInt(mem, o + 4) == b.offset && GetInt(mem, o + 8) == b.id && GetInt(mem, o + 12) == b.next
    ensures HeaderAt(mem, o, b)
  {
  }

  lemma RestKeeps(mem: seq<byte>, o: nat, b: Block, length: nat)
    requires b.length >= HEADER && Behind(o, b) + length <= |mem| && 4 <= length && Int32(length)
    ensures var m := WriteRest(mem, Behind(o, b), length);
            GetInt(m, o) == GetInt(mem, o) && GetInt(m, o + 4) == GetInt(mem, o + 4)
            && GetInt(m, o + 8) == GetInt(mem, o + 8) && GetInt(m, o + 12) == GetInt(mem, o + 12)
  {
    hide GetInt, WriteRest;
    var m := WriteRest(mem, Behind(o, b), length);
    GetIntFrame(mem, m, o);
    GetIntFrame(mem, m, o + 4);
    GetIntFrame(mem, m, o + 8);
    GetIntFrame(mem, m, o + 12);
  }

  /** Blocks begin and end at multiples of four. */
  lemma AlignedBehind(o: nat, b: Block)
    requires b.length >= 0 && o % 4 == 0
    ensures Behind(o, b) % 4 == 0
  {
  }

  lemma AlignedDifference(head: nat, b: nat)
    requires head <= b && head % 4 == 0 && b % 4 == 0
    ensures (b - head) % 4 == 0
  {
  }

  lemma LooseMore(blocks: Blocks, size: nat, head: nat, b: nat)
    requires Tiled(blocks, size) && b in blocks && Loose(blocks, head, b) && !Owned(blocks[b])
    ensures blocks[b].length >= 0 && Loose(blocks, head, Behind(b, blocks[b]))
  {
    hide Align;
    FitsAt(blocks, size, b);
    assert forall o :: o in blocks && b < o ==> Behind(b, blocks[b]) <= o;
  }
}
