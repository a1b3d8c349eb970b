/**
 The recycler of unused chunks: the same extents kept in two ordered sets, by size and address and by
 address. The trees are abstracted to sets whose searches are specified by their order. Addresses
 and sizes are counted in chunks, which every address and size here is a multiple of.
 */
module ChunkExtents {
  import opened Arithmetic
  import opened Wrappers

  datatype Extent = Extent(addr: nat, size: nat, zeroed: bool)

  predicate Covers(e: Extent, a: nat)
  {
    e.addr <= a < e.addr + e.size
  }

  predicate InRange(a: nat, addr: nat, size: nat)
  {
    addr <= a < addr + size
  }

  /** Address a belongs to some extent. */
  ghost predicate Free(extents: set<Extent>, a: nat)
  {
    exists e :: e in extents && Covers(e, a)
  }

  /** Address a is free and known to hold zero. */
  ghost predicate Clear(extents: set<Extent>, a: nat)
  {
    exists e :: e in extents && Covers(e, a) && e.zeroed
  }

  /** e ends strictly below f: they neither overlap nor touch. */
  predicate Before(e: Extent, f: Extent)
  {
    e.addr + e.size < f.addr
  }

  /** The extents are not empty, and no two of them overlap or touch. */
  ghost predicate Apart(extents: set<Extent>)
  {
    && (forall e :: e in extents ==> e.size > 0)
    && (forall e, f :: e in extents && f in extents && e != f ==> Before(e, f) || Before(f, e))
  }

  // ---------------------------------------------------------------------------
  // Searches in the two orders
  // ---------------------------------------------------------------------------

  predicate SizeOrder(e: Extent, f: Extent)
  {
    e.size < f.size || (e.size == f.size && e.addr <= f.addr)
  }

  /** extent_tree_szad_nsearch with a key of address 0: the best fit, and the lowest one among equals. */
  method BestFit(szad: set<Extent>, size: nat) returns (best: Option<Extent>)
    ensures best.Some? ==> best.value in szad && best.value.size >= size
    ensures best.Some? ==> forall e :: e in szad && e.size >= size ==> best.value.size < e.size || (best.value.size == e.size && best.value.addr <= e.addr)
    ensures best.None? ==> forall e :: e in szad ==> e.size < size
  {
    best := None;
    var rest := szad;
    while rest != {}
      invariant rest <= szad
      invariant best.Some? ==> best.value in szad && best.value.size >= size
      invariant forall e :: e in szad - rest && e.size >= size ==> best.Some? && SizeOrder(best.value, e)
      decreases |rest|
    {
      var e :| e in rest;
      if e.size >= size && (best.None? || SizeOrder(e, best.value)) {
        best := Some(e);
      }
      rest := rest - {e};
    }
  }

  /** extent_tree_ad_nsearch, used only to look for an extent that starts exactly at addr. */
  method StartingAt(ad: set<Extent>, addr: nat) returns (found: Option<Extent>)
    ensures found.Some? ==> found.value in ad && found.value.addr == addr
    ensures found.None? ==> forall e :: e in ad ==> e.addr != addr
  {
    if e :| e in ad && e.addr == addr {
      found := Some(e);
    } else {
      found := None;
    }
  }

  /** extent_tree_ad_prev, used only to look for an extent that ends exactly at addr. */
  method EndingAt(ad: set<Extent>, addr: nat) returns (found: Option<Extent>)
    ensures found.Some? ==> found.value in ad && found.value.addr + found.value.size == addr
    ensures found.None? ==> forall e :: e in ad ==> e.addr + e.size != addr
  {
    if e :| e in ad && e.addr + e.size == addr {
      found := Some(e);
    } else {
      found := None;
    }
  }

  // ---------------------------------------------------------------------------
  // What the updates do to the free addresses
  // ---------------------------------------------------------------------------

  /** Cutting [addr, addr + size) out of extent e. */
  function Cut(extents: set<Extent>, e: Extent, addr: nat, size: nat): set<Extent>
    requires e.addr <= addr && addr + size <= e.addr + e.size
  {
    var lead, trail := addr - e.addr, e.addr + e.size - addr - size;
    extents - {e}
      + (if lead != 0 then {Extent(e.addr, lead, e.zeroed)} else {})
      + (if trail != 0 then {Extent(addr + size, trail, e.zeroed)} else {})
  }

  lemma CutApart(extents: set<Extent>, e: Extent, addr: nat, size: nat)
    requires Apart(extents) && e in extents && size > 0 && e.addr <= addr && addr + size <= e.addr + e.size
    ensures Apart(Cut(extents, e, addr, size))
  {
  }

  lemma CutFree(extents: set<Extent>, e: Extent, addr: nat, size: nat, a: nat)
    requires Apart(extents) && e in extents && size > 0 && e.addr <= addr && addr + size <= e.addr + e.size
    ensures Free(Cut(extents, e, addr, size), a) <==> Free(extents, a) && !InRange(a, addr, size)
  {
    var cut := Cut(extents, e, addr, size);
    if Free(extents, a) && !InRange(a, addr, size) {
      var f :| f in extents && Covers(f, a);
      if f == e {
        var part := if a < addr then Extent(e.addr, addr - e.addr, e.zeroed) else Extent(addr + size, e.addr + e.size - addr - size, e.zeroed);
        assert part in cut && Covers(part, a);
      } else {
        assert f in cut;
      }
    }
    if Free(cut, a) {
      var f :| f in cut && Covers(f, a);
      if f !in extents - {e} {
        assert Covers(e, a);
      }
    }
  }

  /** Cutting keeps what is known of the rest. */
  lemma CutClear(extents: set<Extent>, e: Extent, addr: nat, size: nat, a: nat)
    requires Apart(extents) && e in extents && size > 0 && e.addr <= addr && addr + size <= e.addr + e.size
    ensures Clear(Cut(extents, e, addr, size), a) <==> Clear(extents, a) && !InRange(a, addr, size)
    ensures InRange(a, addr, size) ==> (Clear(extents, a) <==> e.zeroed)
  {
    var cut := Cut(extents, e, addr, size);
    if InRange(a, addr, size) {
      assert Covers(e, a);
    }
    if Clear(extents, a) && !InRange(a, addr, size) {
      var f :| f in extents && Covers(f, a) && f.zeroed;
      if f == e {
        var part := if a < addr then Extent(e.addr, addr - e.addr, e.zeroed) else Extent(addr + size, e.addr + e.size - addr - size, e.zeroed);
        assert part in cut && Covers(part, a);
      } else {
        assert f in cut;
      }
    }
    if Clear(cut, a) {
      var f :| f in cut && Covers(f, a) && f.zeroed;
      if f !in extents - {e} {
        assert Covers(e, a);
      }
    }
  }

  /** No extent overlaps [addr, addr + size). */
  ghost predicate Outside(extents: set<Extent>, addr: nat, size: nat)
  {
    forall a :: InRange(a, addr, size) ==> !Free(extents, a)
  }

  /** What chunk_record inserts for [addr, addr + size): the range with the extents that touch it on either side. */
  function Joined(addr: nat, size: nat, zeroed: bool, next: Option<Extent>, prev: Option<Extent>): Extent
  {
    var forward := if next.Some? then Extent(addr, next.value.size + size, next.value.zeroed && zeroed) else Extent(addr, size, zeroed);
    if prev.Some? then Extent(prev.value.addr, forward.size + prev.value.size, forward.zeroed && prev.value.zeroed) else forward
  }

  function Parts(o: Option<Extent>): set<Extent>
  {
    if o.Some? then {o.value} else {}
  }

  function Join(extents: set<Extent>, addr: nat, size: nat, zeroed: bool, next: Option<Extent>, prev: Option<Extent>): set<Extent>
  {
    extents - Parts(next) - Parts(prev) + {Joined(addr, size, zeroed, next, prev)}
  }

  ghost predicate Touching(extents: set<Extent>, addr: nat, size: nat, next: Option<Extent>, prev: Option<Extent>)
  {
    && (next.Some? ==> next.value in extents && next.value.addr == addr + size)
    && (next.None? ==> forall e :: e in extents ==> e.addr != addr + size)
    && (prev.Some? ==> prev.value in extents && prev.value.addr + prev.value.size == addr)
    && (prev.None? ==> forall e :: e in extents ==> e.addr + e.size != addr)
  }

  lemma OutsideBounds(extents: set<Extent>, addr: nat, size: nat, e: Extent)
    requires Outside(extents, addr, size) && e in extents && e.size > 0 && size > 0
    ensures e.addr + e.size <= addr || addr + size <= e.addr
  {
    if e.addr <= addr {
      assert Covers(e, addr) ==> Free(extents, addr);
      assert InRange(addr, addr, size);
    } else {
      assert Covers(e, e.addr) && Free(extents, e.addr);
      assert InRange(e.addr, addr, size) ==> !Free(extents, e.addr);
    }
  }

  lemma JoinApart(extents: set<Extent>, addr: nat, size: nat, zeroed: bool, next: Option<Extent>, prev: Option<Extent>)
    requires Apart(extents) && size > 0 && Outside(extents, addr, size) && Touching(extents, addr, size, next, prev)
    ensures Apart(Join(extents, addr, size, zeroed, next, prev))
  {
    var node := Joined(addr, size, zeroed, next, prev);
    forall e | e in extents - Parts(next) - Parts(prev)
      ensures Before(e, node) || Before(node, e)
    {
      OutsideBounds(extents, addr, size, e);
    }
  }

  lemma JoinFree(extents: set<Extent>, addr: nat, size: nat, zeroed: bool, next: Option<Extent>, prev: Option<Extent>, a: nat)
    requires Apart(extents) && size > 0 && Touching(extents, addr, size, next, prev)
    ensures Free(Join(extents, addr, size, zeroed, next, prev), a) <==> Free(extents, a) || InRange(a, addr, size)
  {
    var node := Joined(addr, size, zeroed, next, prev);
    var joined := Join(extents, addr, size, zeroed, next, prev);
    assert Covers(node, a) <==> InRange(a, addr, size) || (next.Some? && Covers(next.value, a)) || (prev.Some? && Covers(prev.value, a));
    assert node in joined;
    if Free(extents, a) {
      var e :| e in extents && Covers(e, a);
      assert e in joined || Covers(node, a);
    }
    if Free(joined, a) {
      var e :| e in joined && Covers(e, a);
      assert e in extents || e == node;
    }
  }

  /** e lies directly before or behind [addr, addr + size). */
  predicate Meets(e: Extent, addr: nat, size: nat)
  {
    e.addr == addr + size || e.addr + e.size == addr
  }

  /**
   What is recorded is known to hold zero if and only if it does itself and so do the extents it is joined to; elsewhere nothing new is
   known, and away from those extents nothing is forgotten.
   */
  lemma JoinClear(extents: set<Extent>, addr: nat, size: nat, zeroed: bool, next: Option<Extent>, prev: Option<Extent>, a: nat)
    requires Apart(extents) && size > 0 && Outside(extents, addr, size) && Touching(extents, addr, size, next, prev)
    ensures InRange(a, addr, size) ==>
              (Clear(Join(extents, addr, size, zeroed, next, prev), a) <==> zeroed && forall e :: e in extents && Meets(e, addr, size) ==> e.zeroed)
    ensures !InRange(a, addr, size) && Clear(Join(extents, addr, size, zeroed, next, prev), a) ==> Clear(extents, a)
    ensures (exists e :: e in extents && Covers(e, a) && e.zeroed && !Meets(e, addr, size)) ==> Clear(Join(extents, addr, size, zeroed, next, prev), a)
  {
    hide Outside, Free;
    var node, joined := Joined(addr, size, zeroed, next, prev), Join(extents, addr, size, zeroed, next, prev);
    assert node in joined && (node.zeroed <==> zeroed && (next.None? || next.value.zeroed) && (prev.None? || prev.value.zeroed));
    assert forall e :: e in extents && Meets(e, addr, size) ==> Some(e) == next || Some(e) == prev;
    assert Covers(node, a) <==> InRange(a, addr, size) || (next.Some? && Covers(next.value, a)) || (prev.Some? && Covers(prev.value, a));
    if InRange(a, addr, size) {
      forall e | e in extents && Covers(e, a)
        ensures false
      {
        OutsideBounds(extents, addr, size, e);
      }
      assert forall e :: e in joined && Covers(e, a) ==> e == node;
    }
  }

  class Recycler {
    var szad: set<Extent>
    var ad: set<Extent>

    ghost predicate Valid()
      reads this
    {
      szad == ad && Apart(ad)
    }

    constructor ()
      ensures Valid() && ad == {}
    {
      szad, ad := {}, {};
    }

    /**
     chunk_record. `unzeroed` is the answer of pages_purge and `node` says whether base_node_alloc
     succeeded; without a node the range is leaked unless it can be joined to the extent behind it.
     */
    method Record(chunk: nat, size: nat, unzeroed: bool, node: bool) returns (leaked: bool)
      requires Valid() && size > 0 && Outside(ad, chunk, size)
      modifies this
      ensures Valid()
      ensures leaked ==> !node && ad == old(ad)
      ensures !leaked ==> forall a :: Free(ad, a) <==> old(Free(ad, a)) || InRange(a, chunk, size)
      ensures !leaked ==> forall a :: InRange(a, chunk, size) ==> (Clear(ad, a) <==> !unzeroed && forall e :: e in old(ad) && Meets(e, chunk, size) ==> e.zeroed)
      ensures forall a :: !InRange(a, chunk, size) && Clear(ad, a) ==> old(Clear(ad, a))
    {
      leaked := false;
      ghost var before := ad;
      var next := StartingAt(ad, chunk + size);
      if next.None? && !node {
        leaked := true;
        return;
      }
      var prev := EndingAt(ad, chunk);
      Insert(chunk, size, !unzeroed, next, prev);
      JoinApart(before, chunk, size, !unzeroed, next, prev);
      forall a
        ensures Free(Join(before, chunk, size, !unzeroed, next, prev), a) <==> Free(before, a) || InRange(a, chunk, size)
      {
        JoinFree(before, chunk, size, !unzeroed, next, prev, a);
      }
      forall a
        ensures InRange(a, chunk, size) ==> (Clear(ad, a) <==> !unzeroed && forall e :: e in before && Meets(e, chunk, size) ==> e.zeroed)
        ensures !InRange(a, chunk, size) && Clear(ad, a) ==> Clear(before, a)
      {
        JoinClear(before, chunk, size, !unzeroed, next, prev, a);
      }
    }

    /** The tree updates of chunk_record: join forward or insert, then join backward. */
    method Insert(chunk: nat, size: nat, zeroed: bool, next: Option<Extent>, prev: Option<Extent>)
      requires Valid() && size > 0 && Outside(ad, chunk, size) && Touching(ad, chunk, size, next, prev)
      modifies this
      ensures szad == ad == Join(old(ad), chunk, size, zeroed, next, prev)
    {
      var node := Extent(chunk, size, zeroed);
      if next.Some? {
        szad := szad - {next.value};
        node := Extent(chunk, next.value.size + size, next.value.zeroed && zeroed);
        szad, ad := szad + {node}, ad - {next.value} + {node};
      } else {
        ad, szad := ad + {node}, szad + {node};
      }
      NotYetThere(old(ad), chunk, size, node);
      if prev.Some? {
        szad, ad := szad - {prev.value}, ad - {prev.value};
        var joined := Extent(prev.value.addr, node.size + prev.value.size, node.zeroed && prev.value.zeroed);
        szad := szad - {node};
        szad, ad := szad + {joined}, ad - {node} + {joined};
      }
    }

    /**
     The part of chunk_recycle after the search. `node` says whether a node for the trailing part can
     be allocated; when it cannot, the trailing part is lost and the rest is given back, either unmapped
     or recorded with the last two arguments.
     */
    method Carve(e: Extent, addr: nat, size: nat, node: bool, unmapped: bool, unzeroed: bool, recordNode: bool) returns (ok: bool)
      requires Valid() && e in ad && size > 0 && e.addr <= addr && addr + size <= e.addr + e.size
      modifies this
      ensures Valid()
      ensures ok ==> ad == Cut(old(ad), e, addr, size)
      ensures node ==> ok
      ensures !ok ==> forall a :: Free(ad, a) ==> old(Free(ad, a))
      ensures !ok && unmapped ==> forall a: nat :: Free(ad, a) <==> old(Free(ad, a)) && !(addr <= a < e.addr + e.size)
      ensures !ok && !unmapped && recordNode ==> forall a: nat :: Free(ad, a) <==> old(Free(ad, a)) && !(addr + size <= a < e.addr + e.size)
      ensures !ok <==> !node && e.addr < addr && addr + size < e.addr + e.size
    {
      ok := true;
      ghost var before := ad;
      var lead, trail := addr - e.addr, e.addr + e.size - addr - size;
      szad, ad := szad - {e}, ad - {e};
      if lead != 0 {
        szad, ad := szad + {Extent(e.addr, lead, e.zeroed)}, ad + {Extent(e.addr, lead, e.zeroed)};
      }
      if trail != 0 {
        if lead != 0 && !node {
          CutTail(before, e, addr);
          if !unmapped {
            var _ := Record(addr, size, unzeroed, recordNode);
            forall a | Free(ad, a) && InRange(a, addr, size)
              ensures Free(before, a)
            {
              assert Covers(e, a);
            }
            assert forall a :: InRange(a, addr, size) ==> Covers(e, a);
          }
          return false;
        }
        szad, ad := szad + {Extent(addr + size, trail, e.zeroed)}, ad + {Extent(addr + size, trail, e.zeroed)};
      }
      CutApart(before, e, addr, size);
    }

    /** chunk_recycle. `range` is the number of chunks in the address space, beyond which the size computation wraps around. */
    method Recycle(size: nat, alignment: nat, base: bool, range: nat, node: bool, unmapped: bool, unzeroed: bool, recordNode: bool)
      returns (ret: Option<nat>, zeroed: bool)
      requires Valid() && 0 < size < range && 0 < alignment < range
      modifies this
      ensures Valid()
      ensures ret.Some? ==> ret.value % alignment == 0
      ensures ret.Some? ==> forall a :: InRange(a, ret.value, size) ==> old(Free(ad, a))
      ensures ret.Some? ==> forall a :: Free(ad, a) <==> old(Free(ad, a)) && !InRange(a, ret.value, size)
      ensures ret.Some? ==> (zeroed <==> forall a :: InRange(a, ret.value, size) ==> old(Clear(ad, a)))
      ensures ret.Some? ==> forall a :: Clear(ad, a) <==> old(Clear(ad, a)) && !InRange(a, ret.value, size)
      ensures ret.Some? ==> exists e :: e in old(ad) && e.addr <= ret.value < e.addr + alignment && e.size >= size + alignment - 1
                              && forall f :: f in old(ad) && f.size >= size + alignment - 1 ==> e.size < f.size || (e.size == f.size && e.addr <= f.addr)
      ensures ret.None? ==> !zeroed
      ensures ret.None? ==> forall a :: Free(ad, a) ==> old(Free(ad, a))
      ensures ret.None? && node ==> ad == old(ad) && (base || size + alignment - 1 >= range || forall e :: e in ad ==> e.size < size + alignment - 1)
    {
      ret, zeroed := None, false;
      if base {
        return;
      }
      var allocSize := (size + alignment - 1) % range;
      WrapAround(size, alignment, range);
      if allocSize < size {
        return;
      }
      var best := BestFit(szad, allocSize);
      if best.None? {
        return;
      }
      var e := best.value;
      var addr := Ceiling(e.addr, alignment);
      ghost var before := ad;
      var ok := Carve(e, addr, size, node, unmapped, unzeroed, recordNode);
      if ok {
        ret, zeroed := Some(addr), e.zeroed;
        CutAll(before, e, addr, size);
        CutAllClear(before, e, addr, size);
      }
    }
  }

  lemma WrapAround(size: nat, alignment: nat, range: nat)
    requires 0 < size < range && 0 < alignment < range
    ensures (size + alignment - 1) % range < size <==> size + alignment - 1 >= range
    ensures size + alignment - 1 < range ==> (size + alignment - 1) % range == size + alignment - 1
  {
    var sum := size + alignment - 1;
    if sum >= range {
      assert sum / range == 1;
    }
  }

  lemma CutAll(extents: set<Extent>, e: Extent, addr: nat, size: nat)
    requires Apart(extents) && e in extents && size > 0 && e.addr <= addr && addr + size <= e.addr + e.size
    ensures forall a :: Free(Cut(extents, e, addr, size), a) <==> Free(extents, a) && !InRange(a, addr, size)
    ensures forall a :: InRange(a, addr, size) ==> Free(extents, a)
  {
    forall a
      ensures Free(Cut(extents, e, addr, size), a) <==> Free(extents, a) && !InRange(a, addr, size)
    {
      CutFree(extents, e, addr, size, a);
    }
    assert forall a :: InRange(a, addr, size) ==> Covers(e, a);
  }

  lemma CutAllClear(extents: set<Extent>, e: Extent, addr: nat, size: nat)
    requires Apart(extents) && e in extents && size > 0 && e.addr <= addr && addr + size <= e.addr + e.size
    ensures forall a :: Clear(Cut(extents, e, addr, size), a) <==> Clear(extents, a) && !InRange(a, addr, size)
    ensures e.zeroed <==> forall a :: InRange(a, addr, size) ==> Clear(extents, a)
  {
    forall a
      ensures Clear(Cut(extents, e, addr, size), a) <==> Clear(extents, a) && !InRange(a, addr, size)
      ensures InRange(a, addr, size) ==> (Clear(extents, a) <==> e.zeroed)
    {
      CutClear(extents, e, addr, size, a);
    }
    assert InRange(addr, addr, size);
  }

  /** Only the leading part of e is kept. */
  lemma CutTail(extents: set<Extent>, e: Extent, addr: nat)
    requires Apart(extents) && e in extents && e.addr < addr < e.addr + e.size
    ensures var kept := extents - {e} + {Extent(e.addr, addr - e.addr, e.zeroed)};
            && Apart(kept) && (forall a: nat :: Free(kept, a) <==> Free(extents, a) && !(addr <= a < e.addr + e.size)) && Outside(kept, addr, e.addr + e.size - addr)
  {
    var size := e.addr + e.size - addr;
    CutApart(extents, e, addr, size);
    CutAll(extents, e, addr, size);
    assert Cut(extents, e, addr, size) == extents - {e} + {Extent(e.addr, addr - e.addr, e.zeroed)};
  }

  lemma NotYetThere(extents: set<Extent>, chunk: nat, size: nat, node: Extent)
    requires Outside(extents, chunk, size) && size > 0 && node.addr == chunk && node.size >= size
    ensures node !in extents
  {
    if node in extents {
      assert Covers(node, chunk);
      assert InRange(chunk, chunk, size);
    }
  }
}
