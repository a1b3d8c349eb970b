/**
 The cuckoo hash table: every key lies in one of two buckets, and an insertion into full buckets evicts
 items from bucket to bucket. The pseudo-random numbers are the sequence `draws` of numbers to come; an eviction
 that has used them all is unfinished. `memory` is the number of table allocations that will succeed.
 */
module CuckooHash {
  import opened Wrappers
  import opened Arithmetic

  const CELLS := 4   // 1 << LG_CKH_BUCKET_CELLS
  const LG_CELLS := 2

  /** Keys and data are pointers; keycomp is equality. */
  datatype Cell = Empty | Full(key: nat, data: nat)

  datatype Outcome = Placed | Rejected | Unfinished

  type Table = seq<Cell>

  type Bag = multiset<Cell>

  /** The full cells. */
  ghost function Contents(tab: Table): Bag
  {
    multiset(tab)[Empty := 0]
  }

  ghost predicate Distinct(bag: Bag)
  {
    && (forall c :: c in bag ==> c.Full? && bag[c] == 1)
    && (forall c, d :: c in bag && d in bag && c.key == d.key ==> c == d)
  }

  /** hash & (buckets - 1). */
  function Masked(hash: nat, lg: nat): (b: nat)
    ensures b < Pow2(lg)
  {
    hash % Pow2(lg)
  }

  datatype Hashes = Hashes(first: nat -> nat, second: nat -> nat)

  predicate Home(h: Hashes, lg: nat, key: nat, bucket: nat)
  {
    bucket == Masked(h.first(key), lg) || bucket == Masked(h.second(key), lg)
  }

  /** Every stored key lies in one of its two buckets. */
  ghost predicate AtHome(h: Hashes, lg: nat, tab: Table)
  {
    |tab| == CELLS * Pow2(lg) && forall i :: 0 <= i < |tab| && tab[i].Full? ==> Home(h, lg, tab[i].key, i / CELLS)
  }

  lemma PutContents(tab: Table, i: nat, c: Cell)
    requires i < |tab| && c.Full?
    ensures tab[i].Empty? ==> Contents(tab[i := c]) == Contents(tab) + multiset{c}
    ensures tab[i].Full? ==> Contents(tab[i := c]) + multiset{tab[i]} == Contents(tab) + multiset{c}
  {
  }

  lemma TakeContents(tab: Table, i: nat)
    requires i < |tab| && tab[i].Full?
    ensures Contents(tab[i := Empty]) + multiset{tab[i]} == Contents(tab)
  {
  }

  lemma NextContents(tab: Table, i: nat)
    requires i < |tab|
    ensures Contents(tab[..i + 1]) == Contents(tab[..i]) + (if tab[i].Full? then multiset{tab[i]} else multiset{})
    ensures Contents(tab[..i + 1]) <= Contents(tab)
  {
    assert tab[..i + 1] == tab[..i] + [tab[i]];
    assert tab == tab[..i + 1] + tab[i + 1..];
  }

  lemma InContents(tab: Table, c: Cell)
    requires c.Full?
    ensures c in Contents(tab) <==> c in tab
  {
  }

  /** The cells of a bucket. */
  predicate InBucket(i: int, bucket: nat)
  {
    CELLS * bucket <= i < CELLS * bucket + CELLS
  }

  ghost predicate BucketFull(tab: Table, bucket: nat)
  {
    CELLS * bucket + CELLS <= |tab| && forall i :: InBucket(i, bucket) ==> tab[i].Full?
  }

  /** Cell j is the first empty one of the bucket. */
  ghost predicate FirstEmpty(tab: Table, bucket: nat, j: nat)
  {
    CELLS * bucket + CELLS <= |tab| && InBucket(j, bucket) && tab[j].Empty? && forall i :: CELLS * bucket <= i < j ==> tab[i].Full?
  }

  /** The cells are tried in their order from the first one on. */
  lemma FirstCell(tab: Table, bucket: nat, i: nat)
    requires i < CELLS && CELLS * bucket + CELLS <= |tab| && tab[CellAt(bucket, 0, i)].Empty?
    requires forall k :: 0 <= k < i ==> tab[CellAt(bucket, 0, k)].Full?
    ensures forall j: nat :: FirstEmpty(tab, bucket, j) ==> j == CellAt(bucket, 0, i)
  {
    forall j: nat | FirstEmpty(tab, bucket, j)
      ensures j == CellAt(bucket, 0, i)
    {
      assert CellAt(bucket, 0, i) == CELLS * bucket + i;
      assert CellAt(bucket, 0, j - CELLS * bucket) == j;
    }
  }

  /** All keys hash to 0, and so are the next n numbers drawn. */
  ghost predicate Jammed(h: Hashes, draws: seq<nat>, n: nat)
  {
    && (forall key :: h.first(key) == 0 && h.second(key) == 0)
    && n <= |draws| && forall i :: 0 <= i < n ==> draws[i] == 0
  }

  /** The first bucket has the first k of the items, in their order, and no others. */
  ghost predicate InOrder(tab: Table, items: Table, k: nat)
  {
    k <= CELLS <= |tab| && k <= |items| && tab[..k] == items[..k] && forall i :: k <= i < CELLS ==> tab[i].Empty?
  }

  lemma InOrderNext(tab: Table, items: Table, k: nat)
    requires InOrder(tab, items, k) && k < CELLS && BucketFull(items, 0)
    ensures FirstEmpty(tab, 0, k) && k < |items| && InOrder(tab[k := items[k]], items, k + 1)
  {
    assert forall i :: 0 <= i < k ==> tab[i] == tab[..k][i] && items[i] == items[..k][i] && InBucket(i, 0);
    assert InBucket(k, 0);
  }

  lemma JammedNext(h: Hashes, draws: seq<nat>, n: nat, k: nat)
    requires Jammed(h, draws, n) && k <= n
    ensures Jammed(h, draws[k..], n - k)
  {
  }

  lemma EmptyInOrder(lg: nat, items: Table)
    ensures InOrder(seq(CELLS * Pow2(lg), _ => Empty), items, 0)
  {
    BucketFits(0, lg);
  }

  lemma JammedLess(h: Hashes, draws: seq<nat>, n: nat, k: nat)
    requires Jammed(h, draws, n) && k <= n
    ensures Jammed(h, draws, k) && k <= |draws|
  {
  }

  lemma FullAt(tab: Table, i: nat)
    requires BucketFull(tab, 0) && i < CELLS
    ensures i < |tab| && tab[i].Full?
  {
    assert InBucket(i, 0);
  }

  lemma FullBucketCount(tab: Table)
    requires BucketFull(tab, 0) && |tab| == CELLS
    ensures |Contents(tab)| == CELLS
  {
    assert forall i :: 0 <= i < |tab| ==> InBucket(i, 0);
    FullCount(tab);
  }

  lemma JammedHome(h: Hashes, lg: nat, key: nat)
    requires h.first(key) == 0 && h.second(key) == 0
    ensures Masked(h.first(key), lg) == 0 && Masked(h.second(key), lg) == 0 && forall b: nat :: Home(h, lg, key, b) ==> b == 0
  {
  }

  lemma BucketFits(bucket: nat, lg: nat)
    requires bucket < Pow2(lg)
    ensures CELLS * bucket + CELLS <= CELLS * Pow2(lg)
  {
  }

  function CellAt(bucket: nat, offset: nat, i: nat): nat
  {
    CELLS * bucket + (i + offset) % CELLS
  }

  lemma OneBucket()
    ensures Pow2(0) == 1
  {
  }

  /** The item that the number drawn chooses from a bucket has another bucket, and that has an empty cell. */
  ghost predicate RoomElsewhere(h: Hashes, lg: nat, tab: Table, bucket: nat, draw: nat)
  {
    CELLS * bucket + CELLS <= |tab| &&
    var victim := tab[CELLS * bucket + draw % CELLS];
    && victim.Full?
    && exists b: nat :: b != bucket && b < Pow2(lg) && Home(h, lg, victim.key, b) && CELLS * b + CELLS <= |tab| && !BucketFull(tab, b)
  }

  lemma NoRoom(h: Hashes, lg: nat, tab: Table, tab': Table, bucket: nat, draw: nat, other: nat, c: Cell)
    requires CELLS * bucket + CELLS <= |tab| && tab' == tab[CELLS * bucket + draw % CELLS := c] && tab[CELLS * bucket + draw % CELLS].Full?
    requires var first, second := Masked(h.first(tab[CELLS * bucket + draw % CELLS].key), lg), Masked(h.second(tab[CELLS * bucket + draw % CELLS].key), lg);
             (bucket == first && other == second) || (bucket == second && other == first)
    requires other == bucket || BucketFull(tab', other)
    ensures !RoomElsewhere(h, lg, tab, bucket, draw)
  {
    if other != bucket {
      assert forall i :: InBucket(i, other) ==> tab[i] == tab'[i];
    }
  }

  /** Starting anywhere, the cells of a bucket are all visited. */
  lemma Cycle(bucket: nat, offset: nat, j: nat)
    requires offset < CELLS && j < CELLS
    ensures CellAt(bucket, offset, (j + CELLS - offset) % CELLS) == CELLS * bucket + j
  {
  }

  lemma HomeKept(h: Hashes, lg: nat, tab: Table, i: nat, c: Cell)
    requires AtHome(h, lg, tab) && i < |tab| && (c.Full? ==> Home(h, lg, c.key, i / CELLS))
    ensures AtHome(h, lg, tab[i := c])
  {
    hide Home;
  }

  /** Of distinct items, the one in hand is not the one that is stored. */
  lemma HandDiffers(stored: Bag, hand: Cell, before: Bag, c: Cell)
    requires stored + multiset{hand} == before + multiset{c} && Distinct(before + multiset{c}) && c in stored
    ensures hand != c && hand in before
  {
    assert (before + multiset{c})[c] == 1;
    assert hand in stored + multiset{hand};
  }

  class Cuckoo {
    const h: Hashes
    const lgMin: nat
    var tab: Table
    var lg: nat
    var count: nat
    var draws: seq<nat>
    var memory: nat

    /** The table without the demand that keys are distinct. */
    ghost predicate Sound()
      reads this
    {
      AtHome(h, lg, tab) && count == |Contents(tab)|
    }

    ghost predicate Valid()
      reads this
    {
      Sound() && Distinct(Contents(tab)) && lgMin <= lg
    }

    /** prng32 with LG_CKH_BUCKET_CELLS bits. */
    method Draw() returns (i: nat)
      modifies this`draws
      ensures i < CELLS && |draws| == if old(draws) == [] then 0 else |old(draws)| - 1
      ensures old(draws) != [] ==> i == old(draws)[0] % CELLS && draws == old(draws)[1..]
    {
      i := 0;
      if draws != [] {
        i, draws := draws[0] % CELLS, draws[1..];
      }
    }

    /** ckh_bucket_search. */
    method BucketSearch(bucket: nat, key: nat) returns (cell: Option<nat>)
      requires CELLS * bucket + CELLS <= |tab|
      ensures cell.Some? ==> InBucket(cell.value, bucket) && tab[cell.value].Full? && tab[cell.value].key == key
      ensures cell.None? ==> forall i :: InBucket(i, bucket) ==> !(tab[i].Full? && tab[i].key == key)
    {
      for i := 0 to CELLS
        invariant forall j :: CELLS * bucket <= j < CELLS * bucket + i ==> !(tab[j].Full? && tab[j].key == key)
      {
        var c := tab[CELLS * bucket + i];
        if c.Full? && c.key == key {
          return Some(CELLS * bucket + i);
        }
      }
      return None;
    }

    /** ckh_try_bucket_insert. */
    method TryBucketInsert(bucket: nat, c: Cell) returns (ok: bool)
      requires Sound() && c.Full? && bucket < Pow2(lg) && Home(h, lg, c.key, bucket)
      modifies this`tab, this`count, this`draws
      ensures Sound() && |old(draws)| - 1 <= |draws| <= |old(draws)|
      ensures ok ==> Contents(tab) == old(Contents(tab)) + multiset{c}
      ensures !ok ==> tab == old(tab) && BucketFull(tab, bucket)
      ensures ok ==> !BucketFull(old(tab), bucket)
      ensures old(draws) != [] ==> draws == old(draws)[1..]
      ensures Jammed(h, old(draws), 1) ==> forall j: nat :: FirstEmpty(old(tab), bucket, j) ==> ok && tab == old(tab)[j := c]
    {
      hide Contents, Home, Pow2;
      BucketFits(bucket, lg);
      var offset := Draw();
      assert Jammed(h, old(draws), 1) ==> offset == 0;
      for i := 0 to CELLS
        invariant Sound() && tab == old(tab) && |old(draws)| - 1 <= |draws| <= |old(draws)| && (old(draws) != [] ==> draws == old(draws)[1..])
        invariant forall j :: 0 <= j < i ==> tab[CellAt(bucket, offset, j)].Full?
      {
        var cell := CellAt(bucket, offset, i);
        if tab[cell].Empty? {
          assert InBucket(cell, bucket);
          if offset == 0 {
            FirstCell(tab, bucket, i);
          }
          PutContents(tab, cell, c);
          HomeKept(h, lg, tab, cell, c);
          tab, count := tab[cell := c], count + 1;
          return true;
        }
      }
      forall i | InBucket(i, bucket)
        ensures tab[i].Full?
      {
        Cycle(bucket, offset, i - CELLS * bucket);
      }
      return false;
    }

    /** Swap the item in hand with the one in a full cell. */
    method Evict(cell: nat, c: Cell) returns (victim: Cell)
      requires Sound() && cell < |tab| && tab[cell].Full? && c.Full? && Home(h, lg, c.key, cell / CELLS)
      modifies this`tab
      ensures Sound() && tab == old(tab)[cell := c] && victim == old(tab)[cell] && Home(h, lg, victim.key, cell / CELLS)
      ensures Contents(tab) + multiset{victim} == old(Contents(tab)) + multiset{c}
    {
      hide Home, Pow2;
      PutContents(tab, cell, c);
      HomeKept(h, lg, tab, cell, c);
      victim := tab[cell];
      tab := tab[cell := c];
    }

    /** The alternate bucket of an evicted item: of the two buckets of its key, the other one. */
    function Alternate(key: nat, bucket: nat): (b: nat)
      requires Home(h, lg, key, bucket)
      reads this`lg
      ensures Home(h, lg, key, b) && b < Pow2(lg)
      ensures var first, second := Masked(h.first(key), lg), Masked(h.second(key), lg); (bucket == first && b == second) || (bucket == second && b == first)
    {
      var second := Masked(h.second(key), lg);
      if second == bucket then Masked(h.first(key), lg) else second
    }

    /** ckh_evict_reloc_insert: the table and the item in hand always make up the old contents and the new item. */
    method EvictRelocInsert(argbucket: nat, c: Cell) returns (outcome: Outcome, hand: Cell)
      requires Sound() && c.Full? && argbucket < Pow2(lg) && Home(h, lg, c.key, argbucket) && BucketFull(tab, argbucket)
      requires Distinct(Contents(tab) + multiset{c})
      modifies this`tab, this`count, this`draws
      ensures Sound()
      ensures outcome == Placed ==> Contents(tab) == old(Contents(tab)) + multiset{c}
      ensures outcome != Placed ==> hand.Full? && Contents(tab) + multiset{hand} == old(Contents(tab)) + multiset{c}
      ensures outcome == Rejected ==> hand in old(Contents(tab)) && c in Contents(tab)
      ensures lg == 0 && old(draws) != [] ==> outcome == Rejected
      ensures old(draws) != [] && RoomElsewhere(h, lg, old(tab), argbucket, old(draws)[0]) ==> outcome == Placed
      ensures Jammed(h, old(draws), 1) ==> outcome == Rejected && tab == old(tab)[0 := c] && hand == old(tab)[0] && draws == old(draws)[1..]
    {
      hide Contents, Home, Pow2, Distinct, AtHome, RoomElsewhere;
      OneBucket();
      if Jammed(h, old(draws), 1) {
        JammedHome(h, lg, c.key);
      }
      var bucket: nat := argbucket;
      hand := c;
      ghost var place := -1;
      while true
        invariant Sound() && hand.Full? && bucket < Pow2(lg) && Home(h, lg, hand.key, bucket) && BucketFull(tab, bucket)
        invariant Contents(tab) + multiset{hand} == old(Contents(tab)) + multiset{c}
        invariant place != -1 ==> bucket != argbucket && InBucket(place, argbucket) && 0 <= place < |tab| && tab[place] == c
        invariant place == -1 ==> hand == c && bucket == argbucket && draws == old(draws) && tab == old(tab)
        invariant Jammed(h, old(draws), 1) ==> place == -1 && argbucket == 0
        invariant place != -1 ==> old(draws) != [] && !RoomElsewhere(h, lg, old(tab), argbucket, old(draws)[0])
        decreases |draws|
      {
        if draws == [] {
          return Unfinished, hand;
        }
        var i := Draw();
        ghost var first := place == -1;
        hand := Evict(CELLS * bucket + i, hand);
        if place == -1 {
          place := CELLS * bucket + i;
        }
        if Jammed(h, old(draws), 1) {
          JammedHome(h, lg, hand.key);
        }
        var tbucket := Alternate(hand.key, bucket);
        if tbucket == argbucket {
          assert tab[place] == c;
          InContents(tab, c);
          HandDiffers(Contents(tab), hand, old(Contents(tab)), c);
          if first {
            NoRoom(h, lg, old(tab), tab, argbucket, old(draws)[0], tbucket, c);
          }
          return Rejected, hand;
        }
        bucket := tbucket;
        var ok := TryBucketInsert(bucket, hand);
        if ok {
          return Placed, hand;
        }
        if first {
          NoRoom(h, lg, old(tab), tab, argbucket, old(draws)[0], tbucket, c);
        }
      }
    }
  
    /** ckh_try_insert: the primary bucket, the secondary bucket, then eviction. */
    method TryInsert(c: Cell) returns (outcome: Outcome, hand: Cell)
      requires Sound() && c.Full? && Distinct(Contents(tab) + multiset{c})
      modifies this`tab, this`count, this`draws
      ensures Sound()
      ensures outcome == Placed ==> Contents(tab) == old(Contents(tab)) + multiset{c}
      ensures outcome != Placed ==> hand.Full? && Contents(tab) + multiset{hand} == old(Contents(tab)) + multiset{c}
      ensures outcome == Rejected ==> hand in old(Contents(tab)) && c in Contents(tab)
      ensures outcome != Placed ==> HomesFull(h, old(lg), old(tab), c.key)
      ensures lg == 0 && |old(draws)| > 2 ==> outcome != Unfinished
      ensures !HomesFull(h, old(lg), old(tab), c.key) ==> |old(draws)| - 2 <= |draws|
      ensures forall d :: Swaps(h, old(draws), old(tab), d, 3) ==>
                outcome == Rejected && tab == old(tab)[0 := c] && hand == d && draws == old(draws)[3..]
      ensures Jammed(h, old(draws), 1) ==> forall j: nat :: FirstEmpty(old(tab), 0, j) ==>
                outcome == Placed && tab == old(tab)[j := c] && draws == old(draws)[1..]
    {
      hide Contents, Pow2, Distinct, AtHome;
      if Jammed(h, old(draws), 1) {
        JammedHome(h, lg, c.key);
      }
      var bucket := Masked(h.first(c.key), lg);
      var ok := TryBucketInsert(bucket, c);
      if ok {
        return Placed, c;
      }
      bucket := Masked(h.second(c.key), lg);
      ok := TryBucketInsert(bucket, c);
      if ok {
        return Placed, c;
      }
      outcome, hand := EvictRelocInsert(bucket, c);
    }

    /** ckh_rebuild: all items of another table are inserted into this empty one. */
    method Rebuild(from: Table) returns (outcome: Outcome)
      requires AtHome(h, lg, tab) && Contents(tab) == multiset{} && count == |Contents(from)| && Distinct(Contents(from))
      modifies this`tab, this`count, this`draws
      ensures AtHome(h, lg, tab)
      ensures outcome == Placed ==> Contents(tab) == Contents(from) && Sound()
      ensures outcome == Rejected ==> count == old(count)
      ensures Jammed(h, old(draws), CELLS) && |from| == CELLS && BucketFull(from, 0) && InOrder(old(tab), from, 0) ==>
                outcome == Placed && InOrder(tab, from, CELLS) && draws == old(draws)[CELLS..]
    {
      hide Contents, Pow2, Distinct, AtHome, Jammed, InOrder, BucketFull, FirstEmpty;
      ghost var jammed := Jammed(h, draws, CELLS) && |from| == CELLS && BucketFull(from, 0) && InOrder(tab, from, 0);
      var all := count;
      count := 0;
      var i, inserted := 0, 0;
      NoContents(from);
      while inserted < all
        invariant Sound() && i <= |from| && inserted == |Contents(from[..i])| && Contents(tab) == Contents(from[..i])
        invariant jammed ==> InOrder(tab, from, i) && i <= |old(draws)| && draws == old(draws)[i..] && Jammed(h, draws, CELLS - i)
        decreases |from| - i
      {
        assert i < |from| by { assert from[..|from|] == from; }
        if jammed {
          InOrderNext(tab, from, i);
          FullAt(from, i);
          JammedNext(h, draws, CELLS - i, 1);
          JammedLess(h, draws, CELLS - i, 1);
        }
        NextContents(from, i);
        NextDistinct(from, i);
        if from[i].Full? {
          var o, _ := TryInsert(from[i]);
          if o != Placed {
            count := all;
            return o;
          }
          inserted := inserted + 1;
        }
        i := i + 1;
      }
      PrefixWhole(from, i);
      if jammed {
        FullBucketCount(from);
        CountBound(from[..i]);
      }
      return Placed;
    }

    /** A rebuild into a new table of 2^lg' buckets; if it fails, the old table is put back. */
    method Replace(lg': nat) returns (outcome: Outcome)
      requires Valid() && lgMin <= lg'
      modifies this`tab, this`count, this`draws, this`lg
      ensures outcome != Unfinished ==> Valid() && Contents(tab) == old(Contents(tab))
      ensures lg == if outcome == Rejected then old(lg) else lg'
      ensures Jammed(h, old(draws), CELLS) && |old(tab)| == CELLS && BucketFull(old(tab), 0) ==>
                outcome == Placed && InOrder(tab, old(tab), CELLS) && draws == old(draws)[CELLS..]
    {
      hide Contents, Pow2, Distinct, AtHome, Jammed, BucketFull;
      var from, lgFrom := tab, lg;
      EmptyTable(h, lg');
      tab, lg := seq(CELLS * Pow2(lg'), _ => Empty), lg';
      EmptyInOrder(lg', from);
      outcome := Rebuild(from);
      if outcome == Rejected {
        tab, lg := from, lgFrom;
      }
    }

    /** ckh_grow: larger and larger tables until one takes all items, as long as there is memory. */
    method Grow() returns (outcome: Outcome)
      requires Valid()
      modifies this`tab, this`count, this`draws, this`lg, this`memory
      ensures outcome != Unfinished ==> Valid() && Contents(tab) == old(Contents(tab))
      ensures outcome == Rejected ==> memory == 0 && lg == old(lg)
      ensures old(memory) == 0 ==> outcome == Rejected
      ensures memory <= old(memory)
      ensures outcome == Placed ==> memory < old(memory) && lg == old(lg) + (old(memory) - memory)
      ensures Jammed(h, old(draws), CELLS) && |old(tab)| == CELLS && BucketFull(old(tab), 0) && old(memory) > 0 ==>
                outcome == Placed && InOrder(tab, old(tab), CELLS) && draws == old(draws)[CELLS..] && memory == old(memory) - 1
    {
      hide Contents, Pow2, Distinct, AtHome, Jammed, BucketFull, InOrder;
      ghost var jammed := Jammed(h, draws, CELLS) && |tab| == CELLS && BucketFull(tab, 0) && memory > 0;
      var lgNew := lg;
      while true
        invariant Valid() && Contents(tab) == old(Contents(tab)) && memory <= old(memory) && lg == old(lg) && lgNew == lg + (old(memory) - memory)
        invariant jammed ==> tab == old(tab) && draws == old(draws) && memory == old(memory)
        decreases memory
      {
        lgNew := lgNew + 1;
        if memory == 0 {
          return Rejected;
        }
        memory := memory - 1;
        outcome := Replace(lgNew);
        if outcome != Rejected {
          return;
        }
      }
    }

    /** ckh_shrink: half the table, if there is memory for it and the rebuild succeeds. */
    method Shrink() returns (outcome: Outcome)
      requires Valid() && lgMin < lg
      modifies this`tab, this`count, this`draws, this`lg, this`memory
      ensures outcome != Unfinished ==> Valid() && Contents(tab) == old(Contents(tab))
      ensures lg == if outcome == Rejected then old(lg) else old(lg) - 1
      ensures memory == if old(memory) == 0 then 0 else old(memory) - 1
      ensures old(memory) == 0 ==> outcome == Rejected
    {
      hide Contents, Pow2, Distinct, AtHome;
      if memory == 0 {
        return Rejected;
      }
      memory := memory - 1;
      outcome := Replace(lg - 1);
    }

    ghost function View(): map<nat, nat>
      requires Valid()
      reads this
    {
      Bindings(Contents(tab))
    }

    lemma Stored(i: nat)
      requires Valid() && i < |tab| && tab[i].Full?
      ensures tab[i].key in View() && View()[tab[i].key] == tab[i].data
    {
      hide AtHome;
      InContents(tab, tab[i]);
      Bound(Contents(tab), tab[i].key, tab[i].data);
    }

    lemma StoredAtHome(key: nat) returns (i: nat)
      requires Valid() && key in View()
      ensures i < |tab| && tab[i].Full? && tab[i].key == key && InBucket(i, i / CELLS) && Home(h, lg, key, i / CELLS)
    {
      hide Distinct, Home, Masked;
      var c := Full(key, View()[key]);
      Bound(Contents(tab), key, c.data);
      InContents(tab, c);
      i :| 0 <= i < |tab| && tab[i] == c;
    }

    /** ckh_isearch: the two buckets are enough. */
    method ISearch(key: nat) returns (cell: Option<nat>)
      requires Valid()
      ensures cell.Some? <==> key in View()
      ensures cell.Some? ==> cell.value < |tab| && tab[cell.value] == Full(key, View()[key])
    {
      hide Contents, Pow2, Distinct;
      var first, second := Masked(h.first(key), lg), Masked(h.second(key), lg);
      BucketFits(first, lg);
      BucketFits(second, lg);
      cell := BucketSearch(first, key);
      if cell.None? {
        cell := BucketSearch(second, key);
      }
      if cell.Some? {
        Stored(cell.value);
      } else if key in View() {
        var _ := StoredAtHome(key);
      }
    }

    /** ckh_search. */
    method Search(key: nat) returns (data: Option<nat>)
      requires Valid()
      ensures data == if key in View() then Some(View()[key]) else None
    {
      hide Contents, AtHome, Distinct;
      var cell := ISearch(key);
      data := if cell.Some? then Some(tab[cell.value].data) else None;
    }

    /**
     ckh_insert of a key that is not there. When memory runs out, the item in hand is lost. It is never the
     new one if the table has not been grown: then the insertion that reports failure has stored the new item in
     place of an old one. After a growth it can be either; all old bindings stay if and only if it is the new one.
     */
    method Insert(key: nat, data: nat) returns (outcome: Outcome, lost: Cell)
      requires Valid() && key !in View()
      modifies this`tab, this`count, this`draws, this`lg, this`memory
      ensures outcome == Placed ==> Valid() && View() == old(View())[key := data]
      ensures outcome == Rejected ==> Valid() && lost.Full? && lost.key in old(View())[key := data] && View() == old(View())[key := data] - {lost.key}
      ensures outcome == Rejected && lg == old(lg) ==> lost.key in old(View()) && lost.key != key
      ensures outcome == Rejected ==> (old(View()).Keys <= View().Keys <==> lost.key == key)
      ensures outcome == Placed ==> count == old(count) + 1
      ensures outcome != Placed ==> HomesFull(h, old(lg), old(tab), key)
      ensures old(memory) == 0 ==> lg == old(lg)
      ensures old(memory) == 0 && lg == 0 && |old(draws)| > 2 ==> outcome != Unfinished
      ensures old(memory) == 0 && lg == 0 && |old(draws)| > 2 ==> (outcome == Placed <==> old(count) < CELLS)
      ensures old(memory) == 0 && old(count) == CELLS * Pow2(old(lg)) ==> outcome != Placed
      ensures old(memory) == 0 && outcome != Unfinished ==> Valid() && (outcome == Placed <==> old(View()).Keys <= View().Keys)
      ensures !HomesFull(h, old(lg), old(tab), key) ==> |old(draws)| - 2 <= |draws|
      ensures memory <= old(memory)
      ensures old(memory) == 1 && Jammed(h, old(draws), 10) && |old(tab)| == CELLS && BucketFull(old(tab), 0) ==>
                outcome == Rejected && lost == Full(key, data)
      ensures Jammed(h, old(draws), 1) ==> forall j: nat :: FirstEmpty(old(tab), 0, j) ==>
                outcome == Placed && tab == old(tab)[j := Full(key, data)] && draws == old(draws)[1..] && lg == old(lg) && memory == old(memory)
    {
      hide Contents, Pow2, Distinct, AtHome, Bindings, HomesFull, Jammed, BucketFull, FirstEmpty, InOrder, Swaps;
      ghost var jammed := memory == 1 && Jammed(h, draws, 10) && |tab| == CELLS && BucketFull(tab, 0);
      if jammed {
        SwapsNow(h, draws, tab);
      }
      OneBucketRoom(h, tab, lg, count, key);
      ghost var before, total := Contents(tab), Contents(tab) + multiset{Full(key, data)};
      BindingsAdd(before, Full(key, data));
      lost := Full(key, data);
      while true
        invariant Valid() && lost.Full? && Contents(tab) + multiset{lost} == total && memory <= old(memory) && count == old(count)
        invariant memory == old(memory) ==> lost == Full(key, data) && tab == old(tab) && lg == old(lg) && draws == old(draws)
        invariant memory < old(memory) ==> HomesFull(h, old(lg), old(tab), key) && lg > old(lg)
        invariant memory < old(memory) ==> !FirstRoom(h, old(draws), old(tab))
        invariant jammed && memory < old(memory) ==> memory == 0 && Swaps(h, draws, tab, Full(key, data), 3)
        decreases memory
      {
        outcome, lost := TryInsert(lost);
        if outcome == Unfinished {
          return;
        }
        if outcome == Placed {
          OneBucket();
          ItemsFit(h, lg, tab);
          return;
        }
        BindingsRemove(Contents(tab), lost);
        LostKey(total, lost);
        if jammed && memory == 1 {
          Swapped(h, old(draws), draws, old(tab), tab, Full(key, data));
        }
        ghost var evicted, left := tab, draws;
        var grown := Grow();
        if jammed && memory == 0 && grown == Placed {
          Kept(h, left, draws, evicted, tab, Full(key, data));
        }
        if grown != Placed {
          outcome := grown;
          OldKey(before, lost);
          return;
        }
      }
    }

    /** ckh_remove. */
    method Remove(key: nat) returns (removed: Option<nat>, outcome: Outcome)
      requires Valid()
      modifies this`tab, this`count, this`draws, this`lg, this`memory
      ensures removed == if key in old(View()) then Some(old(View())[key]) else None
      ensures outcome != Unfinished ==> Valid() && View() == old(View()) - {key}
      ensures var sparse := removed.Some? && old(count) - 1 < Pow2(old(lg) + LG_CELLS - 2) && old(lg) > lgMin && old(memory) > 0;
              && memory == old(memory) - (if sparse then 1 else 0)
              && (lg == old(lg) || (sparse && lg == old(lg) - 1)) && (outcome == Placed ==> lg == old(lg) - 1)
    {
      hide Contents, Pow2, Distinct, AtHome, Bindings;
      var cell := ISearch(key);
      removed, outcome := None, Rejected;
      if cell.Some? {
        var i := cell.value;
        var c := tab[i];
        removed := Some(c.data);
        TakeContents(tab, i);
        BindingsRemove(Contents(tab[i := Empty]), c);
        HomeKept(h, lg, tab, i, Empty);
        tab, count := tab[i := Empty], count - 1;
        if count < Pow2(lg + LG_CELLS - 2) && lg > lgMin {
          outcome := Shrink();
        }
      }
    }

    /** An empty table. */
    constructor (h: Hashes, lgMin: nat, draws: seq<nat>, memory: nat)
      ensures Valid() && View() == map[] && this.h == h && this.lgMin == lgMin && lg == lgMin
      ensures this.draws == draws && this.memory == memory && count == 0
      ensures |tab| == CELLS * Pow2(lgMin) && forall i :: 0 <= i < |tab| ==> tab[i].Empty?
    {
      this.h, this.lgMin, this.draws, this.memory := h, lgMin, draws, memory;
      tab, lg, count := seq(CELLS * Pow2(lgMin), _ => Empty), lgMin, 0;
      new;
      EmptyTable(h, lgMin);
    }

    /** A table of one full bucket and no memory: insertion fails, and an old binding is gone. */
    method InsertIntoFull(key: nat, data: nat) returns (lost: nat)
      requires Valid() && key !in View() && lg == 0 && count == CELLS && memory == 0 && |draws| > 2
      modifies this`tab, this`count, this`draws, this`lg, this`memory
      ensures Valid() && lost in old(View()) && View() == old(View())[key := data] - {lost} && View() != old(View())
    {
      hide Contents, Distinct, Bindings;
      var outcome, item := Insert(key, data);
      OneBucket();
      CountBound(tab);
      lost := item.key;
      assert lost in old(View()) && lost !in View();
    }
  }

  /** The next eviction is in the full first bucket, and takes the item c. */
  ghost predicate Swaps(h: Hashes, draws: seq<nat>, tab: Table, c: Cell, n: nat)
  {
    |tab| > 0 && BucketFull(tab, 0) && Jammed(h, draws, n) && tab[0] == c
  }

  lemma SwapsNow(h: Hashes, draws: seq<nat>, tab: Table)
    requires Jammed(h, draws, 10) && BucketFull(tab, 0)
    ensures |tab| > 0 && Swaps(h, draws, tab, tab[0], 3)
  {
    FullAt(tab, 0);
  }

  lemma Swapped(h: Hashes, draws: seq<nat>, draws': seq<nat>, tab: Table, tab': Table, c: Cell)
    requires Jammed(h, draws, 10) && draws' == draws[3..] && |tab| == CELLS && BucketFull(tab, 0) && c.Full? && tab' == tab[0 := c]
    ensures |tab'| == CELLS && Swaps(h, draws', tab', c, 7) && Jammed(h, draws', CELLS) && BucketFull(tab', 0)
  {
  }

  lemma Kept(h: Hashes, draws: seq<nat>, draws': seq<nat>, tab: Table, tab': Table, c: Cell)
    requires Swaps(h, draws, tab, c, 7) && draws' == draws[CELLS..] && InOrder(tab', tab, CELLS)
    ensures Swaps(h, draws', tab', c, 3)
  {
    OrderFull(tab', tab);
  }

  lemma OrderFull(tab: Table, items: Table)
    requires InOrder(tab, items, CELLS) && BucketFull(items, 0)
    ensures BucketFull(tab, 0) && tab[0] == items[0]
  {
    assert forall i :: 0 <= i < CELLS ==> tab[i] == tab[..CELLS][i] && items[i] == items[..CELLS][i] && InBucket(i, 0);
  }

  /** The first bucket has room for a key that hashes to 0. */
  ghost predicate FirstRoom(h: Hashes, draws: seq<nat>, tab: Table)
  {
    Jammed(h, draws, 1) && exists j: nat :: FirstEmpty(tab, 0, j)
  }

  /** Neither of the two buckets of a key has room. */
  ghost predicate HomesFull(h: Hashes, lg: nat, tab: Table, key: nat)
  {
    BucketFull(tab, Masked(h.first(key), lg)) && BucketFull(tab, Masked(h.second(key), lg))
  }

  /** The map that distinct items stand for. */
  ghost function Bindings(bag: Bag): map<nat, nat>
    requires Distinct(bag)
  {
    map c | c in bag :: c.key := c.data
  }

  lemma Bound(bag: Bag, key: nat, data: nat)
    requires Distinct(bag)
    ensures Binds(Bindings(bag), key, data) <==> Full(key, data) in bag
    ensures key in Bindings(bag) ==> Full(key, Bindings(bag)[key]) in bag
  {
  }

  lemma NewDistinct(bag: Bag, c: Cell)
    requires Distinct(bag) && c.Full? && c.key !in Bindings(bag)
    ensures Distinct(bag + multiset{c})
  {
  }

  lemma BindingsAdd(bag: Bag, c: Cell)
    requires Distinct(bag) && c.Full? && c.key !in Bindings(bag)
    ensures Distinct(bag + multiset{c}) && Bindings(bag + multiset{c}) == Bindings(bag)[c.key := c.data]
  {
    NewDistinct(bag, c);
    var all := bag + multiset{c};
    forall k, d
      ensures Binds(Bindings(all), k, d) == Binds(Bindings(bag)[c.key := c.data], k, d)
    {
      Bound(all, k, d);
      Bound(bag, k, d);
    }
    SameMap(Bindings(all), Bindings(bag)[c.key := c.data]);
  }

  predicate Binds(m: map<nat, nat>, k: nat, d: nat)
  {
    k in m && m[k] == d
  }

  lemma SameMap(m: map<nat, nat>, n: map<nat, nat>)
    requires forall k, d :: Binds(m, k, d) == Binds(n, k, d)
    ensures m == n
  {
    assert forall k :: k in m ==> Binds(m, k, m[k]) && Binds(n, k, m[k]);
    assert forall k :: k in n ==> Binds(n, k, n[k]) && Binds(m, k, n[k]);
  }

  lemma SubDistinct(bag: Bag, c: Cell)
    requires Distinct(bag + multiset{c})
    ensures Distinct(bag) && c.Full?
  {
    var all := bag + multiset{c};
    assert c in all;
    forall d | d in bag
      ensures d.Full? && bag[d] == 1
    {
      assert d in all;
    }
    assert forall d :: d in bag ==> d in all;
  }

  lemma KeyGone(bag: Bag, c: Cell)
    requires Distinct(bag + multiset{c}) && Distinct(bag)
    ensures c.Full? && c.key !in Bindings(bag)
  {
    var all := bag + multiset{c};
    assert c in all && all[c] == 1;
    assert forall d :: d in bag ==> d in all && d != c;
  }

  lemma BindingsRemove(bag: Bag, c: Cell)
    requires Distinct(bag + multiset{c})
    ensures Distinct(bag) && c.Full? && Bindings(bag) == Bindings(bag + multiset{c}) - {c.key}
  {
    SubDistinct(bag, c);
    KeyGone(bag, c);
    BindingsAdd(bag, c);
    assert Bindings(bag)[c.key := c.data] - {c.key} == Bindings(bag);
  }

  lemma {:induction false} CountBound(tab: Table)
    ensures |Contents(tab)| <= |tab|
  {
    assert multiset(tab) == Contents(tab) + (multiset(tab) - Contents(tab));
  }

  /** No more items than cells. */
  lemma ItemsFit(h: Hashes, lg: nat, tab: Table)
    requires AtHome(h, lg, tab)
    ensures |Contents(tab)| <= CELLS * Pow2(lg)
  {
    CountBound(tab);
  }

  /** All cells full: as many items as cells. */
  lemma {:induction false} FullCount(tab: Table)
    requires forall i :: 0 <= i < |tab| ==> tab[i].Full?
    ensures |Contents(tab)| == |tab|
  {
    assert Empty !in multiset(tab) by {
      assert Empty !in tab;
    }
    assert Contents(tab) == multiset(tab);
  }

  /** The one bucket of a small table has room unless it holds four items. */
  lemma OneBucketRoom(h: Hashes, tab: Table, lg: nat, count: nat, key: nat)
    requires AtHome(h, lg, tab) && count == |Contents(tab)|
    ensures lg == 0 && count < CELLS ==> !HomesFull(h, lg, tab, key)
  {
    if lg == 0 {
      OneBucket();
      if HomesFull(h, lg, tab, key) {
        assert forall i :: 0 <= i < |tab| ==> InBucket(i, 0);
        FullCount(tab);
      }
    }
  }

  /** A small table with the keys below k. */
  ghost predicate Partly(t: Cuckoo, k: nat)
    reads t
  {
    t.Valid() && t.View() == Numbered(k) && t.count == k && t.lg == 0 && t.memory == 0
  }

  method FillOne(t: Cuckoo, k: nat)
    requires Partly(t, k) && k < CELLS && |t.draws| > 2
    modifies t`tab, t`count, t`draws, t`lg, t`memory
    ensures Partly(t, k + 1) && |old(t.draws)| - 2 <= |t.draws|
  {
    hide Contents, Distinct, Bindings, AtHome, HomesFull, Numbered;
    NumberedNext(k);
    OneBucketRoom(t.h, t.tab, t.lg, t.count, k);
    var outcome, _ := t.Insert(k, 10 + k);
    assert outcome == Placed;
  }

  lemma NumberedNext(k: nat)
    ensures k !in Numbered(k) && Numbered(k)[k := 10 + k] == Numbered(k + 1)
    ensures forall i :: i in Numbered(k) ==> i < k
  {
  }

  lemma PartlyEmpty(t: Cuckoo)
    requires t.Valid() && t.View() == map[] && t.count == 0 && t.lg == 0 && t.memory == 0
    ensures Partly(t, 0)
  {
    assert Numbered(0) == map[];
  }

  method LoseOne(t: Cuckoo) returns (lost: nat)
    requires Partly(t, CELLS) && |t.draws| > 2
    modifies t`tab, t`count, t`draws, t`lg, t`memory
    ensures t.Valid() && lost < CELLS && t.View() == Numbered(CELLS + 1) - {lost}
  {
    hide Contents, Distinct, Bindings, AtHome, Numbered;
    NumberedNext(CELLS);
    lost := t.InsertIntoFull(4, 14);
  }

  /** A table of one bucket, filled by four insertions; it takes a fifth key only by losing one of them. */
  method FillAndLose(h: Hashes, draws: seq<nat>) returns (t: Cuckoo, lost: nat)
    requires |draws| > 10
    ensures fresh(t) && t.Valid() && lost < CELLS && t.View() == Numbered(CELLS + 1) - {lost}
  {
    hide Partly, Numbered, Contents, Distinct, Bindings, AtHome;
    t := new Cuckoo(h, 0, draws, 0);
    PartlyEmpty(t);
    var k := 0;
    while k < CELLS
      invariant k <= CELLS && fresh(t) && Partly(t, k) && |draws| - 2 * k <= |t.draws|
    {
      FillOne(t, k);
      k := k + 1;
    }
    lost := LoseOne(t);
  }

  /** A table of one bucket with the keys below k in their order, which can be grown once, and in which all keys collide. */
  ghost predicate Colliding(t: Cuckoo, k: nat)
    reads t
  {
    && t.Valid() && t.View() == Numbered(k) && t.lg == 0 && t.memory == 1 && |t.tab| == CELLS && k <= CELLS && Jammed(t.h, t.draws, 14 - k)
    && forall i :: 0 <= i < CELLS ==> (t.tab[i].Full? <==> i < k)
  }

  method CollideOne(t: Cuckoo, k: nat)
    requires Colliding(t, k) && k < CELLS
    modifies t`tab, t`count, t`draws, t`lg, t`memory
    ensures Colliding(t, k + 1)
  {
    hide Contents, Distinct, Bindings, AtHome, HomesFull, Numbered, Jammed;
    NumberedNext(k);
    JammedLess(t.h, t.draws, 14 - k, 1);
    JammedNext(t.h, t.draws, 14 - k, 1);
    assert FirstEmpty(t.tab, 0, k);
    var _, _ := t.Insert(k, 10 + k);
  }

  lemma CollidingFull(t: Cuckoo)
    requires Colliding(t, CELLS)
    ensures t.Valid() && t.View() == Numbered(CELLS) && t.memory == 1 && Jammed(t.h, t.draws, 10) && |t.tab| == CELLS && BucketFull(t.tab, 0)
  {
  }

  /** After a growth the lost item can be the new one: the first eviction takes an old item, and after the growth that one takes the place of the new one. */
  method LoseNew() returns (t: Cuckoo, outcome: Outcome)
    ensures fresh(t) && t.Valid() && outcome == Rejected && t.View() == Numbered(CELLS)
  {
    hide Colliding, Numbered, Contents, Distinct, Bindings, AtHome, HomesFull;
    t := new Cuckoo(Hashes(_ => 0, _ => 0), 0, seq(14, _ => 0), 1);
    CollidingEmpty(t);
    var k := 0;
    while k < CELLS
      invariant k <= CELLS && fresh(t) && Colliding(t, k)
    {
      CollideOne(t, k);
      k := k + 1;
    }
    CollidingFull(t);
    NumberedNext(CELLS);
    var lost;
    outcome, lost := t.Insert(CELLS, 10 + CELLS);
    assert Numbered(CELLS)[CELLS := 10 + CELLS] - {CELLS} == Numbered(CELLS);
  }

  lemma CollidingEmpty(t: Cuckoo)
    requires t.Valid() && t.View() == map[] && t.lg == 0 && t.memory == 1 && |t.tab| == CELLS * Pow2(0) && t.draws == seq(14, _ => 0)
    requires forall key :: t.h.first(key) == 0 && t.h.second(key) == 0
    requires forall i :: 0 <= i < |t.tab| ==> t.tab[i].Empty?
    ensures Colliding(t, 0)
  {
    assert Numbered(0) == map[];
  }

  /** The keys below k, with data from 10 on. */
  ghost function Numbered(k: nat): map<nat, nat>
  {
    map i | i in Below(k) :: 10 + i
  }

  lemma NoContents(tab: Table)
    ensures Contents(tab[..0]) == multiset{}
  {
  }

  lemma NextDistinct(tab: Table, i: nat)
    requires i < |tab| && Distinct(Contents(tab))
    ensures Distinct(Contents(tab[..i + 1]))
  {
    NextContents(tab, i);
  }

  /** As many full cells as there are at all: they are all of them. */
  lemma PrefixWhole(tab: Table, i: nat)
    requires i <= |tab| && |Contents(tab)| <= |Contents(tab[..i])|
    ensures Contents(tab[..i]) == Contents(tab)
  {
    assert tab == tab[..i] + tab[i..];
    var a, b := Contents(tab[..i]), Contents(tab[i..]);
    assert Contents(tab) == a + b;
    assert |b| == 0;
  }

  lemma EmptyTable(h: Hashes, lg: nat)
    ensures AtHome(h, lg, seq(CELLS * Pow2(lg), _ => Empty)) && Contents(seq(CELLS * Pow2(lg), _ => Empty)) == multiset{}
  {
    var tab: Table := seq(CELLS * Pow2(lg), _ => Empty);
    assert forall c :: c in tab ==> c.Empty?;
    assert forall c :: c in Contents(tab) ==> c in tab;
  }

  lemma LostKey(total: Bag, c: Cell)
    requires Distinct(total) && c in total
    ensures c.Full? && c.key in Bindings(total)
  {
    Bound(total, c.key, c.data);
  }

  lemma OldKey(before: Bag, c: Cell)
    requires Distinct(before) && c.Full?
    ensures c in before ==> c.key in Bindings(before)
  {
    if c in before {
      Bound(before, c.key, c.data);
    }
  }
}
