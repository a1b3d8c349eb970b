/**
 The table of live services. A handle is found in the slot given by its low bits; the table doubles
 when it is full. The low 24 bits of a handle are its index, the bits above are the harbor.
 A slot holds a context. The handle is a field of the context, and registration writes it only after the table has been unlocked:
 between the two steps the field is whatever the memory held before.
 */
module HandleTable {
  import opened Wrappers
  import opened Arithmetic

  const HANDLE_BITS := 24
  const HANDLE_RANGE := 0x100_0000   // HANDLE_MASK + 1
  const DEFAULT_SLOT_SIZE := 4

  /** The address of a context. */
  type Context = nat

  type Slots = seq<Option<Context>>

  /** x & (size-1) for a power of two. */
  function Hash(x: nat, size: nat): (i: nat)
    requires size > 0
    ensures i < size
  {
    x % size
  }

  /** The slot tried at turn i of skynet_handle_register. */
  function Probe(i: nat, start: nat, size: nat): (j: nat)
    requires size > 0
    ensures j < size
  {
    Hash(i + start, size)
  }

  /** The candidates, in the order they are tried, cover every slot. */
  lemma ProbeCovers(start: nat, size: nat, j: nat) returns (i: nat)
    requires j < size
    ensures i < size && Probe(i, start, size) == j
  {
    var base := start % size;
    i := if j >= base then j - base else j + size - base;
    var q := start / size;
    assert start == q * size + base;
    if j >= base {
      RemainderUnique(i + start, size, q, j);
    } else {
      assert i + start == (q + 1) * size + j;
      RemainderUnique(i + start, size, q + 1, j);
    }
  }

  /** A table of 2^lg slots ignores the mask of 24 bits ... */
  lemma HashOfMasked(x: nat, lg: nat)
    requires lg <= HANDLE_BITS
    ensures Hash(x % HANDLE_RANGE, Pow2(lg)) == Hash(x, Pow2(lg))
  {
    Pow2At24();
    MaskTwice(x, lg, HANDLE_BITS);
  }

  /** ... and the harbor above it. */
  lemma HashOfHandle(low: nat, harbor: nat, lg: nat)
    requires lg <= HANDLE_BITS && low < HANDLE_RANGE
    ensures Hash(harbor * HANDLE_RANGE + low, Pow2(lg)) == Hash(low, Pow2(lg))
  {
    hide Pow2;
    HashOfMasked(harbor * HANDLE_RANGE + low, lg);
    RemainderUnique(harbor * HANDLE_RANGE + low, HANDLE_RANGE, harbor, low);
  }

  lemma Pow2At24()
    ensures Pow2(24) == HANDLE_RANGE
  {
    assert Pow2(8) == 0x100 by {
      assert Pow2(4) == 16;
      Pow2Add(4, 4);
    }
    Pow2Add(8, 8);
    Pow2Add(16, 8);
  }

  lemma HashDoubled(x: nat, size: nat)
    requires size > 0
    ensures Hash(Hash(x, 2 * size), size) == Hash(x, size)
  {
    RemainderTwice(x, size, 2);
  }

  // ---------- the table ----------

  /** The slots, the next index to try, and the handle field of every context that is allocated. */
  datatype Table = Table(slots: Slots, index: nat, handles: map<Context, nat>)

  ghost predicate Known(slots: Slots, handles: map<Context, nat>)
  {
    forall i :: 0 <= i < |slots| && slots[i].Some? ==> slots[i].value in handles
  }

  /** The index tried at turn i. */
  function Low(i: nat, index: nat): (low: nat)
    ensures low < HANDLE_RANGE
  {
    (i + index) % HANDLE_RANGE
  }

  /** The first turn, from turn i on, that finds an empty slot. */
  function FreeTurn(slots: Slots, index: nat, i: nat): (turn: Option<nat>)
    requires i <= |slots|
    ensures turn.Some? ==> i <= turn.value < |slots| && slots[Hash(Low(turn.value, index), |slots|)].None?
    ensures forall k :: i <= k < (if turn.Some? then turn.value else |slots|) ==> slots[Hash(Low(k, index), |slots|)].Some?
    decreases |slots| - i
  {
    if i == |slots| then None
    else if slots[Hash(Low(i, index), |slots|)].None? then Some(i)
    else FreeTurn(slots, index, i + 1)
  }

  /** The slot in the doubled table that the copy loop computes, from the handle field. */
  function Target(slots: Slots, handles: map<Context, nat>, i: nat): (j: nat)
    requires i < |slots| && slots[i].Some? && slots[i].value in handles
    ensures j < 2 * |slots|
  {
    Hash(handles[slots[i].value], 2 * |slots|)
  }

  ghost predicate AllFull(slots: Slots)
  {
    |slots| > 0 && forall i :: 0 <= i < |slots| ==> slots[i].Some?
  }

  /** The first k turns of the copy loop; None if its assertion has failed. */
  function Copy(slots: Slots, handles: map<Context, nat>, k: nat): (bigger: Option<Slots>)
    requires k <= |slots| && (forall i :: 0 <= i < |slots| ==> slots[i].Some? && slots[i].value in handles)
    ensures bigger.Some? ==> |bigger.value| == 2 * |slots|
  {
    if k == 0 then Some(seq(2 * |slots|, _ => None)) else
      var before := Copy(slots, handles, k - 1);
      if before.None? || before.value[Target(slots, handles, k - 1)].Some? then None
      else Some(before.value[Target(slots, handles, k - 1) := slots[k - 1]])
  }

  /** How the locked region of skynet_handle_register ends: the last two are its failed assertions. */
  datatype Reply = Registered(handle: nat) | TooLarge | Collided

  /** Taking the slot of a turn. */
  function Put(t: Table, harbor: nat, turn: nat, c: Context): (Table, Reply)
    requires turn < |t.slots|
  {
    var low := Low(turn, t.index);
    (t.(slots := t.slots[Hash(low, |t.slots|) := Some(c)], index := low + 1), Registered(harbor * HANDLE_RANGE + low))
  }

  /** skynet_handle_retire and skynet_handle_grab find a context by the slot and the handle field. */
  function Find(t: Table, handle: nat): Option<Context>
    requires |t.slots| > 0
  {
    var c := t.slots[Hash(handle, |t.slots|)];
    if c.Some? && c.value in t.handles && t.handles[c.value] == handle then c else None
  }

  // ---------- what the copy loop does ----------

  lemma {:induction false} CopyAt(slots: Slots, handles: map<Context, nat>, k: nat)
    requires AllFull(slots) && Known(slots, handles) && k <= |slots| && Copy(slots, handles, k).Some?
    ensures forall i :: 0 <= i < k ==> Copy(slots, handles, k).value[Target(slots, handles, i)] == slots[i]
    ensures forall j :: 0 <= j < 2 * |slots| && Copy(slots, handles, k).value[j].Some? ==>
              exists i :: 0 <= i < k && Target(slots, handles, i) == j && slots[i] == Copy(slots, handles, k).value[j]
  {
    hide Hash;
    if k > 0 {
      CopyAt(slots, handles, k - 1);
      var b, b' := Copy(slots, handles, k - 1).value, Copy(slots, handles, k).value;
      forall j | 0 <= j < 2 * |slots| && b'[j].Some?
        ensures exists i :: 0 <= i < k && Target(slots, handles, i) == j && slots[i] == b'[j]
      {
        if j == Target(slots, handles, k - 1) {
          assert slots[k - 1] == b'[j];
        } else {
          var i :| 0 <= i < k - 1 && Target(slots, handles, i) == j && slots[i] == b[j];
          assert slots[i] == b'[j];
        }
      }
    }
  }

  ghost predicate NoTwoMeet(slots: Slots, handles: map<Context, nat>, k: nat)
    requires AllFull(slots) && Known(slots, handles) && k <= |slots|
  {
    forall i, l :: 0 <= i < l < k ==> Target(slots, handles, i) != Target(slots, handles, l)
  }

  /** The assertion of the copy loop holds to the end if and only if no two handle fields give the same slot. */
  lemma {:induction false} CopySucceeds(slots: Slots, handles: map<Context, nat>, k: nat)
    requires AllFull(slots) && Known(slots, handles) && k <= |slots|
    ensures Copy(slots, handles, k).Some? <==> NoTwoMeet(slots, handles, k)
  {
    hide Target;
    if k > 0 {
      CopySucceeds(slots, handles, k - 1);
      if Copy(slots, handles, k - 1).Some? {
        CopyAt(slots, handles, k - 1);
      }
    }
  }

  /** The doubled table has room. */
  lemma {:induction false} CopyCount(slots: Slots, handles: map<Context, nat>, k: nat)
    requires AllFull(slots) && Known(slots, handles) && k <= |slots| && Copy(slots, handles, k).Some?
    ensures |Taken(Copy(slots, handles, k).value)| == k
  {
    hide Target;
    if k > 0 {
      CopyCount(slots, handles, k - 1);
      var b, j := Copy(slots, handles, k - 1).value, Target(slots, handles, k - 1);
      assert Taken(b[j := slots[k - 1]]) == Taken(b) + {j};
    } else {
      assert Taken(Copy(slots, handles, 0).value) == {};
    }
  }

  ghost function Taken(slots: Slots): set<nat>
  {
    set i | 0 <= i < |slots| && slots[i].Some?
  }

  lemma SomeFree(slots: Slots)
    requires |Taken(slots)| < |slots|
    ensures exists j :: 0 <= j < |slots| && slots[j].None?
  {
    var all := Below(|slots|);
    assert Taken(slots) <= all && Taken(slots) != all;
    var j :| j in all && j !in Taken(slots);
    assert slots[j].None?;
  }

  /** A scan that finds nothing has seen every slot. */
  lemma NoFreeTurn(slots: Slots, index: nat, lg: nat)
    requires lg <= HANDLE_BITS && |slots| == Pow2(lg)
    ensures FreeTurn(slots, index, 0).None? <==> AllFull(slots)
  {
    hide Pow2, Hash, FreeTurn;
    if FreeTurn(slots, index, 0).None? {
      forall j | 0 <= j < |slots|
        ensures slots[j].Some?
      {
        var k := ProbeCovers(index, |slots|, j);
        HashOfMasked(k + index, lg);
        assert slots[Hash(Low(k, index), |slots|)].Some?;
      }
    }
  }

  /** The locked region of skynet_handle_register: the loop runs once, or twice around a doubling. */
  function LockedRegister(t: Table, harbor: nat, c: Context): (Table, Reply)
    requires Known(t.slots, t.handles) && |t.slots| > 0
  {
    var turn := FreeTurn(t.slots, t.index, 0);
    if turn.Some? then Put(t, harbor, turn.value, c)
    else if |t.slots| * 2 - 1 > HANDLE_RANGE - 1 || !(forall i :: 0 <= i < |t.slots| ==> t.slots[i].Some?) then (t, TooLarge)
    else
      var bigger := Copy(t.slots, t.handles, |t.slots|);
      if bigger.None? then (t, Collided) else
        var again := FreeTurn(bigger.value, t.index, 0);
        if again.None? then (t.(slots := bigger.value), TooLarge) else Put(t.(slots := bigger.value), harbor, again.value, c)
  }

  lemma SmallTable(lg: nat)
    requires lg <= HANDLE_BITS
    ensures Pow2(lg) <= HANDLE_RANGE
  {
    Pow2At24();
    Pow2Add(lg, HANDLE_BITS - lg);
    MulMono(1, Pow2(HANDLE_BITS - lg), Pow2(lg));
  }

  lemma LargestTable(lg: nat)
    requires lg <= HANDLE_BITS
    ensures Pow2(lg) * 2 - 1 > HANDLE_RANGE - 1 <==> lg == HANDLE_BITS
  {
    Pow2At24();
    if lg < HANDLE_BITS {
      Pow2Add(lg + 1, HANDLE_BITS - 1 - lg);
      MulMono(1, Pow2(HANDLE_BITS - 1 - lg), Pow2(lg + 1));
    }
  }
}
