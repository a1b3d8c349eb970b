/** Steps and runs of registrations, any number of them under way at once, and what is found in the table. */
module HandleRuns {
  import opened Wrappers
  import opened Arithmetic
  import opened HandleTable
  import opened HandleRegistrations

  /** Memory for a context is allocated; the table is locked and a slot taken; the field is written; a handle is retired. */
  datatype Step = Allocate(c: Context, stale: nat) | Take(c: Context) | Write(c: Context) | Retire(handle: nat)

  predicate Enabled(s: System, step: Step)
  {
    match step
    case Allocate(c, _) => c !in s.given && c !in s.promised
    case Take(c) => c in s.table.handles && c !in s.given && c !in s.promised
    case Write(c) => c in s.promised
    case Retire(_) => true
  }

  /** The state after a step; None when an assertion fails. */
  ghost function Do(s: System, harbor: nat, step: Step): Option<System>
    requires Known(s.table.slots, s.table.handles) && |s.table.slots| > 0 && Enabled(s, step)
  {
    match step
    case Allocate(c, stale) => Some(s.(table := s.table.(handles := s.table.handles[c := stale])))
    case Take(c) =>
      var (t, reply) := LockedRegister(s.table, harbor, c);
      if reply.Registered? then
        Some(System(t, if |t.slots| == |s.table.slots| then s.lg else s.lg + 1, s.given[c := reply.handle], s.promised[c := reply.handle]))
      else None
    case Write(c) => Some(s.(table := s.table.(handles := s.table.handles[c := s.promised[c]]), promised := s.promised - {c}))
    case Retire(handle) =>
      var c := Find(s.table, handle);
      if c.None? then Some(s)
      else Some(s.(table := s.table.(slots := s.table.slots[Hash(handle, |s.table.slots|) := None]), given := s.given - {c.value}))
  }

  /** A slot is free, or the table can double and no unwritten field would put a context into a wrong slot. */
  ghost predicate Orderly(s: System, step: Step)
  {
    step.Take? ==> FreeTurn(s.table.slots, s.table.index, 0).Some? || (s.lg < HANDLE_BITS && StaleHarmless(s))
  }

  /** The table is a proper hash table, whatever is where in it. */
  ghost predicate Sized(s: System)
  {
    s.lg <= HANDLE_BITS && |s.table.slots| == Pow2(s.lg) && Known(s.table.slots, s.table.handles)
  }

  lemma ValidKnown(s: System)
    requires Valid(s)
    ensures Known(s.table.slots, s.table.handles) && |s.table.slots| > 0 && Sized(s)
  {
  }

  /** Taking a free slot gives a handle that no registered context has. */
  lemma PutKeeps(s: System, harbor: nat, turn: nat, c: Context)
    requires Valid(s) && c in s.table.handles && c !in s.given && c !in s.promised
    requires turn < |s.table.slots| && s.table.slots[Hash(Low(turn, s.table.index), |s.table.slots|)].None?
    ensures var (t, reply) := Put(s.table, harbor, turn, c);
            && Valid(System(t, s.lg, s.given[c := reply.handle], s.promised[c := reply.handle]))
            && (forall d :: d in s.given ==> s.given[d] != reply.handle)
            && reply.handle / HANDLE_RANGE == harbor && reply.handle % HANDLE_RANGE == Low(turn, s.table.index)
  {
    var low := Low(turn, s.table.index);
    HashOfHandle(low, harbor, s.lg);
    RemainderUnique(harbor * HANDLE_RANGE + low, HANDLE_RANGE, harbor, low);
    PutHolds(s.table.slots, s.given, c, harbor * HANDLE_RANGE + low);
  }

  lemma PutHolds(slots: Slots, given: map<Context, nat>, c: Context, handle: nat)
    requires Holds(slots, given) && c !in given && slots[Hash(handle, |slots|)].None?
    ensures Holds(slots[Hash(handle, |slots|) := Some(c)], given[c := handle]) && forall d :: d in given ==> given[d] != handle
  {
    hide Hash;
  }

  /** The doubled table before the slot is taken. */
  ghost function Doubled(s: System): System
    requires AllFull(s.table.slots) && Known(s.table.slots, s.table.handles) && Copy(s.table.slots, s.table.handles, |s.table.slots|).Some?
  {
    s.(table := s.table.(slots := Copy(s.table.slots, s.table.handles, |s.table.slots|).value), lg := s.lg + 1)
  }

  lemma DoubledTurn(s: System)
    requires Sized(s) && AllFull(s.table.slots) && s.lg < HANDLE_BITS && Copy(s.table.slots, s.table.handles, |s.table.slots|).Some?
    ensures FreeTurn(Doubled(s).table.slots, s.table.index, 0).Some? && |Doubled(s).table.slots| == Pow2(s.lg + 1)
  {
    hide FreeTurn, Copy;
    var b := Doubled(s).table.slots;
    CopyCount(s.table.slots, s.table.handles, |s.table.slots|);
    SomeFree(b);
    NoFreeTurn(b, s.table.index, s.lg + 1);
  }

  /** What the locked region does, in the three cases. */
  lemma LockedCases(s: System, harbor: nat, c: Context)
    requires Sized(s)
    ensures |s.table.slots| > 0
    ensures var t, turn := s.table, FreeTurn(s.table.slots, s.table.index, 0);
            && (turn.Some? ==> LockedRegister(t, harbor, c) == Put(t, harbor, turn.value, c))
            && (turn.None? ==> AllFull(t.slots))
            && (turn.None? && s.lg == HANDLE_BITS ==> LockedRegister(t, harbor, c) == (t, TooLarge))
            && (turn.None? && s.lg < HANDLE_BITS ==>
                  if Copy(t.slots, t.handles, |t.slots|).None? then LockedRegister(t, harbor, c) == (t, Collided)
                  else var b, again := Doubled(s).table, FreeTurn(Doubled(s).table.slots, t.index, 0);
                       again.Some? && LockedRegister(t, harbor, c) == Put(b, harbor, again.value, c))
  {
    hide FreeTurn, Copy, Put, Hash;
    NoFreeTurn(s.table.slots, s.table.index, s.lg);
    LargestTable(s.lg);
    if FreeTurn(s.table.slots, s.table.index, 0).None? && s.lg < HANDLE_BITS && Copy(s.table.slots, s.table.handles, |s.table.slots|).Some? {
      DoubledTurn(s);
    }
  }

  /** A registration succeeds and keeps the table if and only if it is orderly. */
  lemma TakeExact(s: System, harbor: nat, c: Context)
    requires Valid(s) && Enabled(s, Take(c))
    ensures Known(s.table.slots, s.table.handles)
    ensures (Do(s, harbor, Take(c)).Some? && Valid(Do(s, harbor, Take(c)).value)) <==> Orderly(s, Take(c))
  {
    hide FreeTurn, Copy, Hash, Pow2, StaleHarmless, LockedRegister;
    ValidKnown(s);
    LockedCases(s, harbor, c);
    var turn := FreeTurn(s.table.slots, s.table.index, 0);
    if turn.Some? {
      TurnFree(s.table.slots, s.table.index);
      PutKeeps(s, harbor, turn.value, c);
    } else if s.lg < HANDLE_BITS && Copy(s.table.slots, s.table.handles, |s.table.slots|).Some? {
      DoublingExact(s);
      DoubledTurn(s);
      TurnFree(Doubled(s).table.slots, s.table.index);
      TakeDoubled(s, harbor, c);
    } else {
      DoublingExact(s);
    }
  }

  lemma TurnFree(slots: Slots, index: nat)
    ensures var turn := FreeTurn(slots, index, 0); turn.Some? ==> turn.value < |slots| && slots[Hash(Low(turn.value, index), |slots|)].None?
  {
  }

  lemma TakeDoubled(s: System, harbor: nat, c: Context)
    requires Valid(s) && Enabled(s, Take(c)) && AllFull(s.table.slots) && Known(s.table.slots, s.table.handles) && s.lg < HANDLE_BITS
    requires Copy(s.table.slots, s.table.handles, |s.table.slots|).Some?
    requires var turn := FreeTurn(Doubled(s).table.slots, s.table.index, 0);
             turn.Some? && turn.value < |Doubled(s).table.slots|
             && LockedRegister(s.table, harbor, c) == Put(Doubled(s).table, harbor, turn.value, c)
    requires Do(s, harbor, Take(c)).Some?
    ensures Valid(Do(s, harbor, Take(c)).value) <==> StaleHarmless(s)
  {
    hide FreeTurn, Copy, Hash, LockedRegister;
    ValidKnown(s);
    DoublingExact(s);
    DoubledTurn(s);
    TurnFree(Doubled(s).table.slots, s.table.index);
    var turn := FreeTurn(Doubled(s).table.slots, s.table.index, 0).value;
    if StaleHarmless(s) {
      PutKeeps(Doubled(s), harbor, turn, c);
    } else {
      var d :| d in s.promised && d in s.given && !Aimed(s, d);
      Misplaced(s, d);
    }
  }

  lemma AllocateKeeps(s: System, c: Context, stale: nat)
    requires Valid(s) && Enabled(s, Allocate(c, stale))
    ensures Valid(s.(table := s.table.(handles := s.table.handles[c := stale])))
  {
    hide Hash, Pow2;
  }

  lemma WriteKeeps(s: System, c: Context)
    requires Valid(s) && c in s.promised
    ensures Valid(s.(table := s.table.(handles := s.table.handles[c := s.promised[c]]), promised := s.promised - {c}))
  {
    hide Hash, Pow2;
  }

  lemma RetireKeeps(s: System, handle: nat)
    requires Valid(s) && Find(s.table, handle).Some?
    ensures var c := Find(s.table, handle).value;
            Valid(s.(table := s.table.(slots := s.table.slots[Hash(handle, |s.table.slots|) := None]), given := s.given - {c}))
  {
    hide Hash, Pow2;
  }

  lemma StepKeeps(s: System, harbor: nat, step: Step)
    requires Valid(s) && Enabled(s, step) && Orderly(s, step)
    ensures Known(s.table.slots, s.table.handles)
    ensures Do(s, harbor, step).Some? && Valid(Do(s, harbor, step).value)
  {
    hide Valid, Find, LockedRegister, Orderly;
    ValidKnown(s);
    match step
    case Allocate(c, stale) => AllocateKeeps(s, c, stale);
    case Take(c) => TakeExact(s, harbor, c);
    case Write(c) => WriteKeeps(s, c);
    case Retire(handle) =>
      if Find(s.table, handle).Some? {
        RetireKeeps(s, handle);
      }
  }

  /** skynet_handle_init. */
  ghost function Start(): System
  {
    System(Table([None, None, None, None], 1, map[]), 2, map[], map[])
  }

  lemma StartValid()
    ensures Valid(Start())
  {
    assert Pow2(2) == 4;
  }

  /** s is reached by the steps, any number of registrations being under way, as long as all of them are orderly. */
  ghost predicate Reached(s: System, harbor: nat, run: seq<Step>)
    decreases |run|
  {
    if run == [] then s == Start() else
      var k := |run| - 1;
      exists p: System :: Reached(p, harbor, run[..k]) && Follows(p, harbor, run[k], s)
  }

  ghost predicate Follows(p: System, harbor: nat, step: Step, s: System)
  {
    Enabled(p, step) && Orderly(p, step) && Known(p.table.slots, p.table.handles) && |p.table.slots| > 0 && Do(p, harbor, step) == Some(s)
  }

  lemma {:induction false} RunKeeps(s: System, harbor: nat, run: seq<Step>)
    requires Reached(s, harbor, run)
    ensures Valid(s)
    decreases |run|
  {
    if run == [] {
      StartValid();
    } else {
      hide Valid, Do, Orderly, Enabled;
      var k := |run| - 1;
      var p: System :| Reached(p, harbor, run[..k]) && Follows(p, harbor, run[k], s);
      RunKeeps(p, harbor, run[..k]);
      StepKeeps(p, harbor, run[k]);
    }
  }

  /**
   In every such run: a context whose field is written is found under its handle and no other one. A context whose
   field is not written yet is found if and only if the field happens to hold the handle looked for, in the slot of its own handle.
   */
  lemma FoundExact(s: System, harbor: nat, run: seq<Step>, c: Context, handle: nat)
    requires Reached(s, harbor, run) && c in s.given
    ensures |s.table.slots| > 0 && c in s.table.handles
    ensures c !in s.promised ==> (Find(s.table, handle) == Some(c) <==> handle == s.given[c])
    ensures c in s.promised ==> (Find(s.table, handle) == Some(c) <==>
              s.table.handles[c] == handle && Hash(handle, |s.table.slots|) == Hash(s.given[c], |s.table.slots|))
  {
    hide Hash, Reached, Pow2;
    RunKeeps(s, harbor, run);
  }

  /** Nothing else is found, and with no registration under way the answer is the context that is live under the handle. */
  lemma FoundLive(s: System, harbor: nat, run: seq<Step>, handle: nat)
    requires Reached(s, harbor, run)
    ensures |s.table.slots| > 0
    ensures Find(s.table, handle).Some? ==> Find(s.table, handle).value in s.given
    ensures s.promised == map[] ==>
              if c: Context :| c in s.given && s.given[c] == handle then Find(s.table, handle) == Some(c) else Find(s.table, handle) == None
  {
    hide Hash, Reached, Pow2;
    RunKeeps(s, harbor, run);
  }
}
