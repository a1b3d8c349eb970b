/**
 Tables in which a doubling has put contexts into wrong slots: what every run keeps nevertheless, how long such a context
 is not found, and the doubling that puts it right.
 */
module HandleRecovery {
  import opened Wrappers
  import opened Arithmetic
  import opened HandleTable
  import opened HandleRegistrations
  import opened HandleRuns

  /** Every registered context is in one slot, not necessarily that of its handle. */
  ghost predicate Somewhere(slots: Slots, given: map<Context, nat>)
  {
    && |slots| > 0
    && (forall i :: 0 <= i < |slots| && slots[i].Some? ==> slots[i].value in given)
    && (forall i, j :: 0 <= i < |slots| && 0 <= j < |slots| && slots[i].Some? && slots[i] == slots[j] ==> i == j)
    && (forall c :: c in given ==> Some(c) in slots)
  }

  ghost predicate Scattered(s: System)
  {
    && s.lg <= HANDLE_BITS && |s.table.slots| == Pow2(s.lg) && 1 <= s.table.index <= HANDLE_RANGE
    && Somewhere(s.table.slots, s.given) && FieldsOk(s)
  }

  lemma ScatteredSized(s: System)
    requires Scattered(s)
    ensures Sized(s) && |s.table.slots| > 0
  {
  }

  lemma ValidScattered(s: System)
    requires Valid(s)
    ensures Scattered(s)
  {
    forall c | c in s.given
      ensures Some(c) in s.table.slots
    {
      assert s.table.slots[Hash(s.given[c], |s.table.slots|)] == Some(c);
    }
  }

  lemma PutSomewhere(slots: Slots, given: map<Context, nat>, i: nat, c: Context, handle: nat)
    requires Somewhere(slots, given) && c !in given && i < |slots| && slots[i].None?
    ensures Somewhere(slots[i := Some(c)], given[c := handle])
  {
    var slots' := slots[i := Some(c)];
    assert slots'[i] == Some(c);
    forall d | d in given
      ensures Some(d) in slots'
    {
      var j :| 0 <= j < |slots| && slots[j] == Some(d);
      assert slots'[j] == Some(d);
    }
  }

  /** The copy loop takes every context along. */
  lemma CopySomewhere(slots: Slots, handles: map<Context, nat>, given: map<Context, nat>)
    requires Somewhere(slots, given) && AllFull(slots) && Known(slots, handles) && Copy(slots, handles, |slots|).Some?
    ensures Somewhere(Copy(slots, handles, |slots|).value, given)
  {
    hide Copy, Target;
    var b := Copy(slots, handles, |slots|).value;
    CopyAt(slots, handles, |slots|);
    forall j, l | 0 <= j < |b| && 0 <= l < |b| && b[j].Some? && b[j] == b[l]
      ensures j == l
    {
      var i :| 0 <= i < |slots| && Target(slots, handles, i) == j && slots[i] == b[j];
      var k :| 0 <= k < |slots| && Target(slots, handles, k) == l && slots[k] == b[l];
      assert i == k;
    }
    forall c | c in given
      ensures Some(c) in b
    {
      var i :| 0 <= i < |slots| && slots[i] == Some(c);
      assert b[Target(slots, handles, i)] == Some(c);
    }
  }

  lemma PutScattered(s: System, harbor: nat, turn: nat, c: Context)
    requires Scattered(s) && c in s.table.handles && c !in s.given && c !in s.promised
    requires turn < |s.table.slots| && s.table.slots[Hash(Low(turn, s.table.index), |s.table.slots|)].None?
    ensures var (t, reply) := Put(s.table, harbor, turn, c);
            Scattered(System(t, s.lg, s.given[c := reply.handle], s.promised[c := reply.handle]))
  {
    hide Hash, Somewhere, Pow2;
    SlotsPositive(s);
    var low := Low(turn, s.table.index);
    PutSomewhere(s.table.slots, s.given, Hash(low, |s.table.slots|), c, harbor * HANDLE_RANGE + low);
  }

  lemma SlotsPositive(s: System)
    requires Scattered(s)
    ensures |s.table.slots| > 0
  {
  }

  lemma DoubledScattered(s: System)
    requires Scattered(s) && s.lg < HANDLE_BITS && AllFull(s.table.slots) && Known(s.table.slots, s.table.handles)
    requires Copy(s.table.slots, s.table.handles, |s.table.slots|).Some?
    ensures Scattered(Doubled(s))
  {
    hide Copy, Somewhere;
    CopySomewhere(s.table.slots, s.table.handles, s.given);
  }

  lemma TakeScattered(s: System, harbor: nat, c: Context)
    requires Scattered(s) && Enabled(s, Take(c)) && Known(s.table.slots, s.table.handles) && |s.table.slots| > 0
    requires Do(s, harbor, Take(c)).Some?
    ensures Scattered(Do(s, harbor, Take(c)).value)
  {
    hide FreeTurn, Copy, Hash, Pow2, LockedRegister, Scattered;
    ScatteredSized(s);
    LockedCases(s, harbor, c);
    var turn := FreeTurn(s.table.slots, s.table.index, 0);
    if turn.Some? {
      TurnFree(s.table.slots, s.table.index);
      PutScattered(s, harbor, turn.value, c);
    } else {
      assert s.lg < HANDLE_BITS;
      DoubledScattered(s);
      TurnFree(Doubled(s).table.slots, s.table.index);
      PutScattered(Doubled(s), harbor, FreeTurn(Doubled(s).table.slots, s.table.index, 0).value, c);
    }
  }

  lemma RetireScattered(s: System, handle: nat)
    requires Scattered(s) && Find(s.table, handle).Some?
    ensures var c := Find(s.table, handle).value;
            Scattered(s.(table := s.table.(slots := s.table.slots[Hash(handle, |s.table.slots|) := None]), given := s.given - {c}))
  {
    hide Hash, Pow2;
    var i, c := Hash(handle, |s.table.slots|), Find(s.table, handle).value;
    var slots' := s.table.slots[i := None];
    forall d | d in s.given - {c}
      ensures Some(d) in slots'
    {
      var j :| 0 <= j < |s.table.slots| && s.table.slots[j] == Some(d);
      assert slots'[j] == Some(d);
    }
  }

  /** Any step whose assertions hold, orderly or not, keeps every context in one slot. */
  lemma StepScattered(s: System, harbor: nat, step: Step)
    requires Scattered(s) && Enabled(s, step) && Known(s.table.slots, s.table.handles) && |s.table.slots| > 0 && Do(s, harbor, step).Some?
    ensures Scattered(Do(s, harbor, step).value)
  {
    hide Hash, Pow2, Somewhere, LockedRegister, Find;
    match step
    case Allocate(c, stale) =>
    case Take(c) => TakeScattered(s, harbor, c);
    case Write(c) =>
    case Retire(handle) =>
      if Find(s.table, handle).Some? {
        RetireScattered(s, handle);
      }
  }

  /** Some run of steps, orderly or not, in which no assertion fails leads from s to s'. */
  ghost predicate Leads(s: System, harbor: nat, run: seq<Step>, s': System)
    decreases |run|
  {
    if run == [] then s' == s
    else Passes(s, harbor, run[0]) && Leads(Do(s, harbor, run[0]).value, harbor, run[1..], s')
  }

  ghost predicate Passes(s: System, harbor: nat, step: Step)
  {
    Enabled(s, step) && Known(s.table.slots, s.table.handles) && |s.table.slots| > 0 && Do(s, harbor, step).Some?
  }

  lemma {:induction false} RunScattered(s: System, harbor: nat, run: seq<Step>, s': System)
    requires Scattered(s) && Leads(s, harbor, run, s')
    ensures Scattered(s')
    decreases |run|
  {
    hide Scattered, Do;
    if run != [] {
      StepScattered(s, harbor, run[0]);
      RunScattered(Do(s, harbor, run[0]).value, harbor, run[1..], s');
    }
  }

  // ---------- not found until the next doubling ----------

  /** A registered context with its field written that is not in the slot of its handle. */
  ghost predicate Lost(s: System, c: Context)
  {
    c in s.given && c !in s.promised && |s.table.slots| > 0 && s.table.slots[Hash(s.given[c], |s.table.slots|)] != Some(c)
  }

  /** A context whose field is written is found under its handle if and only if it is not lost. */
  lemma FoundIffNotLost(s: System, c: Context)
    requires Scattered(s) && c in s.given && c !in s.promised
    ensures |s.table.slots| > 0 && (Find(s.table, s.given[c]) == Some(c) <==> !Lost(s, c))
  {
    hide Hash;
  }

  /** The size of the table after a step. */
  lemma StepSize(s: System, harbor: nat, step: Step)
    requires Scattered(s) && Passes(s, harbor, step)
    ensures |Do(s, harbor, step).value.table.slots| >= |s.table.slots|
    ensures step.Take? && |Do(s, harbor, step).value.table.slots| == |s.table.slots| ==>
              FreeTurn(s.table.slots, s.table.index, 0).Some? && LockedRegister(s.table, harbor, step.c) == Put(s.table, harbor, FreeTurn(s.table.slots, s.table.index, 0).value, step.c)
  {
    hide FreeTurn, Copy, Hash, LockedRegister, Find, Pow2;
    if step.Take? {
      ScatteredSized(s);
      LockedCases(s, harbor, step.c);
    }
  }

  /** No step but a doubling helps a lost context. */
  lemma StepStaysLost(s: System, harbor: nat, step: Step, c: Context)
    requires Scattered(s) && Lost(s, c) && Passes(s, harbor, step) && |Do(s, harbor, step).value.table.slots| == |s.table.slots|
    ensures Lost(Do(s, harbor, step).value, c) && Do(s, harbor, step).value.given[c] == s.given[c]
  {
    hide FreeTurn, Copy, Hash, LockedRegister, Pow2;
    StepSize(s, harbor, step);
  }

  /** A lost context is not found, whatever is done, as long as the table keeps its size. */
  lemma {:induction false} LostUntilDoubling(s: System, harbor: nat, run: seq<Step>, s': System, c: Context)
    requires Scattered(s) && Lost(s, c) && Leads(s, harbor, run, s') && |s'.table.slots| == |s.table.slots|
    ensures Lost(s', c) && s'.given[c] == s.given[c] && Find(s'.table, s.given[c]) != Some(c)
    decreases |run|
  {
    hide Do, Scattered, Hash;
    if run != [] {
      var n := Do(s, harbor, run[0]).value;
      StepScattered(s, harbor, run[0]);
      StepSize(s, harbor, run[0]);
      RunSize(n, harbor, run[1..], s');
      StepStaysLost(s, harbor, run[0], c);
      LostUntilDoubling(n, harbor, run[1..], s', c);
    } else {
      FoundIffNotLost(s, c);
    }
  }

  lemma {:induction false} RunSize(s: System, harbor: nat, run: seq<Step>, s': System)
    requires Scattered(s) && Leads(s, harbor, run, s')
    ensures |s'.table.slots| >= |s.table.slots|
    decreases |run|
  {
    hide Do, Scattered;
    if run != [] {
      StepScattered(s, harbor, run[0]);
      StepSize(s, harbor, run[0]);
      RunSize(Do(s, harbor, run[0]).value, harbor, run[1..], s');
    }
  }

  // ---------- the doubling that puts it right ----------

  /** The handles of any two contexts give different slots of a table of n slots. */
  ghost predicate Apart(given: map<Context, nat>, n: nat)
    requires n > 0
  {
    forall c, d :: c in given && d in given && c != d ==> Hash(given[c], n) != Hash(given[d], n)
  }

  /** Whatever is where before: the copy loop puts every context into the slot of its handle if ... */
  lemma CopyRestores(s: System)
    requires Scattered(s) && AllFull(s.table.slots) && StaleHarmless(s) && Apart(s.given, 2 * |s.table.slots|)
    ensures Known(s.table.slots, s.table.handles)
    ensures var bigger := Copy(s.table.slots, s.table.handles, |s.table.slots|); bigger.Some? && Holds(bigger.value, s.given)
  {
    hide Hash, Copy, Pow2;
    var slots, handles, n := s.table.slots, s.table.handles, |s.table.slots|;
    forall i | 0 <= i < n
      ensures slots[i].value in s.given && slots[i].value in handles && Aimed(s, slots[i].value)
    {
    }
    CopySucceeds(slots, handles, n);
    CopyAt(slots, handles, n);
    var b := Copy(slots, handles, n).value;
    forall c | c in s.given
      ensures b[Hash(s.given[c], 2 * n)] == Some(c)
    {
      var i :| 0 <= i < n && slots[i] == Some(c);
      assert Target(slots, handles, i) == Hash(s.given[c], 2 * n);
    }
  }

  /** ... and only if all handles are apart and every unwritten field gives the right slot. */
  lemma RestoredOnly(s: System)
    requires Scattered(s) && AllFull(s.table.slots) && Known(s.table.slots, s.table.handles)
    requires Copy(s.table.slots, s.table.handles, |s.table.slots|).Some?
    requires forall c :: c in s.given ==> Copy(s.table.slots, s.table.handles, |s.table.slots|).value[Hash(s.given[c], 2 * |s.table.slots|)] == Some(c)
    ensures StaleHarmless(s) && Apart(s.given, 2 * |s.table.slots|)
  {
    hide Hash, Copy, Pow2;
    var slots, handles, n := s.table.slots, s.table.handles, |s.table.slots|;
    CopyAt(slots, handles, n);
    forall c | c in s.promised && c in s.given
      ensures Aimed(s, c)
    {
      var i :| 0 <= i < n && Target(slots, handles, i) == Hash(s.given[c], 2 * n) && slots[i] == Some(c);
    }
  }

  /**
   A registration that finds the table full makes it a proper one again, with every context in the slot of its handle, if and
   only if no two handles meet in the doubled table and no unwritten field gives a wrong slot.
   */
  lemma RecoveryExact(s: System, harbor: nat, c: Context)
    requires Scattered(s) && AllFull(s.table.slots) && s.lg < HANDLE_BITS && Enabled(s, Take(c))
    ensures Known(s.table.slots, s.table.handles) && |s.table.slots| > 0
    ensures (Do(s, harbor, Take(c)).Some? && Valid(Do(s, harbor, Take(c)).value)) <==> StaleHarmless(s) && Apart(s.given, 2 * |s.table.slots|)
  {
    hide FreeTurn, Copy, Hash, Pow2, StaleHarmless, Apart, LockedRegister, Scattered;
    ScatteredSized(s);
    NoTurnFull(s);
    LockedCases(s, harbor, c);
    if StaleHarmless(s) && Apart(s.given, 2 * |s.table.slots|) {
      CopyRestores(s);
      DoubledTurn(s);
      DoubledValid(s);
      TurnFree(Doubled(s).table.slots, s.table.index);
      PutKeeps(Doubled(s), harbor, FreeTurn(Doubled(s).table.slots, s.table.index, 0).value, c);
    } else if Do(s, harbor, Take(c)).Some? && Valid(Do(s, harbor, Take(c)).value) {
      DoubledTurn(s);
      TurnFree(Doubled(s).table.slots, s.table.index);
      HeldBefore(Doubled(s), harbor, FreeTurn(Doubled(s).table.slots, s.table.index, 0).value, c);
      RestoredOnly(s);
    }
  }

  /** After such a doubling every context whose field is written is found under its handle. */
  lemma RecoveredFinds(s: System, harbor: nat, c: Context, d: Context)
    requires Scattered(s) && Passes(s, harbor, Take(c)) && d in s.given && d !in s.promised && Valid(Do(s, harbor, Take(c)).value)
    ensures var s' := Do(s, harbor, Take(c)).value; |s'.table.slots| > 0 && Find(s'.table, s.given[d]) == Some(d)
  {
    hide FreeTurn, Copy, Hash, Pow2, LockedRegister;
    ScatteredSized(s);
    LockedCases(s, harbor, c);
  }

  lemma NoTurnFull(s: System)
    requires Sized(s) && AllFull(s.table.slots)
    ensures FreeTurn(s.table.slots, s.table.index, 0).None?
  {
    NoFreeTurn(s.table.slots, s.table.index, s.lg);
  }

  lemma DoubledValid(s: System)
    requires Scattered(s) && AllFull(s.table.slots) && Known(s.table.slots, s.table.handles) && s.lg < HANDLE_BITS
    requires Copy(s.table.slots, s.table.handles, |s.table.slots|).Some? && Holds(Copy(s.table.slots, s.table.handles, |s.table.slots|).value, s.given)
    ensures Valid(Doubled(s))
  {
    hide Copy, Holds;
  }

  lemma HeldBefore(s: System, harbor: nat, turn: nat, c: Context)
    requires turn < |s.table.slots| && c !in s.given
    requires var (t, reply) := Put(s.table, harbor, turn, c);
             Valid(System(t, s.lg, s.given[c := reply.handle], s.promised[c := reply.handle]))
    ensures forall d :: d in s.given ==> s.table.slots[Hash(s.given[d], |s.table.slots|)] == Some(d)
  {
    hide Hash, Pow2;
    var (t, reply) := Put(s.table, harbor, turn, c);
    forall d | d in s.given
      ensures s.table.slots[Hash(s.given[d], |s.table.slots|)] == Some(d)
    {
      assert s.given[c := reply.handle][d] == s.given[d];
      assert t.slots[Hash(s.given[d], |t.slots|)] == Some(d);
    }
  }
}
