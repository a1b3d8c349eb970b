/** How soon a handle is given again: registrations go round the index range, so that retired handles rest before they come back. */
module HandleReuse {
  import opened Wrappers
  import opened Arithmetic
  import opened HandleTable
  import opened HandleRegistrations
  import opened HandleRuns

  /** A registration takes an index from the next one on, at most as far on as the table has slots, and moves the next index behind it. */
  lemma TakeAdvances(s: System, harbor: nat, c: Context) returns (turn: nat)
    requires Valid(s) && Enabled(s, Take(c)) && Known(s.table.slots, s.table.handles) && |s.table.slots| > 0 && Do(s, harbor, Take(c)).Some?
    ensures var s' := Do(s, harbor, Take(c)).value;
            && c in s'.given && s'.table.index == s'.given[c] % HANDLE_RANGE + 1
            && turn < |s'.table.slots| && s'.given[c] % HANDLE_RANGE == (turn + s.table.index) % HANDLE_RANGE
  {
    hide FreeTurn, Copy, Hash, Pow2, LockedRegister;
    ValidKnown(s);
    LockedCases(s, harbor, c);
    if FreeTurn(s.table.slots, s.table.index, 0).Some? {
      turn := FreeTurn(s.table.slots, s.table.index, 0).value;
      TurnFree(s.table.slots, s.table.index);
      LowOfPut(s.table, harbor, turn, c);
    } else {
      var d := Doubled(s).table;
      turn := FreeTurn(d.slots, s.table.index, 0).value;
      TurnFree(d.slots, s.table.index);
      LowOfPut(d, harbor, turn, c);
    }
  }

  lemma LowOfPut(t: Table, harbor: nat, turn: nat, c: Context)
    requires turn < |t.slots|
    ensures Put(t, harbor, turn, c).1.Registered? && Put(t, harbor, turn, c).1.handle % HANDLE_RANGE == (turn + t.index) % HANDLE_RANGE
    ensures |Put(t, harbor, turn, c).0.slots| == |t.slots| && Put(t, harbor, turn, c).0.index == (turn + t.index) % HANDLE_RANGE + 1
  {
    var low := Low(turn, t.index);
    RemainderUnique(harbor * HANDLE_RANGE + low, HANDLE_RANGE, harbor, low);
  }

  /** The index goes down only when the end of the range is near. */
  lemma WrapsLate(s: System, harbor: nat, c: Context)
    requires Valid(s) && Enabled(s, Take(c)) && Known(s.table.slots, s.table.handles) && |s.table.slots| > 0 && Do(s, harbor, Take(c)).Some?
    ensures var s' := Do(s, harbor, Take(c)).value; s'.table.index > s.table.index || s.table.index + |s'.table.slots| > HANDLE_RANGE
  {
    hide Do, Valid;
    var turn := TakeAdvances(s, harbor, c);
    assert turn + s.table.index < HANDLE_RANGE ==> (turn + s.table.index) % HANDLE_RANGE == turn + s.table.index;
  }

  /** s is reached by the run, and `handed` are all handles that were given in it, in order; the index has not gone round in it. */
  ghost predicate Handed(s: System, harbor: nat, run: seq<Step>, handed: seq<nat>)
    decreases |run|
  {
    if run == [] then s == Start() && handed == [] else
      var k := |run| - 1;
      exists p: System, before: seq<nat> :: Handed(p, harbor, run[..k], before) && Follows(p, harbor, run[k], s)
        && if run[k].Take? then run[k].c in s.given && handed == before + [s.given[run[k].c]] && s.table.index > p.table.index else handed == before
  }

  lemma {:induction false} HandedReached(s: System, harbor: nat, run: seq<Step>, handed: seq<nat>)
    requires Handed(s, harbor, run, handed)
    ensures Reached(s, harbor, run)
    decreases |run|
  {
    if run != [] {
      hide Follows;
      var k := |run| - 1;
      var p: System, before: seq<nat> :| Handed(p, harbor, run[..k], before) && Follows(p, harbor, run[k], s);
      HandedReached(p, harbor, run[..k], before);
    }
  }

  /** The indices of the handles rise, and lie below the next index. */
  ghost predicate Rising(handed: seq<nat>, index: nat)
  {
    && (forall i, j :: 0 <= i < j < |handed| ==> handed[i] % HANDLE_RANGE < handed[j] % HANDLE_RANGE)
    && (forall i :: 0 <= i < |handed| ==> handed[i] % HANDLE_RANGE < index)
  }

  lemma RisingNext(handed: seq<nat>, index: nat, handle: nat, index': nat)
    requires Rising(handed, index) && index' > index && index' == handle % HANDLE_RANGE + 1
    ensures Rising(handed + [handle], index')
  {
  }

  lemma RisingDiffer(handed: seq<nat>, index: nat)
    ensures Rising(handed, index) ==> forall i, j :: 0 <= i < j < |handed| ==> handed[i] != handed[j]
  {
  }

  lemma StepIndex(s: System, harbor: nat, step: Step)
    requires !step.Take? && Enabled(s, step) && Known(s.table.slots, s.table.handles) && |s.table.slots| > 0 && Do(s, harbor, step).Some?
    ensures Do(s, harbor, step).value.table.index == s.table.index
  {
    hide Find, Hash;
  }

  /**
   As long as the index has not gone round no handle is given twice, also not to a new context after the old one has been
   retired.
   */
  lemma {:induction false} NoEarlyReuse(s: System, harbor: nat, run: seq<Step>, handed: seq<nat>)
    requires Handed(s, harbor, run, handed)
    ensures Rising(handed, s.table.index) && forall i, j :: 0 <= i < j < |handed| ==> handed[i] != handed[j]
    decreases |run|
  {
    RisingDiffer(handed, s.table.index);
    if run != [] {
      hide Do, Orderly, Enabled, Valid, Rising;
      var k := |run| - 1;
      var p: System, before: seq<nat> :| Handed(p, harbor, run[..k], before) && Follows(p, harbor, run[k], s)
        && if run[k].Take? then run[k].c in s.given && handed == before + [s.given[run[k].c]] && s.table.index > p.table.index else handed == before;
      NoEarlyReuse(p, harbor, run[..k], before);
      HandedReached(p, harbor, run[..k], before);
      RunKeeps(p, harbor, run[..k]);
      if run[k].Take? {
        var _ := TakeAdvances(p, harbor, run[k].c);
        RisingNext(before, p.table.index, s.given[run[k].c], s.table.index);
      } else {
        StepIndex(p, harbor, run[k]);
      }
    }
  }
}
