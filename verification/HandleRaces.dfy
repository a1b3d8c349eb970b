/** Two registrations at once: runs in which the doubling collides, and in which it hides a context until the next doubling. */
module HandleRaces {
  import opened Wrappers
  import opened Arithmetic
  import opened HandleTable
  import opened HandleRegistrations
  import opened HandleRuns
  import opened HandleRecovery

  ghost predicate ReachedBySome(s: System, harbor: nat)
  {
    exists run :: Reached(s, harbor, run)
  }

  lemma ExtendSome(s: System, harbor: nat, step: Step, s': System)
    requires ReachedBySome(s, harbor) && Follows(s, harbor, step, s')
    ensures ReachedBySome(s', harbor)
  {
    var run :| Reached(s, harbor, run);
    assert (run + [step])[..|run|] == run;
    assert Reached(s', harbor, run + [step]);
  }

  const HOME := HANDLE_RANGE   // the first handle of harbor 1

  /** Contexts 1 to 3 are registered, and memory for 4 and 5 is allocated. */
  ghost function Three(stale: nat): System
  {
    System(Table([None, Some(1), Some(2), Some(3)], 4, map[1 := HOME + 1, 2 := HOME + 2, 3 := HOME + 3, 4 := stale, 5 := 0]), 2,
           map[1 := HOME + 1, 2 := HOME + 2, 3 := HOME + 3], map[])
  }

  lemma AllocateStep(s: System, c: Context, stale: nat, s': System)
    requires ReachedBySome(s, 1) && Valid(s) && c !in s.given && c !in s.promised
    requires s' == s.(table := s.table.(handles := s.table.handles[c := stale]))
    ensures ReachedBySome(s', 1) && Valid(s')
  {
    hide Valid, ReachedBySome;
    ValidKnown(s);
    AllocateKeeps(s, c, stale);
    ExtendSome(s, 1, Allocate(c, stale), s');
  }

  /** A slot is free at the first turn. */
  lemma TakeStep(s: System, c: Context, s': System)
    requires ReachedBySome(s, 1) && Valid(s) && Enabled(s, Take(c)) && s.table.index < HANDLE_RANGE
    requires s.table.slots[Hash(s.table.index, |s.table.slots|)].None?
    requires s' == System(s.table.(slots := s.table.slots[Hash(s.table.index, |s.table.slots|) := Some(c)], index := s.table.index + 1),
                          s.lg, s.given[c := HOME + s.table.index], s.promised[c := HOME + s.table.index])
    ensures ReachedBySome(s', 1) && Valid(s')
  {
    hide Valid, ReachedBySome, LockedRegister, FreeTurn, Hash;
    ValidKnown(s);
    FirstTurn(s, c);
    assert Do(s, 1, Take(c)) == Some(s');
    StepKeeps(s, 1, Take(c));
    ExtendSome(s, 1, Take(c), s');
  }

  lemma WriteStep(s: System, c: Context, s': System)
    requires ReachedBySome(s, 1) && Valid(s) && c in s.promised
    requires s' == s.(table := s.table.(handles := s.table.handles[c := s.promised[c]]), promised := s.promised - {c})
    ensures ReachedBySome(s', 1) && Valid(s')
  {
    hide Valid, ReachedBySome;
    ValidKnown(s);
    WriteKeeps(s, c);
    ExtendSome(s, 1, Write(c), s');
  }

  /** Allocate, take and write in a row. */
  lemma OneMore(s: System, c: Context, s': System)
    requires ReachedBySome(s, 1) && Valid(s) && c !in s.given && s.promised == map[] && s.table.index < HANDLE_RANGE
    requires s.table.slots[Hash(s.table.index, |s.table.slots|)].None?
    requires var handle := HOME + s.table.index;
             s' == System(Table(s.table.slots[Hash(s.table.index, |s.table.slots|) := Some(c)], s.table.index + 1, s.table.handles[c := handle]),
                          s.lg, s.given[c := handle], map[])
    ensures ReachedBySome(s', 1) && Valid(s')
  {
    hide Hash, Valid, ReachedBySome;
    ValidKnown(s);
    var handle := HOME + s.table.index;
    var s1 := s.(table := s.table.(handles := s.table.handles[c := 0]));
    AllocateStep(s, c, 0, s1);
    var s2 := System(Table(s'.table.slots, s'.table.index, s1.table.handles), s.lg, s'.given, s1.promised[c := handle]);
    TakeStep(s1, c, s2);
    assert s2.promised - {c} == map[];
    assert s2.table.handles[c := handle] == s'.table.handles;
    WriteStep(s2, c, s');
  }

  lemma FirstTurn(s: System, c: Context)
    requires Valid(s) && s.table.index < HANDLE_RANGE && s.table.slots[Hash(s.table.index, |s.table.slots|)].None?
    ensures Known(s.table.slots, s.table.handles) && FreeTurn(s.table.slots, s.table.index, 0) == Some(0)
    ensures LockedRegister(s.table, 1, c) == (s.table.(slots := s.table.slots[Hash(s.table.index, |s.table.slots|) := Some(c)], index := s.table.index + 1),
                                              Registered(HOME + s.table.index))
  {
    hide Hash, Pow2;
  }

  lemma StartReached()
    ensures ReachedBySome(Start(), 1) && Valid(Start())
  {
    assert Reached(Start(), 1, []);
    RunKeeps(Start(), 1, []);
  }

  lemma ThreeReached(stale: nat)
    ensures ReachedBySome(Three(stale), 1) && Valid(Three(stale))
  {
    hide Valid, ReachedBySome;
    StartReached();
    var s0 := Start();
    var s1 := System(Table([None, Some(1), None, None], 2, map[1 := HOME + 1]), 2, map[1 := HOME + 1], map[]);
    OneMore(s0, 1, s1);
    var s2 := System(Table([None, Some(1), Some(2), None], 3, map[1 := HOME + 1, 2 := HOME + 2]), 2, map[1 := HOME + 1, 2 := HOME + 2], map[]);
    OneMore(s1, 2, s2);
    var given := map[1 := HOME + 1, 2 := HOME + 2, 3 := HOME + 3];
    var s3 := System(Table([None, Some(1), Some(2), Some(3)], 4, given), 2, given, map[]);
    OneMore(s2, 3, s3);
    var s4 := s3.(table := s3.table.(handles := given[4 := stale]));
    AllocateStep(s3, 4, stale, s4);
    AllocateStep(s4, 5, 0, Three(stale));
  }

  /** Context 4 has taken slot 0, which fills the table, and its handle field is not written yet. */
  ghost function UnderWay(stale: nat): System
  {
    System(Three(stale).table.(slots := [Some(4), Some(1), Some(2), Some(3)], index := 5), 2,
           Three(stale).given[4 := HOME + 4], map[4 := HOME + 4])
  }

  lemma UnderWayReached(stale: nat)
    ensures ReachedBySome(UnderWay(stale), 1) && Valid(UnderWay(stale))
  {
    hide Valid, ReachedBySome;
    ThreeReached(stale);
    TakeStep(Three(stale), 4, UnderWay(stale));
  }

  lemma UnderWayFull(stale: nat)
    ensures var s := UnderWay(stale);
            AllFull(s.table.slots) && Known(s.table.slots, s.table.handles) && Enabled(s, Take(5)) && FreeTurn(s.table.slots, s.table.index, 0).None?
  {
    hide FreeTurn;
    var s := UnderWay(stale);
    assert Pow2(2) == 4;
    NoFreeTurn(s.table.slots, s.table.index, 2);
  }

  lemma UnderWayMeets()
    ensures Meet(UnderWay(1), 4, 1)
  {
  }

  /** The stale field 1 meets the handle of context 1: when another thread registers context 5, the assertion of the copy loop fails. */
  lemma SecondRegistrationCollides()
    ensures ReachedBySome(UnderWay(1), 1) && Enabled(UnderWay(1), Take(5)) && Known(UnderWay(1).table.slots, UnderWay(1).table.handles)
    ensures |UnderWay(1).table.slots| > 0 && LockedRegister(UnderWay(1).table, 1, 5).1 == Collided
  {
    hide Copy, LockedRegister, FreeTurn, Valid, ReachedBySome, Meet, Known, AllFull;
    UnderWayReached(1);
    UnderWayFull(1);
    LockedCases(UnderWay(1), 1, 5);
    UnderWayMeets();
    CollisionExact(UnderWay(1));
  }

  /**
   A doubling that puts a context with an unwritten field into a wrong slot: with the field written, the context is lost, which
   it stays until the table doubles again.
   */
  lemma LostByDoubling(s: System, harbor: nat, c: Context, d: Context)
    requires Valid(s) && AllFull(s.table.slots) && Enabled(s, Take(d)) && s.lg < HANDLE_BITS && c in s.promised && c in s.given && !Aimed(s, c)
    requires Known(s.table.slots, s.table.handles) && Do(s, harbor, Take(d)).Some?
    ensures var s' := Do(s, harbor, Take(d)).value;
            && Scattered(s') && Enabled(s', Write(c)) && s'.given[c] == s.given[c] && Passes(s', harbor, Write(c))
            && Scattered(Do(s', harbor, Write(c)).value) && Lost(Do(s', harbor, Write(c)).value, c)
  {
    hide Copy, LockedRegister, FreeTurn, Hash, Pow2, Scattered, Holds, FieldsOk;
    NoTurn(s);
    ValidScattered(s);
    ValidKnown(s);
    TakeScattered(s, harbor, d);
    LockedCases(s, harbor, d);
    Misplaced(s, c);
    TurnFree(Doubled(s).table.slots, s.table.index);
    var s' := Do(s, harbor, Take(d)).value;
    ScatteredSized(s');
    StepScattered(s', harbor, Write(c));
  }

  lemma NoTurn(s: System)
    requires Valid(s) && AllFull(s.table.slots)
    ensures FreeTurn(s.table.slots, s.table.index, 0).None?
  {
    NoFreeTurn(s.table.slots, s.table.index, s.lg);
  }

  lemma UnderWayTargets(stale: nat)
    ensures AllFull(UnderWay(stale).table.slots) && Known(UnderWay(stale).table.slots, UnderWay(stale).table.handles)
    ensures var slots, handles := UnderWay(stale).table.slots, UnderWay(stale).table.handles;
            |slots| == 4 && Target(slots, handles, 0) == stale % 8 && Target(slots, handles, 1) == 1
            && Target(slots, handles, 2) == 2 && Target(slots, handles, 3) == 3
  {
  }

  lemma UnderWayApart()
    ensures AllFull(UnderWay(0).table.slots) && Known(UnderWay(0).table.slots, UnderWay(0).table.handles)
    ensures NoTwoMeet(UnderWay(0).table.slots, UnderWay(0).table.handles, |UnderWay(0).table.slots|)
  {
    hide UnderWay, AllFull, Known, Target;
    UnderWayTargets(0);
  }

  /** The slots after the doubling of UnderWay(0): the unwritten field 0 puts context 4 into slot 0. */
  lemma UnderWayCopied()
    ensures AllFull(UnderWay(0).table.slots) && Known(UnderWay(0).table.slots, UnderWay(0).table.handles)
    ensures Copy(UnderWay(0).table.slots, UnderWay(0).table.handles, |UnderWay(0).table.slots|) == Some([Some(4), Some(1), Some(2), Some(3), None, None, None, None])
  {
    hide Target;
    UnderWayTargets(0);
    var slots, handles := UnderWay(0).table.slots, UnderWay(0).table.handles;
    assert Copy(slots, handles, 0).value == [None, None, None, None, None, None, None, None];
    assert Copy(slots, handles, 1).value == [Some(4), None, None, None, None, None, None, None];
    assert Copy(slots, handles, 2).value == [Some(4), Some(1), None, None, None, None, None, None];
    assert Copy(slots, handles, 3).value == [Some(4), Some(1), Some(2), None, None, None, None, None];
    assert Copy(slots, handles, 4).Some?;
    assert Copy(slots, handles, 4).value == [Some(4), Some(1), Some(2), Some(3), None, None, None, None];
  }

  /** Context 5 is registered as well, and all fields are written. */
  ghost function Astray(): System
  {
    var given := map[1 := HOME + 1, 2 := HOME + 2, 3 := HOME + 3, 4 := HOME + 4, 5 := HOME + 5];
    System(Table([Some(4), Some(1), Some(2), Some(3), None, Some(5), None, None], 6, given), 3, given, map[])
  }

  lemma LeadsOn(s: System, harbor: nat, step: Step, s1: System, run: seq<Step>, s': System)
    requires Passes(s, harbor, step) && Do(s, harbor, step) == Some(s1) && Leads(s1, harbor, run, s')
    ensures Leads(s, harbor, [step] + run, s')
  {
    hide Do, Passes;
    assert ([step] + run)[1..] == run;
  }

  lemma LeadsThere(s: System, harbor: nat)
    ensures Leads(s, harbor, [], s)
  {
  }

  lemma TakeFive()
    ensures var s := UnderWay(0);
            && Passes(s, 1, Take(5)) && |s.table.slots| == 4
            && Do(s, 1, Take(5)) == Some(System(Table([Some(4), Some(1), Some(2), Some(3), None, Some(5), None, None], 6, s.table.handles), 3,
                                                Astray().given, map[4 := HOME + 4, 5 := HOME + 5]))
  {
    hide Copy, LockedRegister, Valid, ReachedBySome;
    var s := UnderWay(0);
    UnderWayReached(0);
    ValidKnown(s);
    UnderWayFull(0);
    UnderWayCopied();
    LockedCases(s, 1, 5);
    var slots := [Some(4), Some(1), Some(2), Some(3), None, None, None, None];
    assert slots[Hash(Low(0, 5), 8)].None?;
    assert FreeTurn(slots, 5, 0) == Some(0);
    assert Doubled(s).table == s.table.(slots := slots);
    assert slots[5 := Some(5)] == Astray().table.slots;
    assert s.given[5 := HOME + 5] == Astray().given;
    assert s.promised[5 := HOME + 5] == map[4 := HOME + 4, 5 := HOME + 5];
  }

  lemma AstrayReached()
    ensures Leads(UnderWay(0), 1, [Take(5)] + ([Write(4)] + ([Write(5)] + [])), Astray())
  {
    hide Do, Leads;
    TakeFive();
    var s1 := Do(UnderWay(0), 1, Take(5)).value;
    var s2 := s1.(table := s1.table.(handles := s1.table.handles[4 := HOME + 4]), promised := map[5 := HOME + 5]);
    WriteLeads(s1, 4, s2);
    WriteLeads(s2, 5, Astray());
    LeadsThere(Astray(), 1);
    LeadsOn(s2, 1, Write(5), Astray(), [], Astray());
    LeadsOn(s1, 1, Write(4), s2, [Write(5)] + [], Astray());
    LeadsOn(UnderWay(0), 1, Take(5), s1, [Write(4)] + ([Write(5)] + []), Astray());
  }

  lemma WriteLeads(s: System, c: Context, s': System)
    requires c in s.promised && |s.table.slots| > 0 && Known(s.table.slots, s.table.handles)
    requires s'.table == s.table.(handles := s.table.handles[c := s.promised[c]]) && s'.promised == s.promised - {c} && s'.given == s.given && s'.lg == s.lg
    ensures Passes(s, 1, Write(c)) && Do(s, 1, Write(c)) == Some(s')
  {
  }

  /**
   With the field still 0, as in fresh memory, the copy loop gets through; but until the table doubles again, context 4 is
   not found under its handle, whatever is done.
   */
  lemma SecondRegistrationMisplaces(run: seq<Step>, s': System)
    requires Leads(Astray(), 1, run, s') && |s'.table.slots| == |Astray().table.slots|
    ensures ReachedBySome(UnderWay(0), 1) && Leads(UnderWay(0), 1, [Take(5)] + ([Write(4)] + ([Write(5)] + [])), Astray())
    ensures Astray().given[4] == HOME + 4 && |s'.table.slots| > 0 && Find(s'.table, HOME + 4) != Some(4)
  {
    hide Valid, ReachedBySome, Leads, Find, Scattered;
    UnderWayReached(0);
    AstrayReached();
    ValidScattered(UnderWay(0));
    RunScattered(UnderWay(0), 1, [Take(5)] + ([Write(4)] + ([Write(5)] + [])), Astray());
    LostUntilDoubling(Astray(), 1, run, s', 4);
  }

  // ---------- the next doubling ----------

  lemma {:induction false} LeadsJoin(s: System, run: seq<Step>, m: System, rest: seq<Step>, s': System)
    requires Leads(s, 1, run, m) && Leads(m, 1, rest, s')
    ensures Leads(s, 1, run + rest, s')
    decreases |run|
  {
    hide Do;
    if run == [] {
      assert run + rest == rest;
    } else {
      assert (run + rest)[0] == run[0] && (run + rest)[1..] == run[1..] + rest;
      LeadsJoin(Do(s, 1, run[0]).value, run[1..], m, rest, s');
    }
  }

  ghost function Whole(c: Context): seq<Step>
  {
    [Allocate(c, 0)] + ([Take(c)] + ([Write(c)] + []))
  }

  ghost function Registering(s: System, turn: nat, c: Context): System
    requires |s.table.slots| > 0
  {
    var handle := HOME + Low(turn, s.table.index);
    System(Table(s.table.slots[Hash(Low(turn, s.table.index), |s.table.slots|) := Some(c)], Low(turn, s.table.index) + 1, s.table.handles[c := handle]),
           s.lg, s.given[c := handle], map[])
  }

  /** A whole registration where there is an empty slot. */
  lemma WholeLeads(s: System, turn: nat, c: Context)
    requires c !in s.given && s.promised == map[] && |s.table.slots| > 0 && Known(s.table.slots, s.table.handles)
    requires FreeTurn(s.table.slots, s.table.index, 0) == Some(turn)
    ensures Leads(s, 1, Whole(c), Registering(s, turn, c))
  {
    hide FreeTurn, Hash, Leads;
    var s' := Registering(s, turn, c);
    var s1 := s.(table := s.table.(handles := s.table.handles[c := 0]));
    var handle := HOME + Low(turn, s.table.index);
    var s2 := System(Table(s'.table.slots, s'.table.index, s1.table.handles), s.lg, s'.given, map[c := handle]);
    assert s1.promised[c := handle] == map[c := handle];
    assert LockedRegister(s1.table, 1, c) == Put(s1.table, 1, turn, c);
    assert Do(s1, 1, Take(c)) == Some(s2);
    assert map[c := handle] - {c} == map[];
    assert s2.table.handles[c := handle] == s'.table.handles;
    assert Do(s2, 1, Write(c)) == Some(s');
    LeadsThere(s', 1);
    LeadsOn(s2, 1, Write(c), s', [], s');
    LeadsOn(s1, 1, Take(c), s2, [Write(c)] + [], s');
    LeadsOn(s, 1, Allocate(c, 0), s1, [Take(c)] + ([Write(c)] + []), s');
  }

  /** Contexts 6, 7 and 8 have filled the table, 8 in the slot where 4 should be, and memory for 9 is allocated. */
  ghost function Refilled(): System
  {
    var given := Astray().given[6 := HOME + 6][7 := HOME + 7][8 := HOME + 12];
    System(Table([Some(4), Some(1), Some(2), Some(3), Some(8), Some(5), Some(6), Some(7)], 13, given[9 := 0]), 3, given, map[])
  }

  ghost function Refilling(): seq<Step>
  {
    Whole(6) + (Whole(7) + (Whole(8) + ([Allocate(9, 0)] + [])))
  }

  lemma Turns()
    ensures FreeTurn([Some(4), Some(1), Some(2), Some(3), None, Some(5), None, None], 6, 0) == Some(0)
    ensures FreeTurn([Some(4), Some(1), Some(2), Some(3), None, Some(5), Some(6), None], 7, 0) == Some(0)
  {
    var slots: Slots := [Some(4), Some(1), Some(2), Some(3), None, Some(5), None, None];
    assert slots[Hash(Low(0, 6), 8)].None?;
    var more: Slots := [Some(4), Some(1), Some(2), Some(3), None, Some(5), Some(6), None];
    assert more[Hash(Low(0, 7), 8)].None?;
  }

  lemma LastTurn()
    ensures FreeTurn([Some(4), Some(1), Some(2), Some(3), None, Some(5), Some(6), Some(7)], 8, 0) == Some(4)
  {
    hide Hash, Low;
    var slots: Slots := [Some(4), Some(1), Some(2), Some(3), None, Some(5), Some(6), Some(7)];
    LowHash();
    assert FreeTurn(slots, 8, 4) == Some(4);
    assert FreeTurn(slots, 8, 3) == Some(4);
    assert FreeTurn(slots, 8, 2) == Some(4);
    assert FreeTurn(slots, 8, 1) == Some(4);
  }

  lemma LowHash()
    ensures Hash(Low(0, 8), 8) == 0 && Hash(Low(1, 8), 8) == 1 && Hash(Low(2, 8), 8) == 2 && Hash(Low(3, 8), 8) == 3 && Hash(Low(4, 8), 8) == 4
  {
  }

  lemma RefilledReached()
    ensures Leads(Astray(), 1, Refilling(), Refilled())
  {
    hide Leads, FreeTurn, Whole;
    Turns();
    LastTurn();
    var s6 := System(Table([Some(4), Some(1), Some(2), Some(3), None, Some(5), Some(6), None], 7, Astray().given[6 := HOME + 6]), 3,
                     Astray().given[6 := HOME + 6], map[]);
    var s7 := System(Table([Some(4), Some(1), Some(2), Some(3), None, Some(5), Some(6), Some(7)], 8, s6.given[7 := HOME + 7]), 3,
                     s6.given[7 := HOME + 7], map[]);
    var s8 := System(Refilled().table.(handles := Refilled().given), 3, Refilled().given, map[]);
    WholeLeads(Astray(), 0, 6);
    assert Registering(Astray(), 0, 6) == s6;
    WholeLeads(s6, 0, 7);
    assert Registering(s6, 0, 7) == s7;
    WholeLeads(s7, 4, 8);
    assert Registering(s7, 4, 8) == s8;
    AllocateNine(s8);
    LeadsJoin(s7, Whole(8), s8, [Allocate(9, 0)] + [], Refilled());
    LeadsJoin(s6, Whole(7), s7, Whole(8) + ([Allocate(9, 0)] + []), Refilled());
    LeadsJoin(Astray(), Whole(6), s6, Whole(7) + (Whole(8) + ([Allocate(9, 0)] + [])), Refilled());
  }

  lemma AllocateNine(s: System)
    requires s == System(Refilled().table.(handles := Refilled().given), 3, Refilled().given, map[])
    ensures Leads(s, 1, [Allocate(9, 0)] + [], Refilled())
  {
    LeadsThere(Refilled(), 1);
    LeadsOn(s, 1, Allocate(9, 0), Refilled(), [], Refilled());
  }

  lemma RefilledApart()
    ensures |Refilled().table.slots| == 8 && AllFull(Refilled().table.slots) && StaleHarmless(Refilled()) && Enabled(Refilled(), Take(9))
    ensures Apart(Refilled().given, 16)
  {
    hide Hash;
    RefilledHashes();
    var given := Refilled().given;
    forall c | c in given
      ensures 1 <= c <= 8 && Hash(given[c], 16) == if c == 8 then 12 else c
    {
    }
  }

  lemma RefilledHashes()
    ensures Hash(HOME + 1, 16) == 1 && Hash(HOME + 2, 16) == 2 && Hash(HOME + 3, 16) == 3 && Hash(HOME + 4, 16) == 4
    ensures Hash(HOME + 5, 16) == 5 && Hash(HOME + 6, 16) == 6 && Hash(HOME + 7, 16) == 7 && Hash(HOME + 12, 16) == 12
  {
  }

  /** When context 9 doubles the table, context 4 is found again. */
  lemma NextDoublingRecovers()
    ensures Leads(Astray(), 1, Refilling(), Refilled()) && Passes(Refilled(), 1, Take(9))
    ensures var s := Do(Refilled(), 1, Take(9)).value; Valid(s) && |s.table.slots| > 0 && Find(s.table, HOME + 4) == Some(4)
  {
    hide Leads, Scattered, Refilled, Astray, Refilling, Apart, Valid, Do;
    AstrayReached();
    RefilledReached();
    UnderWayReached(0);
    ValidScattered(UnderWay(0));
    RunScattered(UnderWay(0), 1, [Take(5)] + ([Write(4)] + ([Write(5)] + [])), Astray());
    RunScattered(Astray(), 1, Refilling(), Refilled());
    RefilledApart();
    ScatteredSized(Refilled());
    RecoveryExact(Refilled(), 1, 9);
    RefilledSmall();
    RecoveredFinds(Refilled(), 1, 9, 4);
  }

  lemma RefilledSmall()
    ensures 4 in Refilled().given && 4 !in Refilled().promised && Refilled().given[4] == HOME + 4 && Refilled().lg == 3
  {
  }
}
