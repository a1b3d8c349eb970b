/**
 Runs of the global ring at the edges of its window: a ring that is exactly full, and a flag that is cleared after its slot has been used again.
 */
module GlobalRingRuns {
  import opened GlobalRing

  ghost predicate ReachedBySome(s: State)
  {
    exists run :: Reached(s, run)
  }

  lemma Extend(p: State, t: Thread, step: Step, s: State)
    requires ReachedBySome(p) && Follows(p, Action(t, step), s)
    ensures ReachedBySome(s)
  {
    var run :| Reached(p, run);
    var longer := run + [Action(t, step)];
    assert longer[..|run|] == run;
    assert Reached(s, longer);
  }

  /** Reached without regard to the window. */
  ghost predicate ReachedFreely(s: State, run: seq<Action>)
    decreases |run|
  {
    if run == [] then Start(s) else
      var k := |run| - 1;
      exists p: State :: ReachedFreely(p, run[..k]) && Shape(p) && Enabled(p, run[k].thread, run[k].step) && s == Apply(p, run[k].thread, run[k].step)
  }

  ghost predicate FreelyBySome(s: State)
  {
    exists run :: ReachedFreely(s, run)
  }

  lemma ExtendFreely(p: State, t: Thread, step: Step, s: State)
    requires FreelyBySome(p) && Shape(p) && Enabled(p, t, step) && s == Apply(p, t, step)
    ensures FreelyBySome(s)
  {
    var run :| ReachedFreely(p, run);
    var longer := run + [Action(t, step)];
    assert longer[..|run|] == run;
    assert ReachedFreely(s, longer);
  }

  // ---------- one push ----------

  function PushedOnce(s: State, t: Thread, q: Queue): State
    requires Shape(s)
  {
    s.(tail := s.tail + 1, pushed := s.pushed + [q], phases := s.phases + [Raised], threads := s.threads[t := Idle],
       slots := s.slots[Gp(s.tail) := q], flags := s.flags[Gp(s.tail) := true])
  }

  /** The two states inside a push. */
  function PushTaken(s: State, t: Thread, q: Queue): State
    requires Shape(s)
  {
    s.(tail := s.tail + 1, pushed := s.pushed + [q], phases := s.phases + [Taken], threads := s.threads[t := Ticketed(s.tail, q)])
  }

  function PushStored(s: State, t: Thread, q: Queue): State
    requires Shape(s)
  {
    s.(tail := s.tail + 1, pushed := s.pushed + [q], phases := s.phases + [Stored], threads := s.threads[t := Written(s.tail, q)],
       slots := s.slots[Gp(s.tail) := q])
  }

  /** The three accesses of a push. */
  lemma PushSteps(s: State, t: Thread, q: Queue)
    requires Shape(s) && PcOf(s, t).Idle?
    ensures Apply(s, t, TakeTicket(q)) == PushTaken(s, t, q) && Shape(PushTaken(s, t, q)) && Enabled(PushTaken(s, t, q), t, Continue)
    ensures Apply(PushTaken(s, t, q), t, Continue) == PushStored(s, t, q) && Shape(PushStored(s, t, q)) && Enabled(PushStored(s, t, q), t, Continue)
    ensures Apply(PushStored(s, t, q), t, Continue) == PushedOnce(s, t, q) && Shape(PushedOnce(s, t, q))
  {
    var s1, s2 := PushTaken(s, t, q), PushStored(s, t, q);
    assert s1.phases[s.tail := Stored] == s2.phases && s1.threads[t := Written(s.tail, q)] == s2.threads;
    assert s2.phases[s.tail := Raised] == PushedOnce(s, t, q).phases && s2.threads[t := Idle] == PushedOnce(s, t, q).threads;
  }

  // ---------- one pop ----------

  /** What remains of the state when a pop has taken the ticket at the head. */
  function PoppedOnce(s: State, t: Thread): State
    requires Shape(s) && s.head < s.tail
  {
    s.(head := s.head + 1, popped := s.popped + [s.pushed[s.head]], phases := s.phases[s.head := Cleared], threads := s.threads[t := Idle],
       flags := s.flags[Gp(s.head) := false])
  }

  /** A thread that pops undisturbed, up to the swap. */
  lemma PopLoads(s: State, t: Thread)
    requires Inv(s) && PcOf(s, t).Idle? && s.head < s.tail && s.phases[s.head] == Raised && Gp(s.head) != Gp(s.tail)
    ensures var h := s.head;
            && Apply(s, t, ReadHead) == Put(s, t, HeadRead(h)) && Apply(Put(s, t, HeadRead(h)), t, Continue) == Put(s, t, Checked(h))
            && Apply(Put(s, t, Checked(h)), t, Continue) == Put(s, t, Flagged(h))
            && Apply(Put(s, t, Flagged(h)), t, Continue) == Put(s, t, Loaded(h, s.pushed[h]))
  {
    hide Gp;
    assert s.flags[Gp(s.head)] && s.slots[Gp(s.head)] == s.pushed[s.head];
    Twice(s.threads, t, HeadRead(s.head), Checked(s.head));
    Twice(s.threads, t, Checked(s.head), Flagged(s.head));
    Twice(s.threads, t, Flagged(s.head), Loaded(s.head, s.pushed[s.head]));
  }

  lemma Twice(threads: map<Thread, Pc>, t: Thread, a: Pc, b: Pc)
    ensures threads[t := a][t := b] == threads[t := b]
  {
  }

  /**
   A pop that no one disturbs takes the published ticket at the head, unless the ring is exactly full: its six accesses in a row
   return the queue of that ticket.
   */
  lemma PopRound(s: State, t: Thread) returns (s1: State, s2: State)
    requires Inv(s) && PcOf(s, t).Idle? && s.head < s.tail && s.phases[s.head] == Raised && Gp(s.head) != Gp(s.tail)
    ensures Shape(Put(s, t, Loaded(s.head, s.pushed[s.head]))) && s1 == Apply(Put(s, t, Loaded(s.head, s.pushed[s.head])), t, Continue)
    ensures PcOf(s1, t) == Clearing(s.head, s.pushed[s.head]) && Shape(s1) && s2 == Apply(s1, t, Continue) && s2 == PoppedOnce(s, t)
  {
    hide Gp;
    var h := s.head;
    s1 := Apply(Put(s, t, Loaded(h, s.pushed[h])), t, Continue);
    Twice(s.threads, t, Loaded(h, s.pushed[h]), Clearing(h, s.pushed[h]));
    Twice(s.threads, t, Clearing(h, s.pushed[h]), Idle);
    assert s.phases[h := Swapped][h := Cleared] == s.phases[h := Cleared];
    s2 := Apply(s1, t, Continue);
  }

  // ---------- the full ring ----------

  /** n queues pushed, none popped, and no thread inside push or pop. */
  ghost predicate Filled(s: State, n: nat)
  {
    Shape(s) && s.head == 0 && s.tail == n && (forall k :: 0 <= k < n ==> s.phases[k] == Raised) && forall t :: PcOf(s, t).Idle?
  }

  lemma NewStart() returns (s: State)
    ensures Start(s) && ReachedBySome(s) && Filled(s, 0)
  {
    s := State(0, 0, seq(MAX_GLOBAL_MQ, _ => 0), seq(MAX_GLOBAL_MQ, _ => false), map[], [], [], []);
    assert Reached(s, []);
  }

  lemma PushWindowed(s: State, t: Thread, q: Queue)
    requires Filled(s, s.tail) && s.tail < MAX_GLOBAL_MQ
    ensures Windowed(s) && Windowed(PushTaken(s, t, q)) && Windowed(PushStored(s, t, q)) && Windowed(PushedOnce(s, t, q)) && Filled(PushedOnce(s, t, q), s.tail + 1)
  {
    hide Gp;
    forall u
      ensures !PcOf(s, u).Loaded? && !PcOf(PushTaken(s, t, q), u).Loaded? && !PcOf(PushStored(s, t, q), u).Loaded? && PcOf(PushedOnce(s, t, q), u).Idle?
    {
      assert PcOf(s, u).Idle?;
    }
  }

  lemma {:induction false} Fill(n: nat) returns (s: State)
    requires n <= MAX_GLOBAL_MQ
    ensures ReachedBySome(s) && Filled(s, n)
  {
    if n == 0 {
      s := NewStart();
    } else {
      var p := Fill(n - 1);
      hide ReachedBySome, Windowed;
      PushWindowed(p, 1, n);
      PushSteps(p, 1, n);
      Extend(p, 1, TakeTicket(n), PushTaken(p, 1, n));
      Extend(PushTaken(p, 1, n), 1, Continue, PushStored(p, 1, n));
      s := PushedOnce(p, 1, n);
      Extend(PushStored(p, 1, n), 1, Continue, s);
    }
  }

  /** A run within the window after which a pop finds nothing although 0x10000 queues are published. */
  lemma FullRingLooksEmpty() returns (s: State, t: Thread)
    ensures ReachedBySome(s) && Shape(s) && s.tail - s.head == MAX_GLOBAL_MQ && forall k :: s.head <= k < s.tail ==> s.phases[k] == Raised
    ensures PcOf(s, t) == HeadRead(s.head) && PcOf(Apply(s, t, Continue), t).Idle?
  {
    var p := Fill(MAX_GLOBAL_MQ);
    hide ReachedBySome;
    t := 2;
    s := Apply(p, t, ReadHead);
    assert PcOf(p, t).Idle?;
    forall u
      ensures !PcOf(p, u).Loaded? && !PcOf(s, u).Loaded?
    {
      assert PcOf(p, u).Idle?;
    }
    Extend(p, t, ReadHead, s);
  }

  // ---------- the late flag ----------

  /** Thread 2 has swapped head past ticket 0 and not yet cleared the flag; tickets 1 to n have been pushed since. */
  ghost predicate Lagging(s: State, n: nat)
  {
    && Shape(s) && s.head == 1 && s.tail == n + 1 && s.phases[0] == Swapped && s.popped == [s.pushed[0]]
    && (forall k :: 1 <= k <= n ==> s.phases[k] == Raised && s.slots[Gp(k)] == s.pushed[k])
    && (forall i :: 0 <= i < MAX_GLOBAL_MQ ==> (s.flags[i] <==> i <= n))
    && PcOf(s, 2) == Clearing(0, s.pushed[0]) && forall t :: t != 2 ==> PcOf(s, t).Idle?
  }

  /** The five accesses of a pop that wins, up to the swap. */
  lemma FirstPop(s: State) returns (s': State)
    requires FreelyBySome(s) && Filled(s, 1) && s.popped == [] && s.flags[0] && s.slots[0] == s.pushed[0]
    requires forall i :: 0 < i < MAX_GLOBAL_MQ ==> !s.flags[i]
    ensures FreelyBySome(s') && Lagging(s', 0)
  {
    hide FreelyBySome;
    assert PcOf(s, 2).Idle?;
    var s1 := Apply(s, 2, ReadHead);
    ExtendFreely(s, 2, ReadHead, s1);
    var s2 := Apply(s1, 2, Continue);
    ExtendFreely(s1, 2, Continue, s2);
    var s3 := Apply(s2, 2, Continue);
    ExtendFreely(s2, 2, Continue, s3);
    var s4 := Apply(s3, 2, Continue);
    ExtendFreely(s3, 2, Continue, s4);
    s' := Apply(s4, 2, Continue);
    ExtendFreely(s4, 2, Continue, s');
    assert s'.threads[2] == Clearing(0, s.pushed[0]);
    forall t | t != 2
      ensures PcOf(s', t).Idle?
    {
      assert PcOf(s, t).Idle?;
    }
  }

  lemma LaggingPush(s: State, n: nat, q: Queue)
    requires Lagging(s, n) && n < MAX_GLOBAL_MQ
    ensures Lagging(PushedOnce(s, 1, q), n + 1)
  {
    var s' := PushedOnce(s, 1, q);
    forall k | 1 <= k <= n
      ensures s'.slots[Gp(k)] == s'.pushed[k] && s'.phases[k] == Raised
    {
      assert s.phases[k] == Raised;
    }
    forall t | t != 2
      ensures PcOf(s', t).Idle?
    {
      assert PcOf(s, t).Idle?;
    }
  }

  lemma FirstLagging() returns (s: State)
    ensures FreelyBySome(s) && Lagging(s, 0)
  {
    var start := NewStart();
    assert ReachedFreely(start, []);
    hide FreelyBySome;
    assert FreelyBySome(start) by { ShowFreely(start); }
    PushSteps(start, 1, 7);
    ExtendFreely(start, 1, TakeTicket(7), PushTaken(start, 1, 7));
    ExtendFreely(PushTaken(start, 1, 7), 1, Continue, PushStored(start, 1, 7));
    var one := PushedOnce(start, 1, 7);
    ExtendFreely(PushStored(start, 1, 7), 1, Continue, one);
    PushWindowed(start, 1, 7);
    s := FirstPop(one);
  }

  lemma ShowFreely(s: State)
    requires ReachedFreely(s, [])
    ensures FreelyBySome(s)
  {
  }

  lemma {:induction false} Lag(n: nat) returns (s: State)
    requires n <= MAX_GLOBAL_MQ
    ensures FreelyBySome(s) && Lagging(s, n)
  {
    if n == 0 {
      s := FirstLagging();
    } else {
      var p := Lag(n - 1);
      hide FreelyBySome;
      assert PcOf(p, 1).Idle?;
      PushSteps(p, 1, n);
      ExtendFreely(p, 1, TakeTicket(n), PushTaken(p, 1, n));
      ExtendFreely(PushTaken(p, 1, n), 1, Continue, PushStored(p, 1, n));
      s := PushedOnce(p, 1, n);
      ExtendFreely(PushStored(p, 1, n), 1, Continue, s);
      LaggingPush(p, n - 1, n);
    }
  }

  lemma LaggingInv(s: State, n: nat)
    requires Lagging(s, n) && n <= MAX_GLOBAL_MQ
    ensures Inv(s)
  {
    forall i | 0 <= i < MAX_GLOBAL_MQ && s.flags[i]
      ensures exists k :: 0 <= k < s.tail && Gp(k) == i && Flies(s.phases[k])
    {
      assert Gp(i) == i && Flies(s.phases[i]);
    }
    forall t
      ensures PcOk(s, PcOf(s, t)) && (t != 2 ==> PcOf(s, t).Idle?)
    {
    }
  }

  /**
   A run, outside the window, in which a pop that sleeps between its swap and its last access clears the flag of a later ticket: the queue of
   that ticket is published, and no pop will see it.
   */
  lemma LateClearHidesTicket() returns (s: State, t: Thread, k: nat)
    ensures FreelyBySome(s) && Inv(s) && PcOf(s, t).Clearing? && k < s.tail && k != PcOf(s, t).ticket
    ensures s.phases[k] == Raised && s.flags[Gp(k)] && Gp(k) == Gp(PcOf(s, t).ticket)
    ensures var s' := Apply(s, t, Continue);
            !Inv(s') && Shape(s') && s'.phases[k] == Raised && !s'.flags[Gp(k)]
  {
    s := Lag(MAX_GLOBAL_MQ);
    t, k := 2, MAX_GLOBAL_MQ;
    hide FreelyBySome;
    LaggingInv(s, MAX_GLOBAL_MQ);
    assert Gp(k) == 0;
    ClearFlagExact(s, t);
  }
}
