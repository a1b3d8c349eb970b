/**
 The lock-free ring of scheduled queues, as a small-step protocol: one step is one shared-memory
 access of skynet_globalmq_push or skynet_globalmq_pop. Tickets are unbounded here; the registers of
 the source hold them modulo 2^32, which matters only to the compare-and-swap.
 */
module GlobalRing {

  const MAX_GLOBAL_MQ := 0x1_0000
  const UINT_RANGE := 0x1_0000_0000

  type Queue = nat

  type Thread = nat

  /** Where a thread stands; `ticket` is the value of tail or head it works with. */
  datatype Pc =
    | Idle
    | Ticketed(ticket: nat, queue: Queue)  // push: the slot comes next
    | Written(ticket: nat, queue: Queue)   // push: the flag comes next
    | HeadRead(ticket: nat)                // pop: the comparison with tail comes next
    | Checked(ticket: nat)                 // pop: the flag comes next
    | Flagged(ticket: nat)                 // pop: the slot comes next
    | Loaded(ticket: nat, queue: Queue)    // pop: the compare-and-swap comes next
    | Clearing(ticket: nat, queue: Queue)  // pop: the swap succeeded, the flag is cleared next

  datatype State = State(
    head: nat,
    tail: nat,
    slots: seq<Queue>,
    flags: seq<bool>,
    threads: map<Thread, Pc>,
    /** History: the queue pushed with each ticket, how far each ticket has come, and the queues popped in the order of the swaps. */
    pushed: seq<Queue>,
    phases: seq<Phase>,
    popped: seq<Queue>
  )

  /** A ticket is taken, its slot written, its flag raised, its pop decided, its flag cleared again. */
  datatype Phase = Taken | Stored | Raised | Swapped | Cleared

  /** skynet_mq_init: the slots are left as malloc returns them. */
  ghost predicate Start(s: State)
  {
    && Shape(s) && s.head == s.tail == 0 && s.threads == map[] && s.popped == []
    && forall i :: 0 <= i < MAX_GLOBAL_MQ ==> !s.flags[i]
  }

  predicate Shape(s: State)
  {
    |s.slots| == MAX_GLOBAL_MQ && |s.flags| == MAX_GLOBAL_MQ && |s.pushed| == |s.phases| == s.tail && s.head <= s.tail
  }

  function PcOf(s: State, t: Thread): Pc
  {
    if t in s.threads then s.threads[t] else Idle
  }

  function Gp(ticket: nat): (i: nat)
    ensures i < MAX_GLOBAL_MQ
  {
    ticket % MAX_GLOBAL_MQ
  }

  datatype Step = TakeTicket(queue: Queue) | ReadHead | Continue

  predicate Enabled(s: State, t: Thread, step: Step)
  {
    match step
    case Continue => !PcOf(s, t).Idle?
    case _ => PcOf(s, t).Idle?
  }

  function Put(s: State, t: Thread, pc: Pc): State
  {
    s.(threads := s.threads[t := pc])
  }

  /** Record how far a ticket has come. */
  function Note(s: State, k: nat, p: Phase): State
  {
    if k < |s.phases| then s.(phases := s.phases[k := p]) else s
  }

  /** The next access of a thread inside push or pop. */
  function Advance(s: State, t: Thread): State
    requires Shape(s)
  {
    match PcOf(s, t)
    case Idle => s
    case Ticketed(k, q) => Note(Put(s, t, Written(k, q)), k, Stored).(slots := s.slots[Gp(k) := q])
    case Written(k, q) => Note(Put(s, t, Idle), k, Raised).(flags := s.flags[Gp(k) := true])
    case HeadRead(h) => Put(s, t, if Gp(h) == Gp(s.tail) then Idle else Checked(h))
    case Checked(h) => Put(s, t, if s.flags[Gp(h)] then Flagged(h) else Idle)
    case Flagged(h) => Put(s, t, Loaded(h, s.slots[Gp(h)]))
    case Loaded(h, q) =>
      if s.head % UINT_RANGE == h % UINT_RANGE then
        Note(Put(s, t, Clearing(h, q)), h, Swapped).(head := s.head + 1, popped := s.popped + [q])
      else
        Put(s, t, Idle)
    case Clearing(h, _) => Note(Put(s, t, Idle), h, Cleared).(flags := s.flags[Gp(h) := false])
  }

  function Apply(s: State, t: Thread, step: Step): State
    requires Shape(s)
  {
    match step
    case TakeTicket(q) =>
      Put(s, t, Ticketed(s.tail, q)).(tail := s.tail + 1, pushed := s.pushed + [q], phases := s.phases + [Taken])
    case ReadHead => Put(s, t, HeadRead(s.head))
    case Continue => Advance(s, t)
  }

  /**
   The load the ring is made for: at most MAX_GLOBAL_MQ tickets from the oldest one that is not
   completely popped up to the tail, and no pop asleep while head goes round the 32-bit range.
   */
  ghost predicate Windowed(s: State)
  {
    && (forall k :: 0 <= k < |s.phases| && s.phases[k] != Cleared ==> s.tail - k <= MAX_GLOBAL_MQ)
    && (forall t :: PcOf(s, t).Loaded? ==> s.head - PcOf(s, t).ticket < UINT_RANGE)
  }

  // ---------------------------------------------------------------------------
  // The invariant
  // ---------------------------------------------------------------------------

  predicate Flies(p: Phase)
  {
    p == Raised || p == Swapped
  }

  /** What the memory of the ring holds, given how far each ticket has come. */
  ghost predicate MemoryOk(s: State)
    requires Shape(s)
  {
    && (forall k :: 0 <= k < s.tail ==> (s.phases[k] in {Swapped, Cleared} <==> k < s.head))
    && (forall k :: 0 <= k < s.tail && s.phases[k] in {Stored, Raised} ==> s.slots[Gp(k)] == s.pushed[k])
    && (forall k :: 0 <= k < s.tail && Flies(s.phases[k]) ==> s.flags[Gp(k)])
    && (forall i :: 0 <= i < MAX_GLOBAL_MQ && s.flags[i] ==> exists k :: 0 <= k < s.tail && Gp(k) == i && Flies(s.phases[k]))
    && s.popped == s.pushed[..s.head]
  }

  /** What a thread knows about its ticket. */
  predicate PcOk(s: State, pc: Pc)
    requires Shape(s)
  {
    match pc
    case Idle => true
    case Ticketed(k, q) => k < s.tail && s.phases[k] == Taken && s.pushed[k] == q
    case Written(k, q) => k < s.tail && s.phases[k] == Stored
    case HeadRead(h) => h <= s.head
    case Checked(h) => h <= s.head && (h == s.head ==> h < s.tail)
    case Flagged(h) => h <= s.head && (h == s.head ==> h < s.tail && s.phases[h] == Raised)
    case Loaded(h, q) => h <= s.head && (h == s.head ==> h < s.tail && s.phases[h] == Raised && q == s.pushed[h])
    case Clearing(h, q) => h < s.tail && s.phases[h] == Swapped && q == s.pushed[h]
  }

  predicate Owns(pc: Pc, k: nat)
  {
    (pc.Ticketed? || pc.Written? || pc.Clearing?) && pc.ticket == k
  }

  ghost predicate OneOwner(s: State)
  {
    forall t, u :: !PcOf(s, t).Idle? && Owns(PcOf(s, t), PcOf(s, t).ticket) && Owns(PcOf(s, u), PcOf(s, t).ticket) ==> t == u
  }

  ghost predicate Inv(s: State)
  {
    Shape(s) && MemoryOk(s) && OneOwner(s) && forall t :: PcOk(s, PcOf(s, t))
  }

  /** Within a window two tickets of the same slot are the same ticket. */
  lemma SameTicket(s: State, j: nat, k: nat)
    requires Shape(s) && Windowed(s) && j < s.tail && k < s.tail
    requires s.phases[j] != Cleared && s.phases[k] != Cleared && Gp(j) == Gp(k)
    ensures j == k
  {
  }

  // ---------------------------------------------------------------------------
  // Which steps keep it
  // ---------------------------------------------------------------------------

  /** No published ticket has this slot with another queue: k is written over nothing that is still to be read. */
  ghost predicate SlotUnused(s: State, k: nat, q: Queue)
    requires Shape(s)
  {
    forall j :: 0 <= j < s.tail && j != k && s.phases[j] in {Stored, Raised} && Gp(j) == Gp(k) ==> s.pushed[j] == q
  }

  /** No other ticket relies on the flag of h. */
  ghost predicate FlagUnused(s: State, h: nat)
    requires Shape(s)
  {
    forall k :: 0 <= k < s.tail && k != h && Flies(s.phases[k]) ==> Gp(k) != Gp(h)
  }

  /**
   The guard of a step: a slot is not written over, a raised flag that is read is that of the ticket at the head and not a
   stale one, the compare-and-swap is not deceived by the wrap-around, and the flag that is cleared is no one else's.
   */
  ghost predicate Harmless(s: State, t: Thread, step: Step)
    requires Shape(s)
  {
    step.Continue? ==>
      match PcOf(s, t)
      case Ticketed(k, q) => SlotUnused(s, k, q)
      case Checked(h) => h == s.head && h < s.tail && s.flags[Gp(h)] ==> s.phases[h] == Raised
      case Loaded(h, _) => s.head % UINT_RANGE == h % UINT_RANGE ==> s.head == h
      case Clearing(h, _) => FlagUnused(s, h)
      case _ => true
  }

  ghost predicate OnlyMoves(s: State, s': State, t: Thread)
  {
    forall u :: u != t ==> PcOf(s', u) == PcOf(s, u)
  }

  lemma TakeTicketMemory(s: State, t: Thread, q: Queue)
    requires Shape(s) && MemoryOk(s)
    ensures MemoryOk(Apply(s, t, TakeTicket(q)))
  {
    var s' := Apply(s, t, TakeTicket(q));
    assert forall k :: 0 <= k < s.tail ==> s'.phases[k] == s.phases[k];
    forall i | 0 <= i < MAX_GLOBAL_MQ && s'.flags[i]
      ensures exists k :: 0 <= k < s'.tail && Gp(k) == i && Flies(s'.phases[k])
    {
      var k :| 0 <= k < s.tail && Gp(k) == i && Flies(s.phases[k]);
      assert Flies(s'.phases[k]);
    }
  }

  lemma TakeTicketKeeps(s: State, t: Thread, q: Queue)
    requires Inv(s) && Enabled(s, t, TakeTicket(q))
    ensures Inv(Apply(s, t, TakeTicket(q)))
  {
    TakeTicketMemory(s, t, q);
    hide MemoryOk;
    var s' := Apply(s, t, TakeTicket(q));
    assert OnlyMoves(s, s', t) && PcOf(s', t) == Ticketed(s.tail, q);
    forall u ensures PcOk(s', PcOf(s', u)) {
      assert PcOk(s, PcOf(s, u));
    }
  }

  lemma ReadHeadKeeps(s: State, t: Thread)
    requires Inv(s) && Enabled(s, t, ReadHead)
    ensures Inv(Apply(s, t, ReadHead))
  {
    var s' := Apply(s, t, ReadHead);
    assert OnlyMoves(s, s', t) && PcOf(s', t) == HeadRead(s.head);
  }

  lemma WriteSlotMemory(s: State, t: Thread)
    requires Inv(s) && PcOf(s, t).Ticketed?
    ensures MemoryOk(Apply(s, t, Continue)) <==> SlotUnused(s, PcOf(s, t).ticket, PcOf(s, t).queue)
  {
    var k := PcOf(s, t).ticket;
    assert PcOk(s, PcOf(s, t));
    hide OneOwner, PcOk;
    var s' := Apply(s, t, Continue);
    assert forall j :: 0 <= j < s.tail && j != k ==> s'.phases[j] == s.phases[j];
  }

  lemma WriteSlotExact(s: State, t: Thread)
    requires Inv(s) && PcOf(s, t).Ticketed?
    ensures Inv(Apply(s, t, Continue)) <==> SlotUnused(s, PcOf(s, t).ticket, PcOf(s, t).queue)
  {
    WriteSlotMemory(s, t);
    hide MemoryOk, SlotUnused;
    var s' := Apply(s, t, Continue);
    assert OnlyMoves(s, s', t) && PcOf(s', t) == Written(PcOf(s, t).ticket, PcOf(s, t).queue);
  }

  lemma RaiseFlagKeeps(s: State, t: Thread)
    requires Inv(s) && PcOf(s, t).Written?
    ensures Inv(Apply(s, t, Continue))
  {
    hide MemoryOk;
    var s' := Apply(s, t, Continue);
    RaiseFlagMemory(s, t);
    assert OnlyMoves(s, s', t) && PcOf(s', t) == Idle;
    assert s'.phases[PcOf(s, t).ticket] == Raised;
  }

  lemma RaiseFlagMemory(s: State, t: Thread)
    requires Inv(s) && PcOf(s, t).Written?
    ensures MemoryOk(Apply(s, t, Continue))
  {
    hide OneOwner;
    var k := PcOf(s, t).ticket;
    var s' := Apply(s, t, Continue);
    assert PcOk(s, PcOf(s, t));
    assert s'.phases == s.phases[k := Raised] && s'.flags == s.flags[Gp(k) := true];
    forall i | 0 <= i < MAX_GLOBAL_MQ && s'.flags[i]
      ensures exists j :: 0 <= j < s.tail && Gp(j) == i && Flies(s'.phases[j])
    {
      if i == Gp(k) {
        assert Flies(s'.phases[k]);
      } else {
        var j :| 0 <= j < s.tail && Gp(j) == i && Flies(s.phases[j]);
        assert Flies(s'.phases[j]);
      }
    }
  }

  lemma ReadTailKeeps(s: State, t: Thread)
    requires Inv(s) && PcOf(s, t).HeadRead?
    ensures Inv(Apply(s, t, Continue))
  {
    var s' := Apply(s, t, Continue);
    assert OnlyMoves(s, s', t) && PcOf(s', t) == s'.threads[t];
  }

  lemma ReadFlagExact(s: State, t: Thread)
    requires Inv(s) && PcOf(s, t).Checked?
    ensures Inv(Apply(s, t, Continue)) <==> Harmless(s, t, Continue)
  {
    var s' := Apply(s, t, Continue);
    assert OnlyMoves(s, s', t) && PcOf(s', t) == s'.threads[t];
    assert PcOk(s, PcOf(s, t));
    hide OneOwner;
    assert PcOk(s', PcOf(s', t)) <==> Harmless(s, t, Continue);
    OneOwnerKept(s, s', t);
    assert forall u :: u != t ==> PcOk(s', PcOf(s', u)) == PcOk(s, PcOf(s, u));
  }

  lemma OneOwnerKept(s: State, s': State, t: Thread)
    requires OneOwner(s) && OnlyMoves(s, s', t) && !Owns(PcOf(s', t), if PcOf(s', t).Idle? then 0 else PcOf(s', t).ticket)
    ensures OneOwner(s')
  {
  }

  lemma ReadSlotKeeps(s: State, t: Thread)
    requires Inv(s) && PcOf(s, t).Flagged?
    ensures Inv(Apply(s, t, Continue))
  {
    var s' := Apply(s, t, Continue);
    assert OnlyMoves(s, s', t) && PcOf(s', t) == s'.threads[t];
  }

  lemma SwapMemory(s: State, t: Thread)
    requires Inv(s) && PcOf(s, t).Loaded? && PcOf(s, t).ticket == s.head
    ensures MemoryOk(Apply(s, t, Continue))
  {
    assert PcOk(s, PcOf(s, t));
    hide OneOwner, PcOk;
    var s' := Apply(s, t, Continue);
    assert s'.popped == s'.pushed[..s'.head];
    assert s'.phases[s.head] == Swapped && forall k :: 0 <= k < s.tail && k != s.head ==> s'.phases[k] == s.phases[k];
  }

  lemma SwapThreads(s: State, t: Thread)
    requires Inv(s) && PcOf(s, t).Loaded? && PcOf(s, t).ticket == s.head
    ensures OneOwner(Apply(s, t, Continue))
    ensures forall u :: PcOk(Apply(s, t, Continue), PcOf(Apply(s, t, Continue), u))
  {
    assert PcOk(s, PcOf(s, t));
    hide MemoryOk;
    var s' := Apply(s, t, Continue);
    assert OnlyMoves(s, s', t) && PcOf(s', t) == Clearing(s.head, PcOf(s, t).queue);
    forall u ensures PcOk(s', PcOf(s', u)) {
      assert PcOk(s, PcOf(s, u));
    }
  }

  lemma SwapExact(s: State, t: Thread)
    requires Inv(s) && PcOf(s, t).Loaded?
    ensures Inv(Apply(s, t, Continue)) <==> Harmless(s, t, Continue)
  {
    var h := PcOf(s, t).ticket;
    assert PcOk(s, PcOf(s, t));
    if h == s.head {
      SwapMemory(s, t);
      SwapThreads(s, t);
    } else if s.head % UINT_RANGE == h % UINT_RANGE {
      Deceived(s, t);
    } else {
      SwapFails(s, t);
    }
  }

  lemma SwapFails(s: State, t: Thread)
    requires Inv(s) && PcOf(s, t).Loaded? && s.head % UINT_RANGE != PcOf(s, t).ticket % UINT_RANGE
    ensures Inv(Apply(s, t, Continue))
  {
    var s' := Apply(s, t, Continue);
    assert OnlyMoves(s, s', t) && PcOf(s', t) == Idle;
  }

  /** A swap with a ticket of an earlier round takes a ticket off the head that was not popped. */
  lemma Deceived(s: State, t: Thread)
    requires Inv(s) && PcOf(s, t).Loaded? && PcOf(s, t).ticket < s.head && s.head % UINT_RANGE == PcOf(s, t).ticket % UINT_RANGE
    ensures !Inv(Apply(s, t, Continue))
  {
    hide OneOwner, PcOk;
    var s' := Apply(s, t, Continue);
    if s.head < s.tail {
      assert s'.phases[s.head] == s.phases[s.head] && s.head < s'.head;
    }
  }

  /** Clearing the flag is harmless exactly when no other raised ticket shares the slot. */
  lemma ClearFlagExact(s: State, t: Thread)
    requires Inv(s) && PcOf(s, t).Clearing?
    ensures Inv(Apply(s, t, Continue)) <==> FlagUnused(s, PcOf(s, t).ticket)
  {
    var h := PcOf(s, t).ticket;
    var s' := Apply(s, t, Continue);
    assert OnlyMoves(s, s', t) && PcOf(s', t) == Idle;
    assert forall k :: 0 <= k < s.tail && k != h ==> s'.phases[k] == s.phases[k];
  }

  /** A step keeps the invariant if and only if it is harmless. */
  lemma StepExact(s: State, t: Thread, step: Step)
    requires Inv(s) && Enabled(s, t, step)
    ensures Inv(Apply(s, t, step)) <==> Harmless(s, t, step)
  {
    hide MemoryOk, OneOwner, SlotUnused, FlagUnused, PcOk;
    match step
    case TakeTicket(q) => TakeTicketKeeps(s, t, q);
    case ReadHead => ReadHeadKeeps(s, t);
    case Continue =>
      match PcOf(s, t)
      case Ticketed(_, _) => WriteSlotExact(s, t);
      case Written(_, _) => RaiseFlagKeeps(s, t);
      case HeadRead(_) => ReadTailKeeps(s, t);
      case Checked(_) => ReadFlagExact(s, t);
      case Flagged(_) => ReadSlotKeeps(s, t);
      case Loaded(_, _) => SwapExact(s, t);
      case Clearing(_, _) => ClearFlagExact(s, t);
  }

  /** Within the window every step is harmless. */
  lemma WindowHarmless(s: State, t: Thread, step: Step)
    requires Inv(s) && Windowed(s) && Enabled(s, t, step)
    ensures Harmless(s, t, step)
  {
    if step.Continue? {
      assert PcOk(s, PcOf(s, t));
      match PcOf(s, t)
      case Ticketed(k, q) => SlotInWindow(s, k, q);
      case Checked(h) => FlagInWindow(s, h);
      case Clearing(h, _) => ClearInWindow(s, h);
      case _ =>
    }
  }

  lemma SlotInWindow(s: State, k: nat, q: Queue)
    requires Shape(s) && Windowed(s) && k < s.tail && s.phases[k] == Taken
    ensures SlotUnused(s, k, q)
  {
    hide Windowed;
    forall j | 0 <= j < s.tail && j != k && s.phases[j] in {Stored, Raised}
      ensures Gp(j) != Gp(k)
    {
      if Gp(j) == Gp(k) { SameTicket(s, j, k); }
    }
  }

  lemma FlagInWindow(s: State, h: nat)
    requires Inv(s) && Windowed(s)
    ensures h == s.head && h < s.tail && s.flags[Gp(h)] ==> s.phases[h] == Raised
  {
    if h == s.head && h < s.tail && s.flags[Gp(h)] {
      var k :| 0 <= k < s.tail && Gp(k) == Gp(h) && Flies(s.phases[k]);
      SameTicket(s, h, k);
    }
  }

  lemma ClearInWindow(s: State, h: nat)
    requires Shape(s) && Windowed(s) && h < s.tail && s.phases[h] == Swapped
    ensures FlagUnused(s, h)
  {
    hide Windowed;
    forall k | 0 <= k < s.tail && k != h && Flies(s.phases[k])
      ensures Gp(k) != Gp(h)
    {
      if Gp(k) == Gp(h) { SameTicket(s, h, k); }
    }
  }

  lemma StepKeeps(s: State, t: Thread, step: Step)
    requires Inv(s) && Windowed(s) && Enabled(s, t, step)
    ensures Inv(Apply(s, t, step))
  {
    hide Inv, Harmless;
    WindowHarmless(s, t, step);
    StepExact(s, t, step);
  }

  // ---------------------------------------------------------------------------
  // Whole runs
  // ---------------------------------------------------------------------------

  datatype Action = Action(thread: Thread, step: Step)

  ghost predicate Follows(p: State, a: Action, s: State)
  {
    Shape(p) && Windowed(p) && Enabled(p, a.thread, a.step) && s == Apply(p, a.thread, a.step) && Windowed(s)
  }

  ghost predicate Reached(s: State, run: seq<Action>)
    decreases |run|
  {
    if run == [] then Start(s) else
      var k := |run| - 1;
      exists p: State :: Reached(p, run[..k]) && Follows(p, run[k], s)
  }

  lemma {:induction false} RunKeeps(s: State, run: seq<Action>)
    requires Reached(s, run)
    ensures Inv(s)
    decreases |run|
  {
    if run != [] {
      hide Inv;
      var k := |run| - 1;
      var p: State :| Reached(p, run[..k]) && Follows(p, run[k], s);
      RunKeeps(p, run[..k]);
      StepKeeps(p, run[k].thread, run[k].step);
    }
  }

  /** Reached without regard to the window, as long as every step is harmless. */
  ghost predicate ReachedUnharmed(s: State, run: seq<Action>)
    decreases |run|
  {
    if run == [] then Start(s) else
      var k := |run| - 1;
      exists p: State :: ReachedUnharmed(p, run[..k]) && FollowsUnharmed(p, run[k], s)
  }

  ghost predicate FollowsUnharmed(p: State, a: Action, s: State)
  {
    Shape(p) && Enabled(p, a.thread, a.step) && Harmless(p, a.thread, a.step) && s == Apply(p, a.thread, a.step)
  }

  /** Such a run pops in order what was pushed, and the first step that is not harmless breaks the invariant. */
  lemma {:induction false} UnharmedRunExact(s: State, run: seq<Action>, t: Thread, step: Step)
    requires ReachedUnharmed(s, run) && Enabled(s, t, step)
    ensures Inv(s) && s.head <= |s.pushed| && s.popped == s.pushed[..s.head]
    ensures Inv(Apply(s, t, step)) <==> Harmless(s, t, step)
    decreases |run|
  {
    if run != [] {
      var k := |run| - 1;
      var p: State :| ReachedUnharmed(p, run[..k]) && FollowsUnharmed(p, run[k], s);
      UnharmedRunExact(p, run[..k], run[k].thread, run[k].step);
    }
    StepExact(s, t, step);
  }

  /**
   Every run within the window, whatever the threads: the queues popped are the queues pushed, each
   once and in the order of their tickets; a pop that has won its swap returns the queue of its own
   ticket, which was completely published, and no other pop has that ticket.
   */
  lemma PoppedExactlyOnceInOrder(s: State, run: seq<Action>, t: Thread, u: Thread)
    requires Reached(s, run)
    ensures s.head <= s.tail == |s.pushed| && s.popped == s.pushed[..s.head]
    ensures PcOf(s, t).Clearing? ==>
              && PcOf(s, t).ticket < s.head && PcOf(s, t).queue == s.popped[PcOf(s, t).ticket]
              && s.phases[PcOf(s, t).ticket] == Swapped
    ensures PcOf(s, t).Clearing? && PcOf(s, u).Clearing? && PcOf(s, t).ticket == PcOf(s, u).ticket ==> t == u
  {
    RunKeeps(s, run);
    assert PcOk(s, PcOf(s, t));
  }

  lemma NeverOverfull(s: State, run: seq<Action>)
    requires Reached(s, run)
    ensures Shape(s) && s.tail - s.head <= MAX_GLOBAL_MQ
  {
    RunKeeps(s, run);
    assert Windowed(s);
    if s.head < s.tail {
      assert s.phases[s.head] != Cleared;
    }
  }

  /** A pop that reads tail while head is still its own finds the ring empty iff nothing is pushed, or exactly a full ring. */
  lemma EmptyAnswer(s: State, run: seq<Action>, t: Thread)
    requires Reached(s, run) && PcOf(s, t) == HeadRead(s.head)
    ensures Shape(s)
    ensures PcOf(Apply(s, t, Continue), t).Idle? <==> s.head == s.tail || s.tail - s.head == MAX_GLOBAL_MQ
  {
    hide Reached;
    NeverOverfull(s, run);
  }
}
