/** The reader-writer spin lock, one shared-memory access a step, for any number of threads. */
module RwLock {
  import opened Arithmetic

  type Thread = nat

  datatype Pc =
    | Idle
    | ReadFree     // rlock: saw write == 0, the increment comes next
    | ReadCounted  // rlock: incremented, the second look at write comes next
    | ReadBack     // rlock: saw a writer, the decrement comes next
    | Reading
    | WriteWait    // wlock: owns write, waits for read == 0
    | Writing

  datatype State = State(write: bool, read: int, threads: map<Thread, Pc>)

  const START := State(false, 0, map[])

  datatype Step = BeginRead | BeginWrite | Continue

  function PcOf(s: State, t: Thread): Pc
  {
    if t in s.threads then s.threads[t] else Idle
  }

  function Put(s: State, t: Thread, pc: Pc): State
  {
    s.(threads := s.threads[t := pc])
  }

  predicate Enabled(s: State, t: Thread, step: Step)
  {
    PcOf(s, t).Idle? <==> !step.Continue?
  }

  /** A spin that fails leaves everything as it is. */
  function Apply(s: State, t: Thread, step: Step): State
  {
    match step
    case BeginRead => if s.write then s else Put(s, t, ReadFree)
    case BeginWrite => if s.write then s else Put(s, t, WriteWait).(write := true)
    case Continue =>
      match PcOf(s, t)
      case Idle => s
      case ReadFree => Put(s, t, ReadCounted).(read := s.read + 1)
      case ReadCounted => Put(s, t, if s.write then ReadBack else Reading)
      case ReadBack => Put(s, t, Idle).(read := s.read - 1)
      case Reading => Put(s, t, Idle).(read := s.read - 1)
      case WriteWait => if s.read == 0 then Put(s, t, Writing) else s
      case Writing => Put(s, t, Idle).(write := false)
  }

  predicate Counted(pc: Pc)
  {
    pc.ReadCounted? || pc.ReadBack? || pc.Reading?
  }

  predicate Owner(pc: Pc)
  {
    pc.WriteWait? || pc.Writing?
  }

  /** The readers that have incremented and not yet decremented. */
  ghost function Readers(s: State): set<Thread>
  {
    set t | t in s.threads && Counted(s.threads[t])
  }

  ghost predicate Inv(s: State)
  {
    && s.read == |Readers(s)|
    && (forall t :: Owner(PcOf(s, t)) ==> s.write)
    && (forall t, u :: Owner(PcOf(s, t)) && Owner(PcOf(s, u)) ==> t == u)
    && (s.write ==> exists t :: Owner(PcOf(s, t)))
    && (forall t, u :: PcOf(s, t).Writing? ==> !PcOf(s, u).Reading?)
  }

  lemma RemoveOne(threads: set<Thread>, t: Thread)
    ensures |threads| == |threads - {t}| + if t in threads then 1 else 0
  {
    if t in threads {
      assert threads == (threads - {t}) + {t};
    } else {
      assert threads == threads - {t};
    }
  }

  lemma OtherReaders(s: State, t: Thread, pc: Pc)
    ensures Readers(Put(s, t, pc)) - {t} == Readers(s) - {t}
    ensures t in Readers(Put(s, t, pc)) <==> Counted(pc)
    ensures t in Readers(s) <==> Counted(PcOf(s, t))
  {
    var s' := Put(s, t, pc);
    assert forall u :: u in s'.threads <==> u == t || u in s.threads;
    assert forall u :: u in s.threads && u != t ==> s'.threads[u] == s.threads[u];
  }

  /** A move of one thread changes the set of readers by that thread at most. */
  lemma ReadersMove(s: State, t: Thread, pc: Pc)
    ensures |Readers(Put(s, t, pc))| ==
            |Readers(s)| + (if Counted(pc) then 1 else 0) - (if Counted(PcOf(s, t)) then 1 else 0)
  {
    OtherReaders(s, t, pc);
    hide Readers;
    RemoveOne(Readers(s), t);
    RemoveOne(Readers(Put(s, t, pc)), t);
  }

  lemma StepKeeps(s: State, t: Thread, step: Step)
    requires Inv(s) && Enabled(s, t, step)
    ensures Inv(Apply(s, t, step))
  {
    var s' := Apply(s, t, step);
    ReadersMove(s, t, PcOf(s', t));
    assert s' == s || s'.threads == Put(s, t, PcOf(s', t)).threads;
    assert Readers(s') == Readers(s'.(write := s.write, read := s.read));
    assert forall u :: u != t ==> PcOf(s', u) == PcOf(s, u);
    forall u | PcOf(s', u).Writing? && PcOf(s, u).WriteWait?
      ensures Readers(s) == {}
    {
    }
    assert forall u :: Counted(PcOf(s, u)) ==> u in Readers(s);
  }

  ghost predicate Reached(s: State, run: seq<(Thread, Step)>)
    decreases |run|
  {
    if run == [] then s == START else
      var k := |run| - 1;
      exists p: State :: Reached(p, run[..k]) && Enabled(p, run[k].0, run[k].1) && s == Apply(p, run[k].0, run[k].1)
  }

  lemma {:induction false} RunKeeps(s: State, run: seq<(Thread, Step)>)
    requires Reached(s, run)
    ensures Inv(s)
    decreases |run|
  {
    if run != [] {
      var k := |run| - 1;
      var p: State :| Reached(p, run[..k]) && Enabled(p, run[k].0, run[k].1) && s == Apply(p, run[k].0, run[k].1);
      RunKeeps(p, run[..k]);
      StepKeeps(p, run[k].0, run[k].1);
    } else {
      assert Readers(s) == {};
    }
  }

  /** A writer inside excludes every reader and every other writer, and `read` counts the readers exactly. */
  lemma Exclusion(s: State, run: seq<(Thread, Step)>, t: Thread, u: Thread)
    requires Reached(s, run)
    ensures PcOf(s, t).Writing? ==> !PcOf(s, u).Reading? && (PcOf(s, u).Writing? ==> t == u)
    ensures s.read == |Readers(s)|
    ensures s.write <==> exists v :: Owner(PcOf(s, v))
  {
    RunKeeps(s, run);
  }

  // ---------- no deadlock ----------

  /** An upper bound of the steps that a thread still has to take. */
  function Ahead(pc: Pc): (n: nat)
    ensures n == 0 <==> pc.Idle?
  {
    match pc
    case Idle => 0
    case ReadFree => 3
    case ReadCounted => 2
    case ReadBack => 1
    case Reading => 1
    case WriteWait => 2
    case Writing => 1
  }

  ghost function Work(s: State): set<(Thread, nat)>
  {
    set t, i: nat | t in s.threads && i < Ahead(s.threads[t]) :: (t, i)
  }

  /** A step that is not a failing spin leaves less work. */
  lemma LessWork(s: State, t: Thread)
    requires !PcOf(s, t).Idle? && (PcOf(s, t).WriteWait? ==> s.read == 0)
    ensures |Work(Apply(s, t, Continue))| < |Work(s)|
  {
    var s' := Apply(s, t, Continue);
    var n := Ahead(PcOf(s', t));
    assert n < Ahead(PcOf(s, t)) && forall u :: u != t ==> PcOf(s', u) == PcOf(s, u);
    assert (t, n) in Work(s) && (t, n) !in Work(s');
    assert Work(s') <= Work(s);
    Smaller(Work(s'), Work(s));
  }

  lemma NoReaders(s: State)
    requires forall u :: !Counted(PcOf(s, u))
    ensures Readers(s) == {}
  {
    assert forall u :: u in Readers(s) ==> Counted(PcOf(s, u));
  }

  lemma AllOut(s: State)
    requires Inv(s) && forall u :: PcOf(s, u).Idle?
    ensures !s.write && s.read == 0
  {
    NoReaders(s);
  }

  /** As long as some thread is in the lock one of them can go on. */
  lemma SomeoneMoves(s: State) returns (t: Thread)
    requires Inv(s) && exists u :: !PcOf(s, u).Idle?
    ensures !PcOf(s, t).Idle? && (PcOf(s, t).WriteWait? ==> s.read == 0)
  {
    if u :| !PcOf(s, u).Idle? && !PcOf(s, u).WriteWait? {
      t := u;
    } else {
      t :| !PcOf(s, t).Idle?;
      NoReaders(s);
    }
  }

  /** From every state that is reached, the threads in the lock can all come out of it: there is no deadlock. */
  lemma {:induction false} NoDeadlock(s: State, run: seq<(Thread, Step)>) returns (s': State, more: seq<(Thread, Step)>)
    requires Reached(s, run)
    ensures Reached(s', run + more) && (forall i :: 0 <= i < |more| ==> more[i].1 == Continue)
    ensures (forall t :: PcOf(s', t).Idle?) && !s'.write && s'.read == 0
    decreases |Work(s)|
  {
    hide Inv, Apply, Reached, Work;
    RunKeeps(s, run);
    if exists u :: !PcOf(s, u).Idle? {
      var t := SomeoneMoves(s);
      LessWork(s, t);
      Extend(s, run, t, Continue);
      var rest;
      s', rest := NoDeadlock(Apply(s, t, Continue), run + [(t, Continue)]);
      more := [(t, Continue)] + rest;
      assert run + [(t, Continue)] + rest == run + more;
    } else {
      s', more := s, [];
      assert run + [] == run;
      AllOut(s);
    }
  }

  lemma Extend(s: State, run: seq<(Thread, Step)>, t: Thread, step: Step)
    requires Reached(s, run) && Enabled(s, t, step)
    ensures Reached(Apply(s, t, step), run + [(t, step)])
  {
    assert (run + [(t, step)])[..|run|] == run;
  }

  /** Without a writer a reader gets in, whoever else is reading, and is counted. */
  lemma ReaderEnters(s: State, t: Thread)
    requires PcOf(s, t).Idle? && !s.write
    ensures var s' := Apply(Apply(Apply(s, t, BeginRead), t, Continue), t, Continue);
            PcOf(s', t).Reading? && s'.read == s.read + 1 && !s'.write && forall u :: u != t ==> PcOf(s', u) == PcOf(s, u)
  {
  }

  /** A writer gets in if no one is in the lock; while it waits or writes, whoever wants to begin spins. */
  lemma WriterEnters(s: State, t: Thread, u: Thread)
    requires PcOf(s, t).Idle? && PcOf(s, u).Idle? && t != u && !s.write
    ensures var s1 := Apply(s, t, BeginWrite);
            && PcOf(s1, t).WriteWait? && Apply(s1, u, BeginRead) == s1 == Apply(s1, u, BeginWrite)
            && (s.read == 0 ==> PcOf(Apply(s1, t, Continue), t).Writing? && Apply(s1, t, Continue).write)
            && (s.read != 0 ==> Apply(s1, t, Continue) == s1)
  {
  }
}
