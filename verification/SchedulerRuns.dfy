/** What every run of the scheduling protocol keeps, and a run that shows which assumption it needs. */
module SchedulerRuns {
  import opened Mailbox
  import opened Scheduler
  import opened SchedulerSteps

  datatype Action = Action(thread: Thread, step: Step)

  /** s is reached by the actions, every one of them enabled, and orderly if `orderly` is set. */
  ghost predicate Reached(s: State, run: seq<Action>, orderly: bool)
    decreases |run|
  {
    if run == [] then s == START else
      var k := |run| - 1;
      var a := run[k];
      exists p: State ::
        && Reached(p, run[..k], orderly) && Enabled(p, a.thread, a.step) && Touches(p, a.thread)
        && (orderly ==> Orderly(p, a.thread, a.step)) && s == Apply(p, a.thread, a.step)
  }

  lemma {:induction false} RunKeeps(s: State, run: seq<Action>)
    requires Reached(s, run, true)
    ensures Inv(s)
    decreases |run|
  {
    if run != [] {
      hide InvQ, Apply;
      var k := |run| - 1;
      var a := run[k];
      var p: State :| Reached(p, run[..k], true) && Enabled(p, a.thread, a.step) && Touches(p, a.thread)
                      && Orderly(p, a.thread, a.step) && s == Apply(p, a.thread, a.step);
      RunKeeps(p, run[..k]);
      StepKeeps(p, a.thread, a.step);
    }
  }

  lemma Alone(s: State, q: Service, t: Thread, u: Thread)
    requires InvQ(s, q) && PcOf(s, t).Running? && PcOf(s, t).service == q
    ensures q in s.inited
    ensures PcOf(s, u).Running? && PcOf(s, u).service == q ==> t == u
    ensures PcOf(s, u) !in {Creating(q), Launching(q)}
  {
    hide BoxOk, RefsOk, AwaitedOk, PcsOk;
    assert HasToken(PcOf(s, t), q);
    assert PcOf(s, u) in {Creating(q), Launching(q)} ==> HasToken(PcOf(s, u), q);
    assert PcOf(s, u).Running? && PcOf(s, u).service == q ==> HasToken(PcOf(s, u), q);
  }

  /** No service runs on two threads at once, and none runs before its init has completed. */
  lemma MutualExclusion(s: State, run: seq<Action>, t: Thread, u: Thread)
    requires Reached(s, run, true) && PcOf(s, t).Running?
    ensures PcOf(s, t).service in s.inited
    ensures PcOf(s, u).Running? && PcOf(s, u).service == PcOf(s, t).service ==> t == u
    ensures PcOf(s, u) !in {Creating(PcOf(s, t).service), Launching(PcOf(s, t).service)}
  {
    hide Reached, InvQ;
    RunKeeps(s, run);
    Alone(s, PcOf(s, t).service, t, u);
  }

  /** The assertions of the source that guard the step. */
  predicate AssertsHold(s: State, t: Thread, step: Step)
    requires Touches(s, t)
  {
    var pc := PcOf(s, t);
    pc.Idle? ||
    var b := s.boxes[pc.service];
    match step
    case LockSession(_) => b.lockSession == 0 && b.mark == InGlobal
    case SendPush(m) => Unlocks(b, m) ==> b.mark == Locked || b.mark == Dispatching
    case PushGlobal => b.mark != Unscheduled
    case ForcePush => b.mark != Unscheduled
    case ReleaseFailed => b.release || b.mark != Unscheduled
    case ReleaseRetired => b.release || b.mark != Unscheduled
    case PopMessage => pc.service in s.inited
    case MarkRelease => !b.release
    case _ => true
  }

  lemma NoAssertionFails(s: State, run: seq<Action>, t: Thread, step: Step)
    requires Reached(s, run, true) && Enabled(s, t, step)
    ensures Touches(s, t) && AssertsHold(s, t, step)
  {
    RunKeeps(s, run);
    NeverDangling(s, t);
    if !PcOf(s, t).Idle? {
      assert InvQ(s, PcOf(s, t).service);
    }
  }

  /** A queue with messages and no locked session is in the global queue or in the hands of one thread. */
  lemma NoLostWakeUp(s: State, run: seq<Action>, q: Service)
    requires Reached(s, run, true) && q in s.boxes
    ensures s.boxes[q].messages != [] && s.boxes[q].lockSession == 0 ==> Owned(s, q)
    ensures OneToken(s, q)
  {
    RunKeeps(s, run);
    assert InvQ(s, q);
  }

  /** While a session is locked only the dispatch that locked it may still hold the queue, and no one once it has ended. */
  lemma LockedIsNotScheduled(s: State, run: seq<Action>, q: Service, t: Thread)
    requires Reached(s, run, true) && q in s.boxes && s.boxes[q].lockSession != 0 && !s.boxes[q].release
    ensures q !in s.global
    ensures HasToken(PcOf(s, t), q) ==> s.boxes[q].mark == Dispatching && PcOf(s, t) in {Running(q, true), Finished(q), Deleting(q, Finished(q))}
    ensures s.boxes[q].mark == Locked ==> !Owned(s, q)
  {
    RunKeeps(s, run);
    assert InvQ(s, q);
  }

  /** The reply that ended a lock is the next message popped. */
  lemma UnlockingReplyIsNext(s: State, run: seq<Action>, t: Thread)
    requires Reached(s, run, true) && Enabled(s, t, PopMessage) && PcOf(s, t).service in s.awaited
    ensures var q := PcOf(s, t).service;
            && q in s.boxes && s.boxes[q].messages != [] && s.boxes[q].messages[0] == s.awaited[q]
            && Apply(s, t, PopMessage).boxes[q].messages == s.boxes[q].messages[1..]
  {
    RunKeeps(s, run);
    assert InvQ(s, PcOf(s, t).service);
  }

  /** A queue is freed at most once, and nothing refers to it from then on. */
  lemma FreedOnce(s: State, run: seq<Action>, t: Thread, step: Step, q: Service)
    requires Reached(s, run, true) && Enabled(s, t, step) && Touches(s, t) && q in s.freed
    ensures q !in s.boxes && Absent(s, q)
    ensures q in Apply(s, t, step).freed && q !in Apply(s, t, step).boxes
  {
    RunKeeps(s, run);
    assert InvQ(s, q);
  }

  /** The assumption on mark_release is exact: without it the queue is scheduled while a worker still dispatches it. */
  lemma ReleaseWhileLocking(s: State, run: seq<Action>, t: Thread)
    requires Reached(s, run, true) && Enabled(s, t, MarkRelease)
    ensures Touches(s, t)
    ensures Inv(Apply(s, t, MarkRelease)) <==> Orderly(s, t, MarkRelease)
  {
    RunKeeps(s, run);
    NeverDangling(s, t);
    if Orderly(s, t, MarkRelease) {
      StepKeeps(s, t, MarkRelease);
    } else {
      SecondToken(s, t);
      var q := PcOf(s, t).service;
      assert !InvQ(Apply(s, t, MarkRelease), q);
    }
  }

  lemma SecondToken(s: State, t: Thread)
    requires Inv(s) && Enabled(s, t, MarkRelease) && Touches(s, t) && !Orderly(s, t, MarkRelease)
    ensures !OneToken(Apply(s, t, MarkRelease), PcOf(s, t).service)
    ensures PcOf(s, t).service in Apply(s, t, MarkRelease).boxes
  {
    var q := PcOf(s, t).service;
    var s' := Apply(s, t, MarkRelease);
    assert InvQ(s, q);
    var u :| HasToken(PcOf(s, u), q);
    assert HasToken(PcOf(s', u), q);
    assert s'.global[|s.global|] == q;
  }

  /** The worker that dispatches when thread t finds the queue dispatching in mark_release: it will push the queue back. */
  lemma StillDispatching(s: State, t: Thread) returns (w: Thread)
    requires Inv(s) && Enabled(s, t, MarkRelease) && Touches(s, t) && !Orderly(s, t, MarkRelease)
    ensures var q := PcOf(s, t).service; q in s.boxes && !s.boxes[q].release && s.boxes[q].mark == Dispatching && q !in s.table && q !in s.freed
    ensures var q := PcOf(s, t).service; PcOf(s, w) == if w == t then Deleting(q, Finished(q)) else Finished(q)
  {
    var q := PcOf(s, t).service;
    assert InvQ(s, q);
    w :| HasToken(PcOf(s, w), q);
  }

  /**
   What comes of it, here with nothing else scheduled: thread u pops the queue, finds no context and frees the queue, which
   worker w is about to push back.
   */
  lemma UseAfterFree(s: State, run: seq<Action>, t: Thread, u: Thread) returns (w: Thread)
    requires Reached(s, run, true) && Enabled(s, t, MarkRelease) && Touches(s, t) && !Orderly(s, t, MarkRelease)
    requires s.global == [] && PcOf(s, u).Idle?
    ensures var q := PcOf(s, t).service;
            && var s1 := Apply(s, t, MarkRelease);
            && Enabled(s1, u, PopGlobal) && Touches(s1, u)
            && var s2 := Apply(s1, u, PopGlobal);
            && Enabled(s2, u, Grab) && Touches(s2, u)
            && var s3 := Apply(s2, u, Grab);
            && Enabled(s3, u, ReleaseRetired) && Touches(s3, u)
            && var s4 := Apply(s3, u, ReleaseRetired);
            && q in s4.freed && q !in s4.boxes && PcOf(s4, w) == Finished(q) && Enabled(s4, w, PushGlobal) && !Touches(s4, w)
  {
    hide Reached;
    RunKeeps(s, run);
    w := StillDispatching(s, t);
    hide InvQ, Apply, Enabled, Touches;
    MarkingSchedules(s, t, u, w);
    var q, s1 := PcOf(s, t).service, Apply(s, t, MarkRelease);
    PopsOnly(s1, u, q);
    FreesRetired(Apply(s1, u, PopGlobal), u, q, w);
  }

  lemma MarkingSchedules(s: State, t: Thread, u: Thread, w: Thread)
    requires Enabled(s, t, MarkRelease) && Touches(s, t) && s.global == [] && PcOf(s, u).Idle?
    requires var q := PcOf(s, t).service;
             && !s.boxes[q].release && s.boxes[q].mark == Dispatching && q !in s.table && q !in s.freed
             && PcOf(s, w) == if w == t then Deleting(q, Finished(q)) else Finished(q)
    ensures var q, s1 := PcOf(s, t).service, Apply(s, t, MarkRelease);
            s1.global == [q] && PcOf(s1, u).Idle? && PcOf(s1, w) == Finished(q) && q in s1.boxes && s1.boxes[q].release && q !in s1.table
  {
  }

  lemma PopsOnly(s: State, u: Thread, q: Service)
    requires PcOf(s, u).Idle? && s.global == [q]
    ensures Enabled(s, u, PopGlobal) && Touches(s, u) && Apply(s, u, PopGlobal) == Put(s, u, Got(q)).(global := [])
  {
  }

  /** Thread u has popped a released queue that worker w has not pushed back. */
  lemma FreesRetired(s: State, u: Thread, q: Service, w: Thread)
    requires PcOf(s, u) == Got(q) && q !in s.table && q in s.boxes && s.boxes[q].release && PcOf(s, w) == Finished(q)
    ensures Enabled(s, u, Grab) && Touches(s, u) && Enabled(Apply(s, u, Grab), u, ReleaseRetired) && Touches(Apply(s, u, Grab), u)
    ensures var s4 := Apply(Apply(s, u, Grab), u, ReleaseRetired);
            q in s4.freed && q !in s4.boxes && PcOf(s4, w) == Finished(q) && Enabled(s4, w, PushGlobal) && !Touches(s4, w)
  {
    assert Apply(s, u, Grab) == Put(s, u, NoContext(q));
  }

  lemma Extend(s: State, run: seq<Action>, t: Thread, step: Step)
    requires Reached(s, run, true) && Enabled(s, t, step) && Touches(s, t) && Orderly(s, t, step)
    ensures Reached(Apply(s, t, step), run + [Action(t, step)], true)
  {
    var longer := run + [Action(t, step)];
    assert longer[..|run|] == run;
  }

  ghost predicate ReachedBySome(s: State)
  {
    exists run :: Reached(s, run, true)
  }

  lemma ExtendSome(s: State, t: Thread, step: Step, s': State)
    requires ReachedBySome(s) && Enabled(s, t, step) && Touches(s, t) && Orderly(s, t, step) && s' == Apply(s, t, step)
    ensures ReachedBySome(s')
  {
    var run :| Reached(s, run, true);
    Extend(s, run, t, step);
  }

  const HELLO := Message(0, 0, 0)

  function Example(b: Box, global: seq<Service>, table: set<Service>, inited: set<Service>, threads: map<Thread, Pc>): State
  {
    State(map[0 := b], global, table, inited, {}, threads, map[])
  }

  lemma ExampleLaunch()
    ensures ReachedBySome(Example(NEW_BOX, [0], {0}, {0}, map[1 := Idle]))
  {
    hide Reached;
    assert ReachedBySome(START) by { assert Reached(START, [], true) by { StartIsReached(); } }
    ExtendSome(START, 1, Create(0), Example(NEW_BOX, [], {0}, {}, map[1 := Creating(0)]));
    ExtendSome(Example(NEW_BOX, [], {0}, {}, map[1 := Creating(0)]), 1, InitSucceeds, Example(NEW_BOX, [], {0}, {}, map[1 := Launching(0)]));
    ExtendSome(Example(NEW_BOX, [], {0}, {}, map[1 := Launching(0)]), 1, SetInit, Example(NEW_BOX, [], {0}, {0}, map[1 := Launched(0)]));
    ExtendSome(Example(NEW_BOX, [], {0}, {0}, map[1 := Launched(0)]), 1, ForcePush, Example(NEW_BOX, [0], {0}, {0}, map[1 := Idle]));
  }

  lemma StartIsReached()
    ensures Reached(START, [], true)
  {
  }

  lemma ExampleSend()
    ensures ReachedBySome(Example(Box([HELLO], InGlobal, 0, false), [0], {0}, {0}, map[1 := Idle]))
  {
    hide Reached;
    ExampleLaunch();
    var sent := Box([HELLO], InGlobal, 0, false);
    ExtendSome(Example(NEW_BOX, [0], {0}, {0}, map[1 := Idle]), 1, SendGrab(0), Example(NEW_BOX, [0], {0}, {0}, map[1 := Sending(0)]));
    assert [] + [HELLO] == [HELLO] && PushBox(NEW_BOX, HELLO) == Effect(sent, false);
    ExtendSome(Example(NEW_BOX, [0], {0}, {0}, map[1 := Sending(0)]), 1, SendPush(HELLO), Example(sent, [0], {0}, {0}, map[1 := Leaving(0)]));
    ExtendSome(Example(sent, [0], {0}, {0}, map[1 := Leaving(0)]), 1, Leave, Example(sent, [0], {0}, {0}, map[1 := Idle]));
  }

  lemma ExampleDispatch()
    ensures ReachedBySome(Example(NEW_BOX, [], {0}, {0}, map[1 := Idle, 2 := Running(0, false)]))
  {
    hide Reached;
    ExampleSend();
    var sent := Box([HELLO], InGlobal, 0, false);
    ExtendSome(Example(sent, [0], {0}, {0}, map[1 := Idle]), 2, PopGlobal, Example(sent, [], {0}, {0}, map[1 := Idle, 2 := Got(0)]));
    ExtendSome(Example(sent, [], {0}, {0}, map[1 := Idle, 2 := Got(0)]), 2, Grab, Example(sent, [], {0}, {0}, map[1 := Idle, 2 := Grabbed(0)]));
    assert [HELLO][1..] == [] && PopBox(sent) == NEW_BOX;
    ExtendSome(Example(sent, [], {0}, {0}, map[1 := Idle, 2 := Grabbed(0)]), 2, PopMessage, Example(NEW_BOX, [], {0}, {0}, map[1 := Idle, 2 := Running(0, false)]));
  }

  /**
   A service that locks a session and exits in the same callback drops its last reference while dispatching: a state to which
   UseAfterFree applies, with threads 2 and 3.
   */
  lemma LockThenExit()
    ensures exists s: State :: ReachedBySome(s) && Enabled(s, 2, MarkRelease) && Touches(s, 2) && !Orderly(s, 2, MarkRelease)
                               && s.global == [] && PcOf(s, 3).Idle?
  {
    hide Reached;
    ExampleDispatch();
    var locked := Box([], Dispatching, 7, false);
    ExtendSome(Example(NEW_BOX, [], {0}, {0}, map[1 := Idle, 2 := Running(0, false)]), 2, LockSession(7),
               Example(locked, [], {0}, {0}, map[1 := Idle, 2 := Running(0, true)]));
    assert HasRef(PcOf(Example(locked, [], {0}, {0}, map[1 := Idle, 2 := Running(0, true)]), 2), 0);
    ExtendSome(Example(locked, [], {0}, {0}, map[1 := Idle, 2 := Running(0, true)]), 1, Retire(0),
               Example(locked, [], {}, {0}, map[1 := Idle, 2 := Running(0, true)]));
    ExtendSome(Example(locked, [], {}, {0}, map[1 := Idle, 2 := Running(0, true)]), 2, Finish,
               Example(locked, [], {}, {0}, map[1 := Idle, 2 := Deleting(0, Finished(0))]));
    assert !Orderly(Example(locked, [], {}, {0}, map[1 := Idle, 2 := Deleting(0, Finished(0))]), 2, MarkRelease);
  }

  // ---------- mark_release takes no lock: its two accesses apart ----------

  /** Its first half: the queue may be pushed, and is not marked yet. */
  ghost function HalfMarked(s: State, t: Thread): State
    requires Enabled(s, t, MarkRelease) && Touches(s, t)
  {
    var q := PcOf(s, t).service;
    if s.boxes[q].mark != InGlobal then s.(global := s.global + [q]) else s
  }

  /** Its second half. */
  ghost function Marked(s: State, t: Thread): State
    requires Enabled(s, t, MarkRelease) && Touches(s, t)
  {
    var q := PcOf(s, t).service;
    Put(s.(boxes := s.boxes[q := s.boxes[q].(release := true)]), t, PcOf(s, t).next)
  }

  /**
   With nothing else scheduled, thread u may pop the queue between the halves and find it unmarked: the assertion of
   skynet_mq_force_push holds if and only if a session is locked. Then the queue is pushed again, as if u had not come, and
   the second half makes the whole step; but for an idle service the assertion fails.
   */
  lemma BetweenTheHalves(s: State, run: seq<Action>, t: Thread, u: Thread)
    requires Reached(s, run, true) && Enabled(s, t, MarkRelease) && Touches(s, t) && Orderly(s, t, MarkRelease)
    requires s.global == [] && PcOf(s, u).Idle? && s.boxes[PcOf(s, t).service].mark != InGlobal
    ensures var q, h := PcOf(s, t).service, HalfMarked(s, t);
            && Enabled(h, u, PopGlobal) && Touches(h, u)
            && var s1 := Apply(h, u, PopGlobal);
            && Enabled(s1, u, Grab) && Touches(s1, u)
            && var s2 := Apply(s1, u, Grab);
            && Enabled(s2, u, ReleaseRetired) && Touches(s2, u)
            && (AssertsHold(s2, u, ReleaseRetired) <==> s.boxes[q].mark == Locked)
            && var s3 := Apply(s2, u, ReleaseRetired);
            && s3 == Put(h, u, Idle) && Enabled(s3, t, MarkRelease) && Touches(s3, t)
            && Marked(s3, t) == Put(Apply(s, t, MarkRelease), u, Idle)
  {
    hide Reached, Apply, Enabled;
    RunKeeps(s, run);
    MarkingAlone(s, t);
    hide InvQ;
    EnabledDeleting(s, t);
    var q, h := PcOf(s, t).service, HalfMarked(s, t);
    PopsOnly(h, u, q);
    RequeuesUnmarked(Apply(h, u, PopGlobal), u, q);
    MarkedWhole(s, t, u);
  }

  lemma EnabledDeleting(s: State, t: Thread)
    ensures Enabled(s, t, MarkRelease) <==> PcOf(s, t).Deleting?
  {
  }

  lemma MarkingAlone(s: State, t: Thread)
    requires Inv(s) && Enabled(s, t, MarkRelease) && Touches(s, t)
    ensures var q := PcOf(s, t).service; !s.boxes[q].release && q !in s.table
  {
    assert InvQ(s, PcOf(s, t).service);
  }

  /** Thread u has popped an unmarked queue with a retired handle. */
  lemma RequeuesUnmarked(s: State, u: Thread, q: Service)
    requires PcOf(s, u) == Got(q) && q !in s.table && q in s.boxes && !s.boxes[q].release
    ensures Enabled(s, u, Grab) && Touches(s, u) && Enabled(Apply(s, u, Grab), u, ReleaseRetired) && Touches(Apply(s, u, Grab), u)
    ensures AssertsHold(Apply(s, u, Grab), u, ReleaseRetired) <==> s.boxes[q].mark != Unscheduled
    ensures Apply(Apply(s, u, Grab), u, ReleaseRetired) == Put(s, u, Idle).(global := s.global + [q])
  {
    assert Apply(s, u, Grab) == Put(s, u, NoContext(q));
    assert s.threads[u := NoContext(q)][u := Idle] == s.threads[u := Idle];
  }

  lemma MarkedWhole(s: State, t: Thread, u: Thread)
    requires PcOf(s, t).Deleting? && Enabled(s, t, MarkRelease) && Touches(s, t) && PcOf(s, u).Idle?
    ensures var s' := Put(HalfMarked(s, t), u, Idle);
            Enabled(s', t, MarkRelease) && Touches(s', t) && Marked(s', t) == Put(Apply(s, t, MarkRelease), u, Idle)
  {
    assert s.threads[u := Idle][t := PcOf(s, t).next] == s.threads[t := PcOf(s, t).next][u := Idle];
  }

  const IDLE_BOX := Box([], Unscheduled, 0, false)

  lemma ExampleIdle()
    ensures ReachedBySome(Example(IDLE_BOX, [], {0}, {0}, map[1 := Idle, 2 := Leaving(0)]))
  {
    hide Reached;
    ExampleLaunch();
    ExtendSome(Example(NEW_BOX, [0], {0}, {0}, map[1 := Idle]), 2, PopGlobal, Example(NEW_BOX, [], {0}, {0}, map[1 := Idle, 2 := Got(0)]));
    ExtendSome(Example(NEW_BOX, [], {0}, {0}, map[1 := Idle, 2 := Got(0)]), 2, Grab, Example(NEW_BOX, [], {0}, {0}, map[1 := Idle, 2 := Grabbed(0)]));
    assert PopBox(NEW_BOX) == IDLE_BOX;
    ExtendSome(Example(NEW_BOX, [], {0}, {0}, map[1 := Idle, 2 := Grabbed(0)]), 2, PopMessage, Example(IDLE_BOX, [], {0}, {0}, map[1 := Idle, 2 := Leaving(0)]));
  }

  /** A service that is retired while its queue is empty and in no one's hands: a state to which BetweenTheHalves applies, with threads 1 and 3. */
  lemma RetiredWhileIdle()
    ensures exists s: State :: ReachedBySome(s) && Enabled(s, 1, MarkRelease) && Touches(s, 1) && Orderly(s, 1, MarkRelease)
                               && s.global == [] && PcOf(s, 3).Idle? && s.boxes[PcOf(s, 1).service].mark == Unscheduled
  {
    hide ReachedBySome;
    ExampleIdle();
    ExtendSome(Example(IDLE_BOX, [], {0}, {0}, map[1 := Idle, 2 := Leaving(0)]), 2, Leave, Example(IDLE_BOX, [], {0}, {0}, map[1 := Idle, 2 := Idle]));
    ExtendSome(Example(IDLE_BOX, [], {0}, {0}, map[1 := Idle, 2 := Idle]), 1, Retire(0), Example(IDLE_BOX, [], {}, {0}, map[1 := Deleting(0, Idle), 2 := Idle]));
  }
}
