/** Every step of every thread keeps the invariant of every service. */
module SchedulerSteps {
  import opened Mailbox
  import opened Scheduler

  ghost predicate SameFor(s: State, s': State, q: Service)
  {
    && (q in s.boxes <==> q in s'.boxes) && (q in s.boxes ==> s'.boxes[q] == s.boxes[q])
    && (q in s.awaited <==> q in s'.awaited) && (q in s.awaited ==> s'.awaited[q] == s.awaited[q])
    && multiset(s'.global)[q] == multiset(s.global)[q]
    && (q in s.table <==> q in s'.table) && (q in s.inited <==> q in s'.inited) && (q in s.freed <==> q in s'.freed)
    && forall t :: PcOf(s', t) == PcOf(s, t) || (!About(PcOf(s, t), q) && !About(PcOf(s', t), q))
  }

  lemma OthersKeep(s: State, s': State, q: Service)
    requires InvQ(s, q) && SameFor(s, s', q)
    ensures InvQ(s', q)
  {
    assert q in s.global <==> q in multiset(s.global);
    assert q in s'.global <==> q in multiset(s'.global);
    if q in s.boxes {
      assert Owned(s', q) <==> Owned(s, q);
    }
  }

  function Subject(s: State, t: Thread, step: Step): Service
    requires step.PopGlobal? ==> s.global != []
  {
    match step
    case Create(q) => q
    case SendGrab(q) => q
    case Retire(q) => q
    case PopGlobal => s.global[0]
    case _ => if PcOf(s, t).Idle? then 0 else PcOf(s, t).service
  }

  lemma StepThreads(s: State, t: Thread, step: Step, q: Service)
    requires Enabled(s, t, step) && Touches(s, t) && q != Subject(s, t, step)
    requires PcOf(s, t).Deleting? ==> PcOk(PcOf(s, t), s.boxes[PcOf(s, t).service])
    ensures var s' := Apply(s, t, step);
            (forall u :: u != t ==> PcOf(s', u) == PcOf(s, u)) && !About(PcOf(s, t), q) && !About(PcOf(s', t), q)
  {
    hide LastRef, PushBox, PopBox, PushGlobalBox, MarkReleaseBox, LockBox, Unlocks;
    var s' := Apply(s, t, step);
    assert PcOf(s', t) == s'.threads[t];
  }

  /** A step puts at most its subject into the global queue, at the end, or takes it out at the front. */
  lemma GlobalChange(s: State, t: Thread, step: Step)
    requires Enabled(s, t, step) && Touches(s, t)
    ensures var g := Apply(s, t, step).global;
            || g == s.global || g == s.global + [Subject(s, t, step)]
            || (step.PopGlobal? && s.global != [] && g == s.global[1..])
  {
    hide PushBox, PopBox, PushGlobalBox, MarkReleaseBox, LastRef;
  }

  lemma StepGlobal(s: State, t: Thread, step: Step, q: Service)
    requires Enabled(s, t, step) && Touches(s, t) && q != Subject(s, t, step)
    ensures multiset(Apply(s, t, step).global)[q] == multiset(s.global)[q]
  {
    hide Apply;
    GlobalChange(s, t, step);
    if step.PopGlobal? {
      assert s.global == [s.global[0]] + s.global[1..];
    }
  }

  /** The records of other services are not touched. */
  lemma StepRecords(s: State, t: Thread, step: Step, q: Service)
    requires Enabled(s, t, step) && Touches(s, t) && q != Subject(s, t, step)
    ensures var s' := Apply(s, t, step);
            && (q in s.boxes <==> q in s'.boxes) && (q in s.boxes ==> s'.boxes[q] == s.boxes[q])
            && (q in s.awaited <==> q in s'.awaited) && (q in s.awaited ==> s'.awaited[q] == s.awaited[q])
            && (q in s.table <==> q in s'.table) && (q in s.inited <==> q in s'.inited) && (q in s.freed <==> q in s'.freed)
  {
    hide LastRef, PushBox, PopBox, PushGlobalBox, MarkReleaseBox, LockBox, Unlocks;
  }

  lemma StepOthers(s: State, t: Thread, step: Step, q: Service)
    requires Enabled(s, t, step) && Touches(s, t) && q != Subject(s, t, step)
    requires PcOf(s, t).Deleting? ==> PcOk(PcOf(s, t), s.boxes[PcOf(s, t).service])
    ensures SameFor(s, Apply(s, t, step), q)
  {
    hide Apply, PcOk, Subject;
    StepRecords(s, t, step, q);
    StepThreads(s, t, step, q);
    StepGlobal(s, t, step, q);
  }

  lemma CreateKeeps(s: State, t: Thread, q: Service)
    requires InvQ(s, q) && Enabled(s, t, Create(q)) && Touches(s, t)
    ensures InvQ(Apply(s, t, Create(q)), q)
  {
    var s' := Apply(s, t, Create(q));
    assert forall u :: u != t ==> PcOf(s', u) == PcOf(s, u);
    assert PcOf(s', t) == s'.threads[t];
  }

  lemma InitSucceedsKeeps(s: State, t: Thread)
    requires Enabled(s, t, InitSucceeds) && Touches(s, t) && InvQ(s, PcOf(s, t).service)
    ensures InvQ(Apply(s, t, InitSucceeds), PcOf(s, t).service)
  {
    var s' := Apply(s, t, InitSucceeds);
    assert forall u :: u != t ==> PcOf(s', u) == PcOf(s, u);
    assert PcOf(s', t) == s'.threads[t];
  }

  lemma SetInitKeeps(s: State, t: Thread)
    requires Enabled(s, t, SetInit) && Touches(s, t) && InvQ(s, PcOf(s, t).service)
    ensures InvQ(Apply(s, t, SetInit), PcOf(s, t).service)
  {
    var s' := Apply(s, t, SetInit);
    assert forall u :: u != t ==> PcOf(s', u) == PcOf(s, u);
    assert PcOf(s', t) == s'.threads[t];
  }

  lemma ForcePushKeeps(s: State, t: Thread)
    requires Enabled(s, t, ForcePush) && Touches(s, t) && InvQ(s, PcOf(s, t).service)
    ensures InvQ(Apply(s, t, ForcePush), PcOf(s, t).service)
  {
    var s' := Apply(s, t, ForcePush);
    assert forall u :: u != t ==> PcOf(s', u) == PcOf(s, u);
    assert PcOf(s', t) == s'.threads[t];
  }

  lemma InitFailsKeeps(s: State, t: Thread)
    requires Enabled(s, t, InitFails) && Touches(s, t) && InvQ(s, PcOf(s, t).service)
    ensures InvQ(Apply(s, t, InitFails), PcOf(s, t).service)
  {
    var s' := Apply(s, t, InitFails);
    assert forall u :: u != t ==> PcOf(s', u) == PcOf(s, u);
    assert PcOf(s', t) == s'.threads[t];
  }

  lemma RetireFailedKeeps(s: State, t: Thread)
    requires Enabled(s, t, RetireFailed) && Touches(s, t) && InvQ(s, PcOf(s, t).service)
    ensures InvQ(Apply(s, t, RetireFailed), PcOf(s, t).service)
  {
    hide PushBox, PopBox, PushGlobalBox, MarkReleaseBox, LockBox, Unlocks;
    var s' := Apply(s, t, RetireFailed);
    assert forall u :: u != t ==> PcOf(s', u) == PcOf(s, u);
    assert PcOf(s', t) == s'.threads[t];
  }

  lemma ReleaseFailedKeeps(s: State, t: Thread)
    requires Enabled(s, t, ReleaseFailed) && Touches(s, t) && InvQ(s, PcOf(s, t).service)
    ensures InvQ(Apply(s, t, ReleaseFailed), PcOf(s, t).service)
  {
    var s' := Apply(s, t, ReleaseFailed);
    assert forall u :: u != t ==> PcOf(s', u) == PcOf(s, u);
    assert PcOf(s', t) == s'.threads[t];
  }

  lemma PopGlobalKeeps(s: State, t: Thread)
    requires Enabled(s, t, PopGlobal) && Touches(s, t) && InvQ(s, s.global[0])
    ensures InvQ(Apply(s, t, PopGlobal), s.global[0])
  {
    assert s.global == [s.global[0]] + s.global[1..];
    var s' := Apply(s, t, PopGlobal);
    assert forall u :: u != t ==> PcOf(s', u) == PcOf(s, u);
    assert PcOf(s', t) == s'.threads[t];
  }

  lemma GrabKeeps(s: State, t: Thread)
    requires Enabled(s, t, Grab) && Touches(s, t) && InvQ(s, PcOf(s, t).service)
    ensures InvQ(Apply(s, t, Grab), PcOf(s, t).service)
  {
    var s' := Apply(s, t, Grab);
    assert forall u :: u != t ==> PcOf(s', u) == PcOf(s, u);
    assert PcOf(s', t) == s'.threads[t];
  }

  lemma ReleaseRetiredKeeps(s: State, t: Thread)
    requires Enabled(s, t, ReleaseRetired) && Touches(s, t) && InvQ(s, PcOf(s, t).service)
    ensures InvQ(Apply(s, t, ReleaseRetired), PcOf(s, t).service)
  {
    var s' := Apply(s, t, ReleaseRetired);
    assert forall u :: u != t ==> PcOf(s', u) == PcOf(s, u);
    assert PcOf(s', t) == s'.threads[t];
  }

  lemma PopMessageKeeps(s: State, t: Thread)
    requires Enabled(s, t, PopMessage) && Touches(s, t) && InvQ(s, PcOf(s, t).service)
    ensures InvQ(Apply(s, t, PopMessage), PcOf(s, t).service)
  {
    var s' := Apply(s, t, PopMessage);
    assert forall u :: u != t ==> PcOf(s', u) == PcOf(s, u);
    assert PcOf(s', t) == s'.threads[t];
  }

  lemma LockSessionKeeps(s: State, t: Thread, session: int)
    requires Enabled(s, t, LockSession(session)) && Touches(s, t) && InvQ(s, PcOf(s, t).service)
    ensures InvQ(Apply(s, t, LockSession(session)), PcOf(s, t).service)
  {
    var s' := Apply(s, t, LockSession(session));
    assert forall u :: u != t ==> PcOf(s', u) == PcOf(s, u);
    assert PcOf(s', t) == s'.threads[t];
  }

  lemma FinishKeeps(s: State, t: Thread)
    requires Enabled(s, t, Finish) && Touches(s, t) && InvQ(s, PcOf(s, t).service)
    ensures InvQ(Apply(s, t, Finish), PcOf(s, t).service)
  {
    var s' := Apply(s, t, Finish);
    assert forall u :: u != t ==> PcOf(s', u) == PcOf(s, u);
    assert PcOf(s', t) == s'.threads[t];
  }

  lemma PushGlobalKeeps(s: State, t: Thread)
    requires Enabled(s, t, PushGlobal) && Touches(s, t) && InvQ(s, PcOf(s, t).service)
    ensures InvQ(Apply(s, t, PushGlobal), PcOf(s, t).service)
  {
    hide LastRef, PushBox, PopBox, MarkReleaseBox, LockBox, Unlocks;
    var s' := Apply(s, t, PushGlobal);
    assert forall u :: u != t ==> PcOf(s', u) == PcOf(s, u);
    assert PcOf(s', t) == s'.threads[t];
  }

  lemma SendGrabKeeps(s: State, t: Thread, q: Service)
    requires InvQ(s, q) && Enabled(s, t, SendGrab(q)) && Touches(s, t)
    ensures InvQ(Apply(s, t, SendGrab(q)), q)
  {
    var s' := Apply(s, t, SendGrab(q));
    assert forall u :: u != t ==> PcOf(s', u) == PcOf(s, u);
    assert PcOf(s', t) == s'.threads[t];
  }

  lemma SendUnlockKeeps(s: State, t: Thread, m: Message)
    requires Enabled(s, t, SendPush(m)) && Touches(s, t) && InvQ(s, PcOf(s, t).service)
    requires Unlocks(s.boxes[PcOf(s, t).service], m)
    ensures InvQ(Apply(s, t, SendPush(m)), PcOf(s, t).service)
  {
    hide InvQ, Apply;
    SendUnlockToken(s, t, m);
    SendUnlockRest(s, t, m);
    assert InvQ(Apply(s, t, SendPush(m)), PcOf(s, t).service) by {
      Parts(Apply(s, t, SendPush(m)), PcOf(s, t).service);
    }
  }

  /** The invariant of an allocated queue from its parts. */
  lemma Parts(s: State, q: Service)
    requires q in s.boxes && q !in s.freed && BoxOk(s.boxes[q]) && PcsOk(s, q) && OneToken(s, q) && (Scheduled(s.boxes[q]) <==> Owned(s, q))
    requires (q in s.global ==> s.boxes[q].release || s.boxes[q].mark == InGlobal) && RefsOk(s, q) && InitOk(s, q) && AwaitedOk(s, q)
    ensures InvQ(s, q)
  {
  }

  lemma SendUnlockToken(s: State, t: Thread, m: Message)
    requires Enabled(s, t, SendPush(m)) && Touches(s, t) && InvQ(s, PcOf(s, t).service)
    requires Unlocks(s.boxes[PcOf(s, t).service], m)
    ensures var s', q := Apply(s, t, SendPush(m)), PcOf(s, t).service;
            q in s'.boxes && OneToken(s', q) && (Scheduled(s'.boxes[q]) <==> Owned(s', q))
            && (q in s'.global ==> s'.boxes[q].release || s'.boxes[q].mark == InGlobal)
  {
    hide LastRef, PopBox, PushGlobalBox, MarkReleaseBox, LockBox, InitOk, AwaitedOk, PcsOk;
    var s' := Apply(s, t, SendPush(m));
    assert forall u :: u != t ==> PcOf(s', u) == PcOf(s, u);
    assert PcOf(s', t) == s'.threads[t];
  }

  lemma SendUnlockRest(s: State, t: Thread, m: Message)
    requires Enabled(s, t, SendPush(m)) && Touches(s, t) && InvQ(s, PcOf(s, t).service)
    requires Unlocks(s.boxes[PcOf(s, t).service], m)
    ensures var s', q := Apply(s, t, SendPush(m)), PcOf(s, t).service;
            q in s'.boxes && q !in s'.freed && BoxOk(s'.boxes[q]) && PcsOk(s', q) && RefsOk(s', q) && InitOk(s', q) && AwaitedOk(s', q)
  {
    hide LastRef, PopBox, PushGlobalBox, MarkReleaseBox, LockBox, OneToken;
    var s' := Apply(s, t, SendPush(m));
    assert forall u :: u != t ==> PcOf(s', u) == PcOf(s, u);
    assert PcOf(s', t) == s'.threads[t];
  }

  lemma SendQueuedKeeps(s: State, t: Thread, m: Message)
    requires Enabled(s, t, SendPush(m)) && Touches(s, t) && InvQ(s, PcOf(s, t).service)
    requires !Unlocks(s.boxes[PcOf(s, t).service], m)
    ensures InvQ(Apply(s, t, SendPush(m)), PcOf(s, t).service)
  {
    hide LastRef, PopBox, PushGlobalBox, MarkReleaseBox, LockBox;
    var s' := Apply(s, t, SendPush(m));
    assert forall u :: u != t ==> PcOf(s', u) == PcOf(s, u);
    assert PcOf(s', t) == s'.threads[t];
  }

  lemma LeaveKeeps(s: State, t: Thread)
    requires Enabled(s, t, Leave) && Touches(s, t) && InvQ(s, PcOf(s, t).service)
    ensures InvQ(Apply(s, t, Leave), PcOf(s, t).service)
  {
    var s' := Apply(s, t, Leave);
    assert forall u :: u != t ==> PcOf(s', u) == PcOf(s, u);
    assert PcOf(s', t) == s'.threads[t];
  }

  lemma RetireKeeps(s: State, t: Thread, q: Service)
    requires InvQ(s, q) && Enabled(s, t, Retire(q)) && Touches(s, t)
    ensures InvQ(Apply(s, t, Retire(q)), q)
  {
    var s' := Apply(s, t, Retire(q));
    assert forall u :: u != t ==> PcOf(s', u) == PcOf(s, u);
    assert PcOf(s', t) == s'.threads[t];
  }

  lemma MarkReleaseKeeps(s: State, t: Thread)
    requires Enabled(s, t, MarkRelease) && Touches(s, t) && s.boxes[PcOf(s, t).service].mark != Dispatching && InvQ(s, PcOf(s, t).service)
    ensures InvQ(Apply(s, t, MarkRelease), PcOf(s, t).service)
  {
    var s' := Apply(s, t, MarkRelease);
    assert forall u :: u != t ==> PcOf(s', u) == PcOf(s, u);
    assert PcOf(s', t) == s'.threads[t];
  }

  /** mark_release does not run while the queue is dispatching with a session locked. */
  predicate Orderly(s: State, t: Thread, step: Step)
  {
    step.MarkRelease? && Touches(s, t) && !PcOf(s, t).Idle? ==> s.boxes[PcOf(s, t).service].mark != Dispatching
  }

  lemma SubjectKeeps(s: State, t: Thread, step: Step)
    requires Inv(s) && Enabled(s, t, step) && Touches(s, t) && Orderly(s, t, step)
    ensures InvQ(Apply(s, t, step), Subject(s, t, step))
  {
    hide InvQ, Apply;
    assert InvQ(s, Subject(s, t, step));
    match step
    case Create(q) => CreateKeeps(s, t, q);
    case InitSucceeds => InitSucceedsKeeps(s, t);
    case SetInit => SetInitKeeps(s, t);
    case ForcePush => ForcePushKeeps(s, t);
    case InitFails => InitFailsKeeps(s, t);
    case RetireFailed => RetireFailedKeeps(s, t);
    case ReleaseFailed => ReleaseFailedKeeps(s, t);
    case PopGlobal => PopGlobalKeeps(s, t);
    case Grab => GrabKeeps(s, t);
    case ReleaseRetired => ReleaseRetiredKeeps(s, t);
    case PopMessage => PopMessageKeeps(s, t);
    case LockSession(session) => LockSessionKeeps(s, t, session);
    case Finish => FinishKeeps(s, t);
    case PushGlobal => PushGlobalKeeps(s, t);
    case SendGrab(q) => SendGrabKeeps(s, t, q);
    case SendPush(m) =>
      if Unlocks(s.boxes[PcOf(s, t).service], m) { SendUnlockKeeps(s, t, m); } else { SendQueuedKeeps(s, t, m); }
    case Leave => LeaveKeeps(s, t);
    case Retire(q) => RetireKeeps(s, t, q);
    case MarkRelease => MarkReleaseKeeps(s, t);
  }

  /** No thread works on a queue that is not allocated. */
  lemma NeverDangling(s: State, t: Thread)
    requires Inv(s)
    ensures Touches(s, t)
    ensures PcOf(s, t).Deleting? ==> PcOk(PcOf(s, t), s.boxes[PcOf(s, t).service])
  {
    var pc := PcOf(s, t);
    if !pc.Idle? {
      assert InvQ(s, pc.service);
    }
  }

  lemma StepKeeps(s: State, t: Thread, step: Step)
    requires Inv(s) && Enabled(s, t, step) && Orderly(s, t, step)
    ensures Touches(s, t) && Inv(Apply(s, t, step))
  {
    hide InvQ, Apply, SameFor;
    NeverDangling(s, t);
    forall q
      ensures InvQ(Apply(s, t, step), q)
    {
      if q == Subject(s, t, step) {
        SubjectKeeps(s, t, step);
      } else {
        StepOthers(s, t, step, q);
        assert InvQ(s, q);
        OthersKeep(s, Apply(s, t, step), q);
      }
    }
  }
}
