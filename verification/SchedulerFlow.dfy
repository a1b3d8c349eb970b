/**
 What the scheduling protocol does with the messages and the context of one service: messages are dispatched as its mailbox
 gives them out, and a context that nothing refers to is deleted.
 */
module SchedulerFlow {
  import opened Mailbox
  import opened Scheduler
  import opened SchedulerSteps
  import opened SchedulerRuns
  import MailboxRuns

  // ---------- messages ----------

  /** What an action does to the mailbox of q: which function of the queue it calls. */
  function OpOf(p: State, a: Action, q: Service): seq<MailboxRuns.Op>
  {
    if !About(PcOf(p, a.thread), q) then []
    else match a.step
      case SendPush(m) => [MailboxRuns.Send(m)]
      case PopMessage => [MailboxRuns.Take]
      case LockSession(session) => [MailboxRuns.Lock(session)]
      case PushGlobal => [MailboxRuns.Finish]
      case _ => []
  }

  /** s is reached by the run, in which the calls on the mailbox of q are ops. */
  ghost predicate Calls(s: State, run: seq<Action>, q: Service, ops: seq<MailboxRuns.Op>)
    decreases |run|
  {
    if run == [] then s == START && ops == [] else
      var k := |run| - 1;
      exists p: State, before: seq<MailboxRuns.Op> :: Calls(p, run[..k], q, before) && Follows(p, run[k], s) && ops == before + OpOf(p, run[k], q)
  }

  ghost predicate Follows(p: State, a: Action, s: State)
  {
    Enabled(p, a.thread, a.step) && Touches(p, a.thread) && Orderly(p, a.thread, a.step) && s == Apply(p, a.thread, a.step)
  }

  /** Every run has its calls. */
  lemma {:induction false} RunCalls(s: State, run: seq<Action>, q: Service) returns (ops: seq<MailboxRuns.Op>)
    requires Reached(s, run, true)
    ensures Calls(s, run, q, ops)
    decreases |run|
  {
    if run == [] {
      return [];
    }
    hide Apply, Enabled, OpOf;
    var k := |run| - 1;
    var p: State :| Reached(p, run[..k], true) && Enabled(p, run[k].thread, run[k].step) && Touches(p, run[k].thread)
                    && Orderly(p, run[k].thread, run[k].step) && s == Apply(p, run[k].thread, run[k].step);
    var before := RunCalls(p, run[..k], q);
    assert Follows(p, run[k], s);
    ops := before + OpOf(p, run[k], q);
  }

  lemma {:induction false} CallsReached(s: State, run: seq<Action>, q: Service, ops: seq<MailboxRuns.Op>)
    requires Calls(s, run, q, ops)
    ensures Reached(s, run, true)
    decreases |run|
  {
    if run != [] {
      hide Apply, Enabled, OpOf;
      var k := |run| - 1;
      var p: State, before: seq<MailboxRuns.Op> :| Calls(p, run[..k], q, before) && Follows(p, run[k], s) && ops == before + OpOf(p, run[k], q);
      CallsReached(p, run[..k], q, before);
    }
  }

  /** The box of q as its mailbox has it; a mailbox history does not release. */
  ghost predicate Agrees(s: State, q: Service, ops: seq<MailboxRuns.Op>)
  {
    if q in s.boxes then s.boxes[q].(release := false) == MailboxRuns.After(ops).box
    else q in s.freed || ops == []
  }

  /** One call, or none, on a box that no thread has marked. */
  function Called(b: Box, ops: seq<MailboxRuns.Op>): Box
    requires |ops| <= 1
  {
    if ops == [] then b else MailboxRuns.Do(MailboxRuns.History(b, [], [], [], 0), ops[0]).box
  }

  lemma CalledNext(before: seq<MailboxRuns.Op>, ops: seq<MailboxRuns.Op>)
    requires |ops| <= 1
    ensures MailboxRuns.After(before + ops).box == Called(MailboxRuns.After(before).box, ops)
  {
    if ops == [] {
      assert before + ops == before;
    } else {
      assert ops == [ops[0]];
      MailboxRuns.AfterOne(before, ops[0]);
    }
  }

  lemma StepFunction(s: State, t: Thread, step: Step, q: Service)
    requires Enabled(s, t, step) && Touches(s, t) && q in s.boxes && q in Apply(s, t, step).boxes
    ensures var b, b' := s.boxes[q], Apply(s, t, step).boxes[q];
            if !About(PcOf(s, t), q) then b' == b
            else match step
              case SendPush(m) => b' == PushBox(b, m).box
              case PopMessage => b' == PopBox(b)
              case LockSession(session) => b' == LockBox(b, session)
              case PushGlobal => b' == PushGlobalBox(b).box
              case MarkRelease => b' == MarkReleaseBox(b).box
              case _ => b' == b
  {
    hide LastRef, PushBox, PopBox, LockBox, PushGlobalBox, MarkReleaseBox, Unlocks;
  }

  /** A step does to the box of a service that stays allocated what the call says, and marks it at most. */
  lemma StepBox(s: State, a: Action, q: Service)
    requires Enabled(s, a.thread, a.step) && Touches(s, a.thread) && q in s.boxes && q in Apply(s, a.thread, a.step).boxes
    ensures |OpOf(s, a, q)| <= 1
    ensures Apply(s, a.thread, a.step).boxes[q].(release := false) == Called(s.boxes[q].(release := false), OpOf(s, a, q))
  {
    hide Apply, Enabled;
    StepFunction(s, a.thread, a.step, q);
  }

  /** A service is created with a new box, and what is no longer allocated has been freed. */
  lemma StepAllocated(s: State, t: Thread, step: Step, q: Service)
    requires Inv(s) && Enabled(s, t, step) && Touches(s, t)
    ensures var s' := Apply(s, t, step);
            && (q in s.freed ==> q in s'.freed) && (q in s.boxes && q !in s'.boxes ==> q in s'.freed)
            && (q !in s.boxes && q in s'.boxes ==> s'.boxes[q] == NEW_BOX)
            && (q !in s.boxes && q !in s.freed ==> !About(PcOf(s, t), q))
  {
    hide LastRef, PushBox, PopBox, LockBox, PushGlobalBox, MarkReleaseBox;
    assert InvQ(s, q);
    hide InvQ;
  }

  lemma StepAgrees(s: State, a: Action, q: Service, before: seq<MailboxRuns.Op>)
    requires Inv(s) && Agrees(s, q, before) && Enabled(s, a.thread, a.step) && Touches(s, a.thread)
    ensures Agrees(Apply(s, a.thread, a.step), q, before + OpOf(s, a, q))
  {
    hide Apply, Enabled, Inv, Called;
    StepAllocated(s, a.thread, a.step, q);
    var s' := Apply(s, a.thread, a.step);
    if q in s'.boxes && q in s.boxes {
      StepBox(s, a, q);
      CalledNext(before, OpOf(s, a, q));
    } else if q !in s.boxes && q !in s.freed {
      assert before + OpOf(s, a, q) == [];
    } else if q !in s.boxes {
      FreedStays(s, a, q);
    }
  }

  lemma FreedStays(s: State, a: Action, q: Service)
    requires q !in s.boxes && q in s.freed && Enabled(s, a.thread, a.step) && Touches(s, a.thread)
    ensures q !in Apply(s, a.thread, a.step).boxes && q in Apply(s, a.thread, a.step).freed
  {
    hide LastRef, PushBox, PopBox, LockBox, PushGlobalBox, MarkReleaseBox;
  }

  /** In every run the queue of an allocated service is its mailbox after the calls of the run. */
  lemma {:induction false} BoxAfterCalls(s: State, run: seq<Action>, q: Service, ops: seq<MailboxRuns.Op>)
    requires Calls(s, run, q, ops)
    ensures Agrees(s, q, ops)
    decreases |run|
  {
    if run != [] {
      hide Apply, Enabled, OpOf, Agrees;
      var k := |run| - 1;
      var p: State, before: seq<MailboxRuns.Op> :| Calls(p, run[..k], q, before) && Follows(p, run[k], s) && ops == before + OpOf(p, run[k], q);
      BoxAfterCalls(p, run[..k], q, before);
      CallsReached(p, run[..k], q, before);
      RunKeeps(p, run[..k]);
      StepAgrees(p, run[k], q, before);
    }
  }

  /**
   So in every run, whatever threads send and dispatch: of the ordinary messages sent to a service those that workers have taken
   are the first ones, in the order of sending, and the others wait in its queue in that order.
   */
  lemma DispatchedInOrder(s: State, run: seq<Action>, q: Service, ops: seq<MailboxRuns.Op>)
    requires Calls(s, run, q, ops) && q in s.boxes
    ensures var h := MailboxRuns.After(ops);
            && s.boxes[q].messages == MailboxRuns.Messages(h.waiting)
            && MailboxRuns.Ordinary(h.popped) + MailboxRuns.Ordinary(h.waiting) == h.sent
  {
    hide Calls;
    BoxAfterCalls(s, run, q, ops);
    MailboxRuns.RunKeeps(ops);
  }

  // ---------- contexts ----------

  /** A context that is not in the table and that no thread refers to is deleted, or a thread is about to delete it. */
  ghost predicate Disposed(s: State, q: Service)
  {
    q in s.boxes && q !in s.table && (forall t :: !HasRef(PcOf(s, t), q)) ==>
      s.boxes[q].release || exists t :: PcOf(s, t).Deleting? && About(PcOf(s, t), q)
  }

  lemma OthersDisposed(s: State, s': State, q: Service)
    requires Disposed(s, q) && SameFor(s, s', q)
    ensures Disposed(s', q)
  {
  }

  /** The references of other threads, and the contexts they are about to delete, stay. */
  ghost predicate Others(s: State, s': State, t: Thread)
  {
    forall u :: u != t ==> PcOf(s', u) == PcOf(s, u)
  }

  lemma TakeOver(s: State, s': State, t: Thread, q: Service)
    requires Disposed(s, q) && Others(s, s', t)
    requires q in s'.boxes ==> q in s.boxes && s'.boxes[q].release == s.boxes[q].release && (q in s.table ==> q in s'.table)
    requires HasRef(PcOf(s, t), q) ==> HasRef(PcOf(s', t), q)
    requires !(PcOf(s, t).Deleting? && About(PcOf(s, t), q))
    ensures Disposed(s', q)
  {
    if q in s'.boxes && q !in s'.table && (forall u :: !HasRef(PcOf(s', u), q)) && !s'.boxes[q].release {
      assert forall u :: u != t ==> !HasRef(PcOf(s, u), q);
      var u :| PcOf(s, u).Deleting? && About(PcOf(s, u), q);
      assert PcOf(s', u) == PcOf(s, u);
    }
  }

  /** Whoever drops a reference, or takes the context out of the table, deletes it if nothing else refers to it. */
  lemma DropDisposes(s: State, t: Thread, q: Service, next: Pc)
    requires !next.Idle? ==> next.service == q
    requires !next.Deleting? && !HasRef(next, q)
    ensures Disposed(Release(s, t, q, next), q)
  {
    var s' := Release(s, t, q, next);
    assert PcOf(s', t) == s'.threads[t] && Others(s, s', t);
    if LastRef(s, t, q) {
      assert PcOf(s', t).Deleting?;
    } else if q !in s.table {
      var u :| u in s.threads && u != t && HasRef(s.threads[u], q);
      assert HasRef(PcOf(s', u), q);
    }
  }

  /** The steps that drop a reference or take the context out of the table. */
  predicate Drops(step: Step)
  {
    step.InitSucceeds? || step.InitFails? || step.RetireFailed? || step.Finish? || step.Leave? || step.Retire?
  }

  lemma StepHolds(s: State, t: Thread, step: Step)
    requires Enabled(s, t, step) && Touches(s, t) && !Drops(step) && !step.Create? && !step.MarkRelease?
    ensures var s', q := Apply(s, t, step), Subject(s, t, step);
            && Others(s, s', t)
            && (q in s'.boxes ==> q in s.boxes && s'.boxes[q].release == s.boxes[q].release && (q in s.table ==> q in s'.table))
            && (HasRef(PcOf(s, t), q) ==> HasRef(PcOf(s', t), q)) && !PcOf(s, t).Deleting?
  {
    hide LastRef, Unlocks;
    var s' := Apply(s, t, step);
    assert PcOf(s', t) == s'.threads[t];
  }

  lemma StepDrops(s: State, t: Thread, step: Step) returns (table: set<Service>, next: Pc)
    requires Enabled(s, t, step) && Touches(s, t) && Drops(step) && !step.InitSucceeds?
    ensures var q := Subject(s, t, step);
            && (next.Idle? || next.service == q) && !next.Deleting? && !HasRef(next, q)
            && (Apply(s, t, step) == Release(s.(table := table), t, q, next) || (step.RetireFailed? && Apply(s, t, step) == Put(s, t, Failed(q))))
  {
    hide LastRef, Release;
    var q := Subject(s, t, step);
    next := match step
      case InitFails => Failing(q)
      case RetireFailed => Failed(q)
      case Finish => Finished(q)
      case _ => Idle;
    table := if step.Retire? || step.RetireFailed? then s.table - {q} else s.table;
    assert s.(table := s.table) == s;
  }

  lemma SubjectDisposed(s: State, t: Thread, step: Step)
    requires Enabled(s, t, step) && Touches(s, t) && Disposed(s, Subject(s, t, step))
    ensures Disposed(Apply(s, t, step), Subject(s, t, step))
  {
    hide Apply, Disposed, Release;
    var s', q := Apply(s, t, step), Subject(s, t, step);
    if step.Create? || step.MarkRelease? || step.InitSucceeds? {
      EndsDisposed(s, t, step);
    } else if Drops(step) {
      var table, next := StepDrops(s, t, step);
      if step.RetireFailed? && s' == Put(s, t, Failed(q)) {
        FailedDisposed(s, t);
      } else {
        DropDisposes(s.(table := table), t, q, next);
      }
    } else {
      StepHolds(s, t, step);
      TakeOver(s, s', t, q);
    }
  }

  lemma FailedDisposed(s: State, t: Thread)
    requires Enabled(s, t, RetireFailed) && Touches(s, t) && Disposed(s, PcOf(s, t).service)
    ensures Disposed(Put(s, t, Failed(PcOf(s, t).service)), PcOf(s, t).service) && Subject(s, t, RetireFailed) == PcOf(s, t).service
  {
    TakeOver(s, Put(s, t, Failed(PcOf(s, t).service)), t, PcOf(s, t).service);
  }

  lemma EndsDisposed(s: State, t: Thread, step: Step)
    requires Enabled(s, t, step) && Touches(s, t) && (step.Create? || step.MarkRelease? || step.InitSucceeds?)
    ensures Disposed(Apply(s, t, step), Subject(s, t, step))
  {
    var s', q := Apply(s, t, step), Subject(s, t, step);
    assert PcOf(s', t) == s'.threads[t];
    if step.InitSucceeds? && !LastRef(s, t, q) && q !in s.table {
      var u :| u in s.threads && u != t && HasRef(s.threads[u], q);
      assert HasRef(PcOf(s', u), q);
    }
  }

  /**
   In every run: a context that is out of the table and that no thread refers to is not forgotten. Its queue is marked for release, or a
   thread is on its way to mark it.
   */
  lemma {:induction false} NothingForgotten(s: State, run: seq<Action>, q: Service)
    requires Reached(s, run, true)
    ensures q in s.boxes && q !in s.table && (forall t :: !HasRef(PcOf(s, t), q)) ==>
              s.boxes[q].release || exists t :: PcOf(s, t).Deleting? && PcOf(s, t).service == q
    decreases |run|
  {
    if run != [] {
      hide Apply, Enabled, InvQ, SameFor;
      var k := |run| - 1;
      var a := run[k];
      var p: State :| Reached(p, run[..k], true) && Enabled(p, a.thread, a.step) && Touches(p, a.thread)
                      && Orderly(p, a.thread, a.step) && s == Apply(p, a.thread, a.step);
      NothingForgotten(p, run[..k], q);
      RunKeeps(p, run[..k]);
      NeverDangling(p, a.thread);
      if q == Subject(p, a.thread, a.step) {
        SubjectDisposed(p, a.thread, a.step);
      } else {
        StepOthers(p, a.thread, a.step, q);
        OthersDisposed(p, s, q);
      }
    }
  }

  /** Services come into the table by their creation and leave it when they are retired, or their launch fails, and in no other way. */
  lemma TableExact(s: State, t: Thread, step: Step, q: Service)
    requires Enabled(s, t, step) && Touches(s, t)
    ensures q in Apply(s, t, step).table <==>
              step == Create(q) || (q in s.table && step != Retire(q) && !(step.RetireFailed? && About(PcOf(s, t), q)))
    ensures q in Apply(s, t, step).inited <==> q in s.inited || (step.SetInit? && About(PcOf(s, t), q))
  {
    hide LastRef, PushBox, PopBox, LockBox, PushGlobalBox, MarkReleaseBox, Unlocks;
  }

  // ---------- rounds ----------

  /** The state after a step of t that is enabled and touches allocated queues only. */
  ghost predicate Goes(s: State, t: Thread, step: Step, s': State)
  {
    Enabled(s, t, step) && Touches(s, t) && s' == Apply(s, t, step)
  }

  lemma TakesQueue(s: State, t: Thread)
    requires PcOf(s, t).Idle? && s.global != [] && s.global[0] in s.boxes && s.global[0] in s.table
    ensures var q := s.global[0];
            var s1 := Put(s, t, Got(q)).(global := s.global[1..]);
            Goes(s, t, PopGlobal, s1) && Goes(s1, t, Grab, Put(s1, t, Grabbed(q)))
  {
  }

  lemma RunsCallback(s: State, t: Thread, q: Service)
    requires PcOf(s, t) == Grabbed(q) && q in s.boxes && q in s.table && s.boxes[q].messages != [] && s.boxes[q].mark == InGlobal && s.boxes[q].lockSession == 0
    ensures var taken := s.(boxes := s.boxes[q := s.boxes[q].(messages := s.boxes[q].messages[1..])], awaited := s.awaited - {q});
            && Goes(s, t, PopMessage, Put(taken, t, Running(q, false)))
            && Goes(Put(taken, t, Running(q, false)), t, Finish, Put(taken, t, Finished(q)))
            && Goes(Put(taken, t, Finished(q)), t, PushGlobal, Put(taken, t, Idle).(global := s.global + [q]))
  {
    var b := s.boxes[q];
    var taken := s.(boxes := s.boxes[q := b.(messages := b.messages[1..])], awaited := s.awaited - {q});
    var s1, s2 := Put(taken, t, Running(q, false)), Put(taken, t, Finished(q));
    assert Goes(s, t, PopMessage, s1);
    assert s1.threads[t := Finished(q)] == s2.threads;
    assert Goes(s1, t, Finish, s2);
    assert s2.boxes[q := s2.boxes[q]] == s2.boxes && s2.threads[t := Idle] == s.threads[t := Idle];
  }

  /**
   A worker that finds a live service with messages at the head of the global queue can run it: the steps in a row take
   the first message, run the callback with it, and put the service at the end of the global queue, all else being as before.
   */
  lemma DispatchRound(s: State, run: seq<Action>, t: Thread) returns (s1: State, s2: State, s3: State, s4: State, s5: State)
    requires Reached(s, run, true) && PcOf(s, t).Idle? && s.global != [] && s.global[0] in s.table
    ensures s.global[0] in s.boxes
    requires s.global[0] in s.boxes ==> s.boxes[s.global[0]].messages != []
    ensures Goes(s, t, PopGlobal, s1) && Goes(s1, t, Grab, s2) && Goes(s2, t, PopMessage, s3) && Goes(s3, t, Finish, s4) && Goes(s4, t, PushGlobal, s5)
    ensures var q := s.global[0];
            && PcOf(s3, t) == Running(q, false)
            && s5 == s.(threads := s.threads[t := Idle], global := s.global[1..] + [q], awaited := s.awaited - {q},
                        boxes := s.boxes[q := s.boxes[q].(messages := s.boxes[q].messages[1..])])
  {
    hide Goes, Reached;
    RunKeeps(s, run);
    HeadReady(s);
    var q := s.global[0];
    TakesQueue(s, t);
    s1 := Put(s, t, Got(q)).(global := s.global[1..]);
    s2 := Put(s1, t, Grabbed(q));
    RunsCallback(s2, t, q);
    var taken := s2.(boxes := s.boxes[q := s.boxes[q].(messages := s.boxes[q].messages[1..])], awaited := s.awaited - {q});
    s3, s4 := Put(taken, t, Running(q, false)), Put(taken, t, Finished(q));
    s5 := Put(taken, t, Idle).(global := s2.global + [q]);
    assert s5.threads == s.threads[t := Idle];
  }

  lemma HeadReady(s: State)
    requires Inv(s) && s.global != [] && s.global[0] in s.table
    ensures var q := s.global[0]; q in s.boxes && s.boxes[q].mark == InGlobal && s.boxes[q].lockSession == 0
  {
    assert InvQ(s, s.global[0]);
  }

  /** The service with one more message. */
  function WithMessage(s: State, q: Service, m: Message): State
    requires q in s.boxes
  {
    var b := s.boxes[q];
    s.(boxes := s.boxes[q := b.(messages := b.messages + [m], mark := if b.mark == Unscheduled then InGlobal else b.mark)],
       global := if b.mark == Unscheduled then s.global + [q] else s.global)
  }

  lemma Sends(s: State, t: Thread, q: Service, m: Message)
    requires q in s.boxes && s.boxes[q].lockSession == 0
    ensures Goes(Put(s, t, Sending(q)), t, SendPush(m), Put(WithMessage(s, q, m), t, Leaving(q)))
  {
    assert s.threads[t := Sending(q)][t := Leaving(q)] == s.threads[t := Leaving(q)];
  }

  lemma Leaves(s: State, t: Thread, q: Service)
    requires q in s.boxes && q in s.table
    ensures Goes(Put(s, t, Leaving(q)), t, Leave, Put(s, t, Idle))
  {
    assert s.threads[t := Leaving(q)][t := Idle] == s.threads[t := Idle];
  }

  /** A thread that sends an ordinary message to a live service: it is the last in the queue, which is in the global queue afterwards if it was idle. */
  lemma SendRound(s: State, t: Thread, q: Service, m: Message) returns (s1: State, s2: State, s3: State)
    requires PcOf(s, t).Idle? && q in s.table && q in s.boxes && s.boxes[q].lockSession == 0
    ensures Goes(s, t, SendGrab(q), s1) && Goes(s1, t, SendPush(m), s2) && Goes(s2, t, Leave, s3)
    ensures var b := s.boxes[q];
            s3 == s.(threads := s.threads[t := Idle],
                     boxes := s.boxes[q := b.(messages := b.messages + [m], mark := if b.mark == Unscheduled then InGlobal else b.mark)],
                     global := if b.mark == Unscheduled then s.global + [q] else s.global)
  {
    s1 := Put(s, t, Sending(q));
    assert Goes(s, t, SendGrab(q), s1);
    hide Goes;
    Sends(s, t, q, m);
    Leaves(WithMessage(s, q, m), t, q);
    s2, s3 := Put(WithMessage(s, q, m), t, Leaving(q)), Put(WithMessage(s, q, m), t, Idle);
  }

  /** No thread other than t has anything to do with q. */
  ghost predicate Untouched(s: State, t: Thread, q: Service)
  {
    forall u :: u != t ==> !About(PcOf(s, u), q)
  }

  lemma LastDrop(s: State, t: Thread, q: Service, pc: Pc, next: Pc)
    requires Untouched(s, t, q) && q !in s.table
    ensures Release(Put(s, t, pc), t, q, next) == Put(s, t, Deleting(q, next))
  {
    assert s.threads[t := pc][t := Deleting(q, next)] == s.threads[t := Deleting(q, next)];
    assert forall u :: u in s.threads && u != t ==> PcOf(s, u) == s.threads[u];
  }

  /** Deleting the context and releasing the queue, by the thread that is about to do both. */
  lemma FailsToEnd(s: State, t: Thread, q: Service)
    requires PcOf(s, t) == Deleting(q, Failed(q)) && q in s.boxes && s.boxes[q].mark == InGlobal
    ensures var s1 := Put(s, t, Failed(q)).(boxes := s.boxes[q := s.boxes[q].(release := true)]);
            && Goes(s, t, MarkRelease, s1)
            && Goes(s1, t, ReleaseFailed, Put(s, t, Idle).(boxes := s.boxes - {q}, freed := s.freed + {q}, awaited := s.awaited - {q}))
  {
    var s1 := Put(s, t, Failed(q)).(boxes := s.boxes[q := s.boxes[q].(release := true)]);
    assert s1.boxes - {q} == s.boxes - {q};
    assert s1.threads[t := Idle] == s.threads[t := Idle];
  }

  lemma FailsToStart(s: State, t: Thread, q: Service)
    requires PcOf(s, t).Idle? && q !in s.boxes && q !in s.freed && q !in s.table && Untouched(s, t, q)
    ensures var made := s.(boxes := s.boxes[q := NEW_BOX]);
            var s1, s2 := Put(made, t, Creating(q)).(table := s.table + {q}), Put(made, t, Failing(q)).(table := s.table + {q});
            && Goes(s, t, Create(q), s1) && Goes(s1, t, InitFails, s2) && Goes(s2, t, RetireFailed, Put(made, t, Deleting(q, Failed(q))))
  {
    var made := s.(boxes := s.boxes[q := NEW_BOX]);
    var s1, s2 := Put(made, t, Creating(q)).(table := s.table + {q}), Put(made, t, Failing(q)).(table := s.table + {q});
    assert s1.threads[t := Failing(q)] == s2.threads;
    assert Goes(s, t, Create(q), s1) && Goes(s1, t, InitFails, s2);
    assert s2.table - {q} == s.table;
    assert forall u :: PcOf(made, u) == PcOf(s, u);
    LastDrop(made, t, q, Failing(q), Failed(q));
    assert s2.(table := s2.table - {q}) == Put(made, t, Failing(q));
  }

  /** In every run a launch that fails leaves nothing behind, if no other thread has looked the context up meanwhile. */
  lemma FailedLaunch(s: State, run: seq<Action>, t: Thread, q: Service) returns (s1: State, s2: State, s3: State, s4: State, s5: State)
    requires Reached(s, run, true) && PcOf(s, t).Idle? && q !in s.boxes && q !in s.freed
    ensures Goes(s, t, Create(q), s1) && Goes(s1, t, InitFails, s2) && Goes(s2, t, RetireFailed, s3) && Goes(s3, t, MarkRelease, s4) && Goes(s4, t, ReleaseFailed, s5)
    ensures s5 == s.(threads := s.threads[t := Idle], freed := s.freed + {q})
  {
    hide Goes, Reached, Apply;
    RunKeeps(s, run);
    NotYet(s, q);
    FailsToStart(s, t, q);
    var made := s.(boxes := s.boxes[q := NEW_BOX]);
    s1, s2, s3 := Put(made, t, Creating(q)).(table := s.table + {q}), Put(made, t, Failing(q)).(table := s.table + {q}), Put(made, t, Deleting(q, Failed(q)));
    FailsToEnd(s3, t, q);
    s4 := Put(s3, t, Failed(q)).(boxes := s3.boxes[q := s3.boxes[q].(release := true)]);
    s5 := Put(s3, t, Idle).(boxes := s3.boxes - {q}, freed := s3.freed + {q}, awaited := s3.awaited - {q});
    assert s3.boxes - {q} == s.boxes && s3.awaited - {q} == s.awaited && s5.threads == s.threads[t := Idle];
  }

  lemma Made(s: State, t: Thread, q: Service)
    requires PcOf(s, t).Idle? && q !in s.boxes && q !in s.freed
    ensures var made := s.(boxes := s.boxes[q := NEW_BOX], table := s.table + {q});
            Goes(s, t, Create(q), Put(made, t, Creating(q))) && Goes(Put(made, t, Creating(q)), t, InitSucceeds, Put(made, t, Launching(q)))
  {
    var made := s.(boxes := s.boxes[q := NEW_BOX], table := s.table + {q});
    assert Goes(s, t, Create(q), Put(made, t, Creating(q)));
    assert s.threads[t := Creating(q)][t := Launching(q)] == s.threads[t := Launching(q)];
  }

  lemma Ready(s: State, t: Thread, q: Service)
    requires q in s.boxes
    ensures var ready := s.(inited := s.inited + {q});
            && Goes(Put(s, t, Launching(q)), t, SetInit, Put(ready, t, Launched(q)))
            && Goes(Put(ready, t, Launched(q)), t, ForcePush, Put(ready, t, Idle).(global := s.global + [q]))
  {
    var ready := s.(inited := s.inited + {q});
    assert s.threads[t := Launching(q)][t := Launched(q)] == s.threads[t := Launched(q)];
    assert Goes(Put(s, t, Launching(q)), t, SetInit, Put(ready, t, Launched(q)));
    assert s.threads[t := Launched(q)][t := Idle] == s.threads[t := Idle];
  }

  /** In every run a launch that succeeds makes a live service with an empty queue, at the end of the global queue. */
  lemma Launch(s: State, run: seq<Action>, t: Thread, q: Service) returns (s1: State, s2: State, s3: State, s4: State)
    requires Reached(s, run, true) && PcOf(s, t).Idle? && q !in s.boxes && q !in s.freed
    ensures Goes(s, t, Create(q), s1) && Goes(s1, t, InitSucceeds, s2) && Goes(s2, t, SetInit, s3) && Goes(s3, t, ForcePush, s4)
    ensures s4 == s.(threads := s.threads[t := Idle], boxes := s.boxes[q := NEW_BOX], table := s.table + {q}, inited := s.inited + {q}, global := s.global + [q])
  {
    hide Goes, Reached;
    var made := s.(boxes := s.boxes[q := NEW_BOX], table := s.table + {q});
    var ready := made.(inited := s.inited + {q});
    Made(s, t, q);
    Ready(made, t, q);
    s1, s2, s3, s4 := Put(made, t, Creating(q)), Put(made, t, Launching(q)), Put(ready, t, Launched(q)), Put(ready, t, Idle).(global := s.global + [q]);
  }

  lemma NotYet(s: State, q: Service)
    requires Inv(s) && q !in s.boxes
    ensures q !in s.table && q !in s.awaited && forall t :: Untouched(s, t, q)
  {
    assert InvQ(s, q);
  }

  // ---------- the reply that ends a lock ----------

  /** The reply that is awaited is the first message that waits, and that only. */
  ghost predicate Awaits(s: State, q: Service, h: MailboxRuns.History)
  {
    && (q in s.awaited <==> h.waiting != [] && h.waiting[0].urgent)
    && (q in s.awaited ==> s.awaited[q] == h.waiting[0].message)
    && (forall i :: 1 <= i < |h.waiting| ==> !h.waiting[i].urgent)
  }

  lemma StepAwaited(s: State, t: Thread, step: Step, q: Service)
    requires Enabled(s, t, step) && Touches(s, t) && q in s.boxes && q in Apply(s, t, step).boxes
    ensures var s' := Apply(s, t, step);
            if About(PcOf(s, t), q) && step.PopMessage? then q !in s'.awaited
            else if About(PcOf(s, t), q) && step.SendPush? && Unlocks(s.boxes[q], step.m) then q in s'.awaited && s'.awaited[q] == step.m
            else (q in s'.awaited <==> q in s.awaited) && (q in s.awaited ==> s'.awaited[q] == s.awaited[q])
  {
    hide LastRef, PushBox, PopBox, LockBox, PushGlobalBox, MarkReleaseBox, Unlocks;
  }

  lemma CallAwaits(s: State, s': State, a: Action, q: Service, h: MailboxRuns.History)
    requires q in s.boxes && q in s'.boxes && Awaits(s, q, h) && h.box == s.boxes[q].(release := false) && (q in s.awaited ==> s.boxes[q].lockSession == 0)
    requires MailboxRuns.InOrder(h) && |OpOf(s, a, q)| == 1
    requires var t, step := a.thread, a.step;
             if About(PcOf(s, t), q) && step.PopMessage? then q !in s'.awaited
             else if About(PcOf(s, t), q) && step.SendPush? && Unlocks(s.boxes[q], step.m) then q in s'.awaited && s'.awaited[q] == step.m
             else (q in s'.awaited <==> q in s.awaited) && (q in s.awaited ==> s'.awaited[q] == s.awaited[q])
    ensures Awaits(s', q, MailboxRuns.Do(h, OpOf(s, a, q)[0]))
  {
    hide PushBox, PopBox, LockBox, PushGlobalBox;
  }

  lemma NoCallAwaits(s: State, s': State, q: Service, h: MailboxRuns.History)
    requires Awaits(s, q, h) && (q in s'.awaited <==> q in s.awaited) && (q in s.awaited ==> s'.awaited[q] == s.awaited[q])
    ensures Awaits(s', q, h)
  {
  }

  lemma StepAwaits(s: State, a: Action, q: Service, before: seq<MailboxRuns.Op>)
    requires Inv(s) && Agrees(s, q, before) && Enabled(s, a.thread, a.step) && Touches(s, a.thread)
    requires q in s.boxes ==> Awaits(s, q, MailboxRuns.After(before))
    ensures q in Apply(s, a.thread, a.step).boxes ==> Awaits(Apply(s, a.thread, a.step), q, MailboxRuns.After(before + OpOf(s, a, q)))
  {
    hide Apply, Enabled, Inv, Awaits, Called, MailboxRuns.Do;
    var s' := Apply(s, a.thread, a.step);
    if q in s'.boxes {
      StepAllocated(s, a.thread, a.step, q);
      if q in s.boxes {
        StepAwaited(s, a.thread, a.step, q);
        MailboxRuns.RunKeeps(before);
        AwaitedUnlocked(s, q);
        if OpOf(s, a, q) == [] {
          assert before + [] == before;
          NoCallAwaits(s, s', q, MailboxRuns.After(before));
        } else {
          StepBox(s, a, q);
          assert OpOf(s, a, q) == [OpOf(s, a, q)[0]];
          MailboxRuns.AfterOne(before, OpOf(s, a, q)[0]);
          CallAwaits(s, s', a, q, MailboxRuns.After(before));
        }
      } else {
        FreshAwaits(s, a, q, before);
      }
    }
  }

  lemma AwaitedUnlocked(s: State, q: Service)
    requires Inv(s) && q in s.boxes
    ensures q in s.awaited ==> s.boxes[q].lockSession == 0
  {
    assert InvQ(s, q);
  }

  lemma FreshAwaits(s: State, a: Action, q: Service, before: seq<MailboxRuns.Op>)
    requires Inv(s) && Agrees(s, q, before) && Enabled(s, a.thread, a.step) && Touches(s, a.thread) && q !in s.boxes && q in Apply(s, a.thread, a.step).boxes
    ensures Awaits(Apply(s, a.thread, a.step), q, MailboxRuns.After(before + OpOf(s, a, q)))
  {
    hide LastRef, PushBox, PopBox, LockBox, PushGlobalBox, MarkReleaseBox;
    assert InvQ(s, q);
    hide InvQ;
    assert before + OpOf(s, a, q) == [];
  }

  /** In every run a reply is awaited exactly if it ended a lock and has not been popped, and then it is the first message that waits. */
  lemma {:induction false} AwaitedIsUrgent(s: State, run: seq<Action>, q: Service, ops: seq<MailboxRuns.Op>)
    requires Calls(s, run, q, ops) && q in s.boxes
    ensures var h := MailboxRuns.After(ops);
            && (q in s.awaited <==> h.waiting != [] && h.waiting[0].urgent) && (q in s.awaited ==> s.awaited[q] == h.waiting[0].message)
    decreases |run|
  {
    hide Calls;
    AwaitsAfter(s, run, q, ops);
  }

  lemma {:induction false} AwaitsAfter(s: State, run: seq<Action>, q: Service, ops: seq<MailboxRuns.Op>)
    requires Calls(s, run, q, ops) && q in s.boxes
    ensures Awaits(s, q, MailboxRuns.After(ops))
    decreases |run|
  {
    if run != [] {
      hide Apply, Enabled, OpOf, Agrees, Awaits;
      var k := |run| - 1;
      var p: State, before: seq<MailboxRuns.Op> :| Calls(p, run[..k], q, before) && Follows(p, run[k], s) && ops == before + OpOf(p, run[k], q);
      BoxAfterCalls(p, run[..k], q, before);
      CallsReached(p, run[..k], q, before);
      RunKeeps(p, run[..k]);
      if q in p.boxes {
        AwaitsAfter(p, run[..k], q, before);
      }
      StepAwaits(p, run[k], q, before);
    }
  }
}
