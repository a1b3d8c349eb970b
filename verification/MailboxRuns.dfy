/**
 Histories of one mailbox: whatever is sent, popped, locked and released in whatever order, ordinary messages come out in
 the order in which they were sent. Only the reply that ends a lock overtakes the messages that wait, and that is the first
 message with the session that was locked.
 */
module MailboxRuns {
  import opened Mailbox

  /** A message and whether it ended a lock when it was sent. */
  datatype Entry = Entry(message: Message, urgent: bool)

  datatype Op = Send(message: Message) | Take | Lock(session: int) | Finish

  /** The box, the entries that wait and that have been popped, the ordinary messages in the order of sending, and how often the queue was scheduled. */
  datatype History = History(box: Box, waiting: seq<Entry>, popped: seq<Entry>, sent: seq<Message>, scheduled: nat)

  function Do(h: History, op: Op): History
  {
    match op
    case Send(m) =>
      var e := PushBox(h.box, m);
      var next := h.(box := e.box, scheduled := Counted(h, e));
      if Unlocks(h.box, m) then next.(waiting := [Entry(m, true)] + h.waiting)
      else next.(waiting := h.waiting + [Entry(m, false)], sent := h.sent + [m])
    case Take =>
      var box := PopBox(h.box);
      if h.waiting == [] then h.(box := box)
      else h.(box := box, waiting := h.waiting[1..], popped := h.popped + [h.waiting[0]])
    case Lock(session) => h.(box := LockBox(h.box, session))
    case Finish => h.(box := PushGlobalBox(h.box).box, scheduled := Counted(h, PushGlobalBox(h.box)))
  }

  function Counted(h: History, e: Effect): nat
  {
    if e.scheduled then h.scheduled + 1 else h.scheduled
  }

  function After(run: seq<Op>): History
  {
    if run == [] then History(NEW_BOX, [], [], [], 0) else Do(After(run[..|run| - 1]), run[|run| - 1])
  }

  function Messages(s: seq<Entry>): (m: seq<Message>)
    ensures |m| == |s|
  {
    seq(|s|, i requires 0 <= i < |s| => s[i].message)
  }

  /** The ordinary messages among the entries, in their order. */
  function Ordinary(s: seq<Entry>): seq<Message>
  {
    if s == [] then [] else (if s[0].urgent then [] else [s[0].message]) + Ordinary(s[1..])
  }

  lemma {:induction false} OrdinaryConcat(a: seq<Entry>, b: seq<Entry>)
    ensures Ordinary(a + b) == Ordinary(a) + Ordinary(b)
  {
    if a == [] {
      assert a + b == b;
    } else {
      assert (a + b)[1..] == a[1..] + b;
      OrdinaryConcat(a[1..], b);
    }
  }

  lemma OrdinaryOne(e: Entry)
    ensures Ordinary([e]) == if e.urgent then [] else [e.message]
  {
    assert [e][1..] == [];
  }

  ghost predicate InOrder(h: History)
  {
    h.box.messages == Messages(h.waiting) && Ordinary(h.popped) + Ordinary(h.waiting) == h.sent
  }

  lemma DoKeeps(h: History, op: Op)
    requires InOrder(h)
    ensures InOrder(Do(h, op))
  {
    hide Ordinary;
    match op
    case Send(m) =>
      var e := Entry(m, Unlocks(h.box, m));
      OrdinaryOne(e);
      OrdinaryConcat([e], h.waiting);
      OrdinaryConcat(h.waiting, [e]);
      assert Messages([e] + h.waiting) == [m] + Messages(h.waiting) && Messages(h.waiting + [e]) == Messages(h.waiting) + [m];
      assert Ordinary(h.popped) + Ordinary(h.waiting) + [m] == Ordinary(h.popped) + (Ordinary(h.waiting) + [m]);
    case Take =>
      if h.waiting != [] {
        TakeKeeps(h);
      }
    case Lock(_) =>
    case Finish =>
  }

  lemma TakeKeeps(h: History)
    requires InOrder(h) && h.waiting != []
    ensures InOrder(Do(h, Take))
  {
    hide Ordinary;
    var e, rest := h.waiting[0], h.waiting[1..];
    assert h.waiting == [e] + rest;
    OrdinaryConcat([e], rest);
    OrdinaryConcat(h.popped, [e]);
    assert Ordinary(h.popped) + (Ordinary([e]) + Ordinary(rest)) == Ordinary(h.popped) + Ordinary([e]) + Ordinary(rest);
    assert Messages(rest) == Messages(h.waiting)[1..];
  }

  lemma {:induction false} RunKeeps(run: seq<Op>)
    ensures InOrder(After(run))
  {
    if run != [] {
      RunKeeps(run[..|run| - 1]);
      DoKeeps(After(run[..|run| - 1]), run[|run| - 1]);
    }
  }

  /** After any run the ordinary messages popped so far are the first ones sent, in their order, and the others wait in that order. */
  lemma FirstInFirstOut(run: seq<Op>)
    ensures var h := After(run); |Ordinary(h.popped)| <= |h.sent| && Ordinary(h.popped) == h.sent[..|Ordinary(h.popped)|]
    ensures var h := After(run); Ordinary(h.waiting) == h.sent[|Ordinary(h.popped)|..] && h.box.messages == Messages(h.waiting)
  {
    hide Ordinary;
    RunKeeps(run);
  }

  /** The reply that ends a lock is popped next, before everything that waits. */
  lemma ReplyOvertakes(run: seq<Op>, m: Message)
    requires Unlocks(After(run).box, m)
    ensures After(run + [Send(m), Take]).popped == After(run).popped + [Entry(m, true)]
    ensures After(run + [Send(m), Take]).waiting == After(run).waiting
  {
    var longer := run + [Send(m), Take];
    assert longer[..|run| + 1] == run + [Send(m)] && (run + [Send(m)])[..|run|] == run;
    assert After(run + [Send(m)]) == Do(After(run), Send(m));
  }

  lemma AfterOne(run: seq<Op>, op: Op)
    ensures After(run + [op]) == Do(After(run), op)
  {
    assert (run + [op])[..|run|] == run;
  }

  // ---------- the session that is locked ----------

  /** Messages of other sessions are sent, and the dispatch that locked may end. */
  ghost predicate Others(mid: seq<Op>, k: int)
  {
    forall i :: 0 <= i < |mid| ==> mid[i] == Finish || (mid[i].Send? && mid[i].message.session != k)
  }

  function SentIn(mid: seq<Op>): seq<Message>
  {
    if mid == [] then [] else
      var last := mid[|mid| - 1];
      SentIn(mid[..|mid| - 1]) + if last.Send? then [last.message] else []
  }

  /**
   From the locking of session k on, whatever messages of other sessions are sent: they go to the back, nothing schedules the queue, and
   the lock stays, also past the end of the dispatch.
   */
  lemma {:induction false} LockStays(run: seq<Op>, k: int, mid: seq<Op>)
    requires k != 0 && After(run).box.lockSession == 0 && After(run).box.mark == InGlobal && Others(mid, k)
    ensures var h, h' := After(run), After(run + [Lock(k)] + mid);
            && h'.box.lockSession == k && h'.box.mark == (if Finish in mid then Locked else Dispatching)
            && h'.box.messages == h.box.messages + SentIn(mid)
            && h'.popped == h.popped && h'.scheduled == h.scheduled
    decreases |mid|
  {
    hide After;
    if mid == [] {
      AfterOne(run, Lock(k));
      assert run + [Lock(k)] + mid == run + [Lock(k)];
    } else {
      var m := |mid| - 1;
      LockStays(run, k, mid[..m]);
      AfterOne(run + [Lock(k)] + mid[..m], mid[m]);
      assert mid == mid[..m] + [mid[m]];
      assert run + [Lock(k)] + mid == run + [Lock(k)] + mid[..m] + [mid[m]];
    }
  }

  /**
   The first message with session k ends the lock: it is the next one popped, before everything that waits. If the dispatch has
   ended by then it schedules the queue, and otherwise the end of the dispatch does.
   */
  lemma ReplyUnlocks(run: seq<Op>, k: int, mid: seq<Op>, reply: Message)
    requires k != 0 && After(run).box.lockSession == 0 && After(run).box.mark == InGlobal && Others(mid, k) && reply.session == k
    ensures var h, h1 := After(run), After(run + [Lock(k)] + mid + [Send(reply)]);
            && h1.box.lockSession == 0 && h1.box.messages == [reply] + h.box.messages + SentIn(mid) && h1.popped == h.popped
            && (Finish in mid ==> h1.box.mark == InGlobal && h1.scheduled == h.scheduled + 1)
            && (Finish !in mid ==> h1.box.mark == Dispatching && h1.scheduled == h.scheduled)
    ensures After(run + [Lock(k)] + mid + [Send(reply)] + [Take]).popped == After(run).popped + [Entry(reply, true)]
    ensures After(run + [Lock(k)] + mid + [Send(reply)] + [Take]).box.messages == After(run).box.messages + SentIn(mid)
    ensures Finish !in mid ==>
              var h2 := After(run + [Lock(k)] + mid + [Send(reply)] + [Finish]);
              h2.box.mark == InGlobal && h2.scheduled == After(run).scheduled + 1
  {
    hide After;
    var all := run + [Lock(k)] + mid;
    LockStays(run, k, mid);
    AfterOne(all, Send(reply));
    AfterOne(all + [Send(reply)], Take);
    AfterOne(all + [Send(reply)], Finish);
    var h := After(run);
    assert [reply] + (h.box.messages + SentIn(mid)) == [reply] + h.box.messages + SentIn(mid);
  }
}
