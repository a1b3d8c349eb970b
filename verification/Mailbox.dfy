/**
 The message queue of one service. `Box` is its abstract value: the messages in order and the
 scheduling fields. The class keeps the circular array; every method is proved to do to the box
 what the box functions say, whatever the wrap-around and however often the array is regrown.
 */
module Mailbox {
  import opened Rings

  datatype Message = Message(source: nat, session: int, payload: int)

  /** in_global: 0 is not scheduled, 1 is scheduled or dispatching, 2 is dispatching with a session locked, 3 is locked. */
  datatype Mark = Unscheduled | InGlobal | Dispatching | Locked

  datatype Box = Box(messages: seq<Message>, mark: Mark, lockSession: int, release: bool)

  const DEFAULT_QUEUE_SIZE := 64

  /** skynet_mq_create. */
  const NEW_BOX := Box([], InGlobal, 0, false)

  /** What an operation does: the new box, and whether the queue is pushed to the global queue. */
  datatype Effect = Effect(box: Box, scheduled: bool)

  predicate Unlocks(b: Box, m: Message)
  {
    b.lockSession != 0 && m.session == b.lockSession
  }

  /** skynet_mq_push: the awaited reply goes to the front and ends the lock, anything else to the back. */
  function PushBox(b: Box, m: Message): Effect
  {
    if Unlocks(b, m) then
      var unlocked := b.(messages := [m] + b.messages, lockSession := 0);
      if b.mark == Locked then Effect(unlocked.(mark := InGlobal), true) else Effect(unlocked, false)
    else
      var queued := b.(messages := b.messages + [m]);
      if b.lockSession == 0 && b.mark == Unscheduled then Effect(queued.(mark := InGlobal), true)
      else Effect(queued, false)
  }

  /** skynet_mq_pop: an empty queue is taken out of scheduling. */
  function PopBox(b: Box): Box
  {
    if b.messages == [] then b.(mark := Unscheduled) else b.(messages := b.messages[1..])
  }

  function LockBox(b: Box, session: int): Box
  {
    b.(mark := Dispatching, lockSession := session)
  }

  /** skynet_mq_pushglobal: the end of a dispatch. */
  function PushGlobalBox(b: Box): Effect
  {
    var locked := if b.mark == Dispatching then b.(mark := Locked) else b;
    if b.lockSession == 0 then Effect(locked.(mark := InGlobal), true) else Effect(locked, false)
  }

  /** skynet_mq_mark_release. */
  function MarkReleaseBox(b: Box): Effect
  {
    Effect(b.(release := true), b.mark != InGlobal)
  }

  class MessageQueue {
    var head: nat
    var tail: nat
    var cap: nat
    var queue: array<Message>
    var release: bool
    var lockSession: int
    var inGlobal: Mark

    ghost predicate Valid()
      reads this
    {
      queue.Length == cap && head < cap && tail < cap
    }

    ghost function Messages(): seq<Message>
      requires Valid()
      reads this, queue
    {
      Ring(queue[..], head, tail)
    }

    ghost function Abstract(): Box
      requires Valid()
      reads this, queue
    {
      Box(Messages(), inGlobal, lockSession, release)
    }

    constructor ()
      ensures Valid() && Abstract() == NEW_BOX && fresh(queue)
    {
      cap, head, tail := DEFAULT_QUEUE_SIZE, 0, 0;
      queue := new Message[DEFAULT_QUEUE_SIZE](_ => Message(0, 0, 0));
      inGlobal, release, lockSession := InGlobal, false, 0;
    }

    /** Returns the message, or nothing and takes the queue out of scheduling. */
    method Pop() returns (got: bool, message: Message)
      requires Valid()
      modifies this
      ensures Valid() && queue == old(queue)
      ensures got <==> old(Messages()) != []
      ensures got ==> old(Messages()) == [message] + Messages()
      ensures Abstract() == PopBox(old(Abstract()))
    {
      message := queue[head];
      got := head != tail;
      if got {
        RingPop(queue[..], head, tail);
        head := Wrap(head + 1, cap);
      } else {
        inGlobal := Unscheduled;
      }
    }

    /** expand_queue: the whole array, from head and around, moves to the front of one twice as long. */
    method Expand()
      requires Valid()
      modifies this`head, this`tail, this`cap, this`queue
      ensures Valid() && fresh(queue) && head == 0 && tail == old(cap) && cap == 2 * old(cap)
      ensures queue[..tail] == Rotated(old(queue[..]), old(head))
    {
      ghost var all := Rotated(queue[..], head);
      var bigger := new Message[cap * 2](_ => Message(0, 0, 0));
      var i := 0;
      while i < cap
        invariant i <= cap && unchanged(this) && unchanged(queue)
        invariant bigger[..i] == all[..i]
      {
        Around(head, i, cap);
        bigger[i] := queue[(head + i) % cap];
        i := i + 1;
      }
      queue := bigger;
      head, tail, cap := 0, cap, cap * 2;
    }

    /** The part of _pushhead that stores the message. */
    method StoreHead(m: Message)
      requires Valid()
      modifies this`head, this`tail, this`cap, this`queue, queue
      ensures Valid() && (queue == old(queue) || fresh(queue))
      ensures Messages() == [m] + old(Messages())
    {
      hide Ring, Rotated;
      var h := if head == 0 then cap - 1 else head - 1;
      if h == tail {
        Expand();
        RingGrown(old(queue[..]), old(head), old(tail), queue[..]);
        tail := tail - 1;
        h := cap - 1;
      }
      RingPushHead(queue[..], head, tail, m);
      ghost var stored := queue[..][h := m];
      queue[h] := m;
      assert queue[..] == stored;
      head := h;
    }

    /** The part of skynet_mq_push that stores an ordinary message. */
    method StoreTail(m: Message)
      requires Valid()
      modifies this`head, this`tail, this`cap, this`queue, queue
      ensures Valid() && (queue == old(queue) || fresh(queue))
      ensures Messages() == old(Messages()) + [m]
    {
      queue[tail] := m;
      tail := Wrap(tail + 1, cap);
      if head == tail {
        Expand();
      }
    }

    /** Returns whether the queue was pushed to the global queue. The precondition is the assertion of _pushhead. */
    method Push(m: Message) returns (scheduled: bool)
      requires Valid()
      requires Unlocks(Abstract(), m) ==> inGlobal in {Locked, Dispatching}
      modifies this, queue
      ensures Valid() && (queue == old(queue) || fresh(queue))
      ensures Effect(Abstract(), scheduled) == PushBox(old(Abstract()), m)
    {
      scheduled := false;
      if lockSession != 0 && m.session == lockSession {
        StoreHead(m);
        if inGlobal == Locked {
          scheduled, inGlobal := true, InGlobal;
        }
        lockSession := 0;
      } else {
        StoreTail(m);
        if lockSession == 0 && inGlobal == Unscheduled {
          scheduled, inGlobal := true, InGlobal;
        }
      }
    }

    /** skynet_mq_lock; the preconditions are its two assertions. */
    method Lock(session: int)
      requires Valid() && lockSession == 0 && inGlobal == InGlobal
      modifies this`inGlobal, this`lockSession
      ensures Valid() && Abstract() == LockBox(old(Abstract()), session)
      ensures lockSession == session && inGlobal == Dispatching && Messages() == old(Messages()) && release == old(release)
    {
      inGlobal, lockSession := Dispatching, session;
    }

    /** skynet_mq_pushglobal; the precondition is its assertion. */
    method PushGlobal() returns (scheduled: bool)
      requires Valid() && inGlobal != Unscheduled
      modifies this`inGlobal
      ensures Valid() && Effect(Abstract(), scheduled) == PushGlobalBox(old(Abstract()))
    {
      scheduled := false;
      if inGlobal == Dispatching {
        inGlobal := Locked;
      }
      if lockSession == 0 {
        scheduled, inGlobal := true, InGlobal;
      }
    }

    /** skynet_mq_mark_release; the precondition is its assertion. */
    method MarkRelease() returns (scheduled: bool)
      requires Valid() && !release
      modifies this`release
      ensures Valid() && Effect(Abstract(), scheduled) == MarkReleaseBox(old(Abstract()))
    {
      scheduled := inGlobal != InGlobal;
      release := true;
    }

    /** The loop of _drop_queue: every message is taken out once, in order. */
    method Drop() returns (dropped: seq<Message>)
      requires Valid()
      modifies this
      ensures Valid() && Messages() == [] && dropped == old(Messages())
    {
      hide Ring;
      dropped := [];
      var got, m := Pop();
      while got
        invariant Valid() && queue == old(queue) && unchanged(queue)
        invariant !got ==> Messages() == []
        invariant dropped + (if got then [m] else []) + Messages() == old(Messages())
        decreases |Messages()|, got
      {
        dropped := dropped + [m];
        got, m := Pop();
      }
    }
  }
}
