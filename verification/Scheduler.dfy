/**
 The scheduling protocol as a state machine: services, their queues, the global queue, the handle
 table and any number of threads that create services, send to them, kill them and dispatch for them.
 One step is one locked region or one atomic operation of the source. The sends and kills that a
 callback makes are steps of other threads of the model.
 */
module Scheduler {
  import opened Mailbox

  /** A service, its queue and its handle; handles are not reused. */
  type Service = nat

  type Thread = nat

  /** Where a thread stands. */
  datatype Pc =
    | Idle
    | Got(service: Service)                   // worker: popped the global queue
    | NoContext(service: Service)             // worker: the handle is retired
    | Grabbed(service: Service)               // worker: holds a context reference
    | Running(service: Service, locked: bool) // worker: inside the callback
    | Finished(service: Service)              // worker: released the context, pushglobal comes next
    | Leaving(service: Service)               // holds a reference and will release it
    | Sending(service: Service)               // sender: holds a reference
    | Creating(service: Service)              // skynet_context_new, inside the service's init
    | Launching(service: Service)             // init succeeded, ctx->init comes next
    | Launched(service: Service)              // force_push comes next
    | Failing(service: Service)               // init failed, retire comes next
    | Failed(service: Service)                // retired, mq_release comes next
    | Deleting(service: Service, next: Pc)    // dropped the last reference, mark_release comes next

  predicate About(pc: Pc, q: Service)
  {
    !pc.Idle? && pc.service == q
  }

  /** A context reference of q held by the thread. */
  predicate HasRef(pc: Pc, q: Service)
  {
    About(pc, q) && (pc.Grabbed? || pc.Running? || pc.Leaving? || pc.Sending? || pc.Creating?)
  }

  predicate Bears(pc: Pc)
  {
    !pc.Idle? && !pc.Leaving? && !pc.Sending?
  }

  /** The right to dispatch for q. */
  predicate HasToken(pc: Pc, q: Service)
  {
    About(pc, q) && Bears(if pc.Deleting? then pc.next else pc)
  }

  datatype State = State(
    boxes: map<Service, Box>,
    global: seq<Service>,
    table: set<Service>,
    inited: set<Service>,
    freed: set<Service>,
    threads: map<Thread, Pc>,
    /** The reply that ended a lock and has not been popped yet. */
    awaited: map<Service, Message>
  )

  const START := State(map[], [], {}, {}, {}, map[], map[])

  function PcOf(s: State, t: Thread): Pc
  {
    if t in s.threads then s.threads[t] else Idle
  }

  function Put(s: State, t: Thread, pc: Pc): State
  {
    s.(threads := s.threads[t := pc])
  }

  /** The context would be deleted if the thread dropped its reference. */
  ghost predicate LastRef(s: State, t: Thread, q: Service)
  {
    q !in s.table && forall u :: u in s.threads && u != t ==> !HasRef(s.threads[u], q)
  }

  /** skynet_context_release by t, which goes on at `next`. */
  ghost function Release(s: State, t: Thread, q: Service, next: Pc): State
  {
    if LastRef(s, t, q) then Put(s, t, Deleting(q, next)) else Put(s, t, next)
  }

  function Schedule(s: State, q: Service, e: Effect): State
  {
    s.(boxes := s.boxes[q := e.box], global := if e.scheduled then s.global + [q] else s.global)
  }

  /** skynet_mq_release by the holder of the token. */
  function ReleaseQueue(s: State, t: Thread, q: Service): State
    requires q in s.boxes
  {
    if s.boxes[q].release then
      Put(s, t, Idle).(boxes := s.boxes - {q}, freed := s.freed + {q}, awaited := s.awaited - {q})
    else
      Put(s, t, Idle).(global := s.global + [q])
  }

  datatype Step =
    | Create(q: Service)
    | InitSucceeds
    | SetInit
    | ForcePush
    | InitFails
    | RetireFailed
    | ReleaseFailed
    | PopGlobal
    | Grab
    | ReleaseRetired
    | PopMessage
    | LockSession(session: int)
    | Finish
    | PushGlobal
    | SendGrab(q: Service)
    | SendPush(m: Message)
    | Leave
    | Retire(q: Service)
    | MarkRelease

  ghost predicate Enabled(s: State, t: Thread, step: Step)
  {
    var pc := PcOf(s, t);
    match step
    case Create(q) => pc.Idle? && q !in s.boxes && q !in s.freed
    case InitSucceeds => pc.Creating?
    case InitFails => pc.Creating?
    case SetInit => pc.Launching?
    case ForcePush => pc.Launched?
    case RetireFailed => pc.Failing?
    case ReleaseFailed => pc.Failed?
    case PopGlobal => pc.Idle? && s.global != []
    case Grab => pc.Got?
    case ReleaseRetired => pc.NoContext?
    case PopMessage => pc.Grabbed?
    case LockSession(session) => pc.Running? && !pc.locked && session != 0
    case Finish => pc.Running?
    case PushGlobal => pc.Finished?
    case SendGrab(q) => pc.Idle? && q in s.table
    case SendPush(_) => pc.Sending?
    case Leave => pc.Leaving?
    case Retire(q) => pc.Idle? && q in s.table
    case MarkRelease => pc.Deleting?
  }

  /** The queue a step touches is allocated. */
  predicate Touches(s: State, t: Thread)
  {
    var pc := PcOf(s, t);
    !pc.Idle? ==> pc.service in s.boxes
  }

  ghost function Apply(s: State, t: Thread, step: Step): State
    requires Enabled(s, t, step) && Touches(s, t)
  {
    var pc := PcOf(s, t);
    match step
    case Create(q) => Put(s, t, Creating(q)).(boxes := s.boxes[q := NEW_BOX], table := s.table + {q})
    case InitSucceeds =>
      if LastRef(s, t, pc.service) then Put(s, t, Deleting(pc.service, Launched(pc.service)))
      else Put(s, t, Launching(pc.service))
    case InitFails => Release(s, t, pc.service, Failing(pc.service))
    case SetInit => Put(s, t, Launched(pc.service)).(inited := s.inited + {pc.service})
    case ForcePush => Put(s, t, Idle).(global := s.global + [pc.service])
    case RetireFailed =>
      var q := pc.service;
      if q in s.table then Release(s.(table := s.table - {q}), t, q, Failed(q)) else Put(s, t, Failed(q))
    case ReleaseFailed => ReleaseQueue(s, t, pc.service)
    case PopGlobal => Put(s, t, Got(s.global[0])).(global := s.global[1..])
    case Grab => Put(s, t, if pc.service in s.table then Grabbed(pc.service) else NoContext(pc.service))
    case ReleaseRetired => ReleaseQueue(s, t, pc.service)
    case PopMessage =>
      var b := s.boxes[pc.service];
      Put(s, t, if b.messages == [] then Leaving(pc.service) else Running(pc.service, false))
        .(boxes := s.boxes[pc.service := PopBox(b)], awaited := s.awaited - {pc.service})
    case LockSession(session) =>
      Put(s, t, Running(pc.service, true)).(boxes := s.boxes[pc.service := LockBox(s.boxes[pc.service], session)])
    case Finish => Release(s, t, pc.service, Finished(pc.service))
    case PushGlobal => Put(Schedule(s, pc.service, PushGlobalBox(s.boxes[pc.service])), t, Idle)
    case SendGrab(q) => Put(s, t, Sending(q))
    case SendPush(m) =>
      var b := s.boxes[pc.service];
      Put(Schedule(s, pc.service, PushBox(b, m)), t, Leaving(pc.service))
        .(awaited := if Unlocks(b, m) then s.awaited[pc.service := m] else s.awaited)
    case Leave => Release(s, t, pc.service, Idle)
    case Retire(q) => Release(s.(table := s.table - {q}), t, q, Idle)
    case MarkRelease => Put(Schedule(s, pc.service, MarkReleaseBox(s.boxes[pc.service])), t, pc.next)
  }

  // ---------------------------------------------------------------------------
  // The invariant of one service
  // ---------------------------------------------------------------------------

  predicate Scheduled(b: Box)
  {
    b.mark == InGlobal || b.mark == Dispatching || b.release
  }

  predicate BoxOk(b: Box)
  {
    && (b.mark == Unscheduled ==> b.messages == [])
    && (b.lockSession != 0 ==> b.mark == Dispatching || b.mark == Locked)
    && (b.mark == Locked ==> b.lockSession != 0)
  }

  /** What the position of a thread says about the queue it works on. */
  predicate Fits(pc: Pc, b: Box)
  {
    match pc
    case Got(_) => b.release || b.mark == InGlobal
    case NoContext(_) => b.release || b.mark == InGlobal
    case Running(_, locked) => b.mark == if locked then Dispatching else InGlobal
    case Finished(_) => b.mark == InGlobal || (b.mark == Dispatching && !b.release)
    case _ => Bears(pc) ==> b.mark == InGlobal
  }

  predicate PcOk(pc: Pc, b: Box)
  {
    if pc.Deleting? then
      pc.next in {Idle, Launched(pc.service), Failing(pc.service), Failed(pc.service), Finished(pc.service)} && Fits(pc.next, b) && !b.release
    else
      Fits(pc, b)
  }

  ghost predicate PcsOk(s: State, q: Service)
    requires q in s.boxes
  {
    forall t :: About(PcOf(s, t), q) ==> PcOk(PcOf(s, t), s.boxes[q])
  }

  ghost predicate Owned(s: State, q: Service)
  {
    q in s.global || exists t :: HasToken(PcOf(s, t), q)
  }

  /** At most one copy in the global queue or one thread holds the token. */
  ghost predicate OneToken(s: State, q: Service)
  {
    && multiset(s.global)[q] <= 1
    && (forall t :: HasToken(PcOf(s, t), q) ==> q !in s.global)
    && (forall t, u :: HasToken(PcOf(s, t), q) && HasToken(PcOf(s, u), q) ==> t == u)
  }

  /** A queue is marked released after the last reference is gone, by the one thread that dropped it. */
  ghost predicate RefsOk(s: State, q: Service)
    requires q in s.boxes
  {
    && (s.boxes[q].release ==> q !in s.table && forall t :: !HasRef(PcOf(s, t), q))
    && (forall t :: PcOf(s, t).Deleting? && About(PcOf(s, t), q) ==> q !in s.table && forall u :: !HasRef(PcOf(s, u), q))
    && (forall t, u :: PcOf(s, t).Deleting? && About(PcOf(s, t), q) && PcOf(s, u).Deleting? && About(PcOf(s, u), q) ==> t == u)
  }

  ghost predicate InitOk(s: State, q: Service)
  {
    && (q in s.table && q !in s.inited ==> exists t :: PcOf(s, t) in {Creating(q), Launching(q), Failing(q)})
    && (forall t :: About(PcOf(s, t), q) && (PcOf(s, t).Grabbed? || PcOf(s, t).Running?) ==> q in s.inited)
  }

  /** The reply that ends a lock stays at the head until it is popped. */
  ghost predicate AwaitedOk(s: State, q: Service)
    requires q in s.boxes
  {
    q in s.awaited ==>
      && s.boxes[q].messages != [] && s.boxes[q].messages[0] == s.awaited[q] && s.boxes[q].lockSession == 0
      && forall t :: PcOf(s, t) != Running(q, false)
  }

  ghost predicate Absent(s: State, q: Service)
  {
    q !in s.global && q !in s.table && q !in s.awaited && forall t :: !About(PcOf(s, t), q)
  }

  ghost predicate InvQ(s: State, q: Service)
  {
    if q in s.boxes then
      && q !in s.freed && BoxOk(s.boxes[q]) && PcsOk(s, q) && OneToken(s, q)
      && (Scheduled(s.boxes[q]) <==> Owned(s, q))
      && (q in s.global ==> s.boxes[q].release || s.boxes[q].mark == InGlobal)
      && RefsOk(s, q) && InitOk(s, q) && AwaitedOk(s, q)
    else
      Absent(s, q)
  }

  ghost predicate Inv(s: State)
  {
    forall q :: InvQ(s, q)
  }
}
